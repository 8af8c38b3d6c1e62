/** The durable work queue of source fills: one claimable head per source market lane. */
module LiveCopyWork {
  import opened Numbers
  import opened Options
  import opened SqlLogic
  import opened SourceFillOrdering
  import TextOrder

  datatype Status = Pending | Processing | Completed

  /** A work row. Times are in seconds; `walletFill` is the row of the imported fill. */
  datatype WorkRow = WorkRow(
    walletFill: nat, wallet: string, columns: OrderColumns, status: Status,
    attemptCount: nat, availableAt: int, claimedAt: Option<int>, claimedBy: Option<string>)

  type Rows = map<nat, WorkRow>

  // ------------------------------------------------------------- retry delay

  const MaxDelay: int := 300

  function RetryDelay(attemptCount: int, baseSeconds: int): int {
    var exponent := MinInt(MaxInt(attemptCount - 1, 0), 6);
    MinInt(MaxInt(baseSeconds, 1) * Pow2(exponent), MaxDelay)
  }

  /** Delays never shrink as attempts grow, start at the base, double with each of the
      first attempts, and stay within five minutes. */
  lemma RetryDelayIsMonotone(a: int, b: int, baseSeconds: int)
    requires a <= b
    ensures 1 <= RetryDelay(a, baseSeconds) <= RetryDelay(b, baseSeconds) <= 300
    ensures RetryDelay(1, baseSeconds) == MinInt(MaxInt(baseSeconds, 1), 300)
    ensures 1 <= a <= 6 && b == a + 1 ==> RetryDelay(b, baseSeconds) == MinInt(2 * RetryDelay(a, baseSeconds), 300)
  {
    var x, y := MinInt(MaxInt(a - 1, 0), 6), MinInt(MaxInt(b - 1, 0), 6);
    Pow2Monotone(x, y);
    ScaleKeepsOrder(MaxInt(baseSeconds, 1), Pow2(x), Pow2(y));
    ScaleKeepsOrder(MaxInt(baseSeconds, 1), 1, Pow2(x));
  }

  lemma ScaleKeepsOrder(k: int, a: int, b: int)
    requires k >= 1 && a <= b
    ensures k * a <= k * b
  {
  }

  // ------------------------------------------------------------ claim query

  predicate Unfinished(r: WorkRow) { r.status in {Pending, Processing} }

  predicate SameLane(a: WorkRow, b: WorkRow) { a.wallet == b.wallet && a.columns.coin == b.columns.coin }

  function Key(r: WorkRow): OrderKey { KeyOf(r.columns) }

  /** `is_claimable`: a due pending row, or a processing row whose claim went stale. */
  predicate Claimable(r: WorkRow, now: int, staleBefore: int) {
    || (r.status == Pending && r.availableAt <= now)
    || (r.status == Processing && (r.claimedAt.None? || r.claimedAt.value <= staleBefore))
  }

  /** The row of the EXISTS subquery, with its three-valued order condition. */
  predicate BlocksClaim(earlier: WorkRow, r: WorkRow) {
    SameLane(earlier, r) && Unfinished(earlier) && Where(WorkEarlier(earlier.columns, r.columns))
  }

  predicate HasEarlierUnfinished(rows: Rows, r: WorkRow) {
    exists e :: e in rows && BlocksClaim(rows[e], r)
  }

  /** A row the claim query may return, off the rows other transactions have locked. */
  predicate Candidate(rows: Rows, id: nat, now: int, staleBefore: int, locked: set<nat>) {
    && id in rows && id !in locked
    && Claimable(rows[id], now, staleBefore) && !HasEarlierUnfinished(rows, rows[id])
  }

  /** The ORDER BY of the claim query. */
  predicate ClaimBefore(a: WorkRow, b: WorkRow) {
    if a.columns.timestampMs != b.columns.timestampMs then a.columns.timestampMs < b.columns.timestampMs
    else if a.wallet != b.wallet then TextOrder.Before(a.wallet, b.wallet)
    else KeyLess(Key(a), Key(b))
  }

  /** The row the claim query returns. */
  ghost predicate IsNext(rows: Rows, id: nat, now: int, staleBefore: int, locked: set<nat>) {
    && Candidate(rows, id, now, staleBefore, locked)
    && forall o :: o != id && Candidate(rows, o, now, staleBefore, locked) ==> ClaimBefore(rows[id], rows[o])
  }

  function StaleBefore(now: int, timeoutSeconds: int): int { now - MaxInt(timeoutSeconds, 1) }

  // ---------------------------------------------------------------- the steps

  /** The unique constraints: one row per imported fill, and per wallet and fill id. */
  predicate Unique(rows: Rows) {
    forall a, b :: a in rows && b in rows && a != b ==>
      && rows[a].walletFill != rows[b].walletFill
      && !(rows[a].wallet == rows[b].wallet && rows[a].columns.fillId == rows[b].columns.fillId)
  }

  predicate Conflicts(rows: Rows, walletFill: nat, wallet: string, fillId: string) {
    exists id :: id in rows && (rows[id].walletFill == walletFill
                                || (rows[id].wallet == wallet && rows[id].columns.fillId == fillId))
  }

  /** An imported fill: the row it was stored in, its wallet and its order fields. */
  datatype Imported = Imported(walletFill: nat, wallet: string, fill: OrderedFill)

  function Enqueued(rows: Rows, id: nat, f: Imported, now: int): Rows {
    if Conflicts(rows, f.walletFill, f.wallet, f.fill.fillId) then rows
    else rows[id := WorkRow(f.walletFill, f.wallet, ColumnsOf(f.fill), Pending, 0, now, None, None)]
  }

  /** A batch, inserted one after the other with fresh ids. */
  function EnqueuedAll(rows: Rows, nextId: nat, batch: seq<Imported>, now: int): Rows
    decreases |batch|
  {
    if batch == [] then rows else EnqueuedAll(Enqueued(rows, nextId, batch[0], now), nextId + 1, batch[1..], now)
  }

  predicate FreshIds(rows: Rows, nextId: nat) { forall id :: id in rows ==> id < nextId }

  lemma EnqueuedKeeps(rows: Rows, nextId: nat, f: Imported, now: int)
    requires Unique(rows) && FreshIds(rows, nextId)
    ensures var rows' := Enqueued(rows, nextId, f, now);
            && Unique(rows') && FreshIds(rows', nextId + 1)
            && (forall id :: id in rows ==> id in rows' && rows'[id] == rows[id])
            && Conflicts(rows', f.walletFill, f.wallet, f.fill.fillId)
  {
    var rows' := Enqueued(rows, nextId, f, now);
    if !Conflicts(rows, f.walletFill, f.wallet, f.fill.fillId) {
      assert nextId in rows' && rows'[nextId].walletFill == f.walletFill;
    }
  }

  /** Enqueueing a batch twice, or work that already exists, changes no row that is there. */
  lemma {:induction false} EnqueuedAllKeeps(rows: Rows, nextId: nat, batch: seq<Imported>, now: int)
    requires Unique(rows) && FreshIds(rows, nextId)
    ensures var rows' := EnqueuedAll(rows, nextId, batch, now);
            && Unique(rows') && FreshIds(rows', nextId + |batch|)
            && (forall id :: id in rows ==> id in rows' && rows'[id] == rows[id])
            && (forall i :: 0 <= i < |batch| ==>
                  Conflicts(rows', batch[i].walletFill, batch[i].wallet, batch[i].fill.fillId))
    decreases |batch|
  {
    if batch != [] {
      EnqueuedKeeps(rows, nextId, batch[0], now);
      var first := Enqueued(rows, nextId, batch[0], now);
      EnqueuedAllKeeps(first, nextId + 1, batch[1..], now);
      var rows' := EnqueuedAll(rows, nextId, batch, now);
      forall i | 0 <= i < |batch|
        ensures Conflicts(rows', batch[i].walletFill, batch[i].wallet, batch[i].fill.fillId)
      {
        if i == 0 {
          ConflictsStay(first, rows', batch[0].walletFill, batch[0].wallet, batch[0].fill.fillId);
        } else {
          assert batch[i] == batch[1..][i - 1];
        }
      }
    }
  }

  /** Some row stands for the imported fill, by its own row or by wallet and fill id. */
  predicate Queued(rows: Rows, f: Imported) {
    exists id :: id in rows && (|| rows[id].walletFill == f.walletFill
                                || (rows[id].wallet == f.wallet && rows[id].columns.fillId == f.fill.fillId))
  }

  /** A new row waits for its first claim, and stands for a fill of the batch. */
  predicate FreshRow(r: WorkRow, batch: seq<Imported>, now: int) {
    exists f :: f in batch && r == WorkRow(f.walletFill, f.wallet, ColumnsOf(f.fill), Pending, 0, now, None, None)
  }

  /** What a batch leaves: each of its fills is queued, new rows wait for their first claim, and
      the old ones are as they were. */
  lemma {:induction false} EnqueuedRowsAreFresh(rows: Rows, nextId: nat, batch: seq<Imported>, now: int)
    requires Unique(rows) && FreshIds(rows, nextId)
    ensures var rows' := EnqueuedAll(rows, nextId, batch, now);
            && (forall f :: f in batch ==> Queued(rows', f))
            && (forall id :: id in rows' && id !in rows ==> FreshRow(rows'[id], batch, now))
            && (forall id :: id in rows ==> id in rows' && rows'[id] == rows[id])
    decreases |batch|
  {
    hide ColumnsOf, FreshRow, Unique, Enqueued, Queued;
    EnqueuedAllKeeps(rows, nextId, batch, now);
    if batch != [] {
      var first, rest := Enqueued(rows, nextId, batch[0], now), batch[1..];
      var rows' := EnqueuedAll(rows, nextId, batch, now);
      EnqueuedKeeps(rows, nextId, batch[0], now);
      EnqueuedRowsAreFresh(first, nextId + 1, rest, now);
      assert batch == [batch[0]] + rest;
      FirstIsQueued(rows, first, rows', nextId, batch, now);
      forall id | id in rows' && id !in rows
        ensures FreshRow(rows'[id], batch, now)
      {
        if id !in first { FreshRowOfMore(rows'[id], rest, batch, now); }
      }
    }
  }

  lemma FreshRowOfMore(r: WorkRow, rest: seq<Imported>, batch: seq<Imported>, now: int)
    requires FreshRow(r, rest, now) && forall f :: f in rest ==> f in batch
    ensures FreshRow(r, batch, now)
  {
  }

  lemma FirstIsQueued(rows: Rows, first: Rows, after: Rows, nextId: nat, batch: seq<Imported>, now: int)
    requires batch != [] && FreshIds(rows, nextId) && first == Enqueued(rows, nextId, batch[0], now)
    requires forall id :: id in first ==> id in after && after[id] == first[id]
    ensures Queued(after, batch[0])
    ensures forall id :: id in first && id !in rows ==> FreshRow(after[id], batch, now)
  {
    hide ColumnsOf;
    var f := batch[0];
    if Conflicts(rows, f.walletFill, f.wallet, f.fill.fillId) {
      var id :| id in rows && (rows[id].walletFill == f.walletFill
                               || (rows[id].wallet == f.wallet && rows[id].columns.fillId == f.fill.fillId));
      assert id in after;
    } else {
      assert after[nextId].walletFill == f.walletFill;
    }
  }

  function Claimed(rows: Rows, id: nat, owner: string, now: int): Rows
    requires id in rows
  {
    rows[id := rows[id].(status := Processing, attemptCount := rows[id].attemptCount + 1,
                         claimedAt := Some(now), claimedBy := Some(owner))]
  }

  predicate HeldBy(rows: Rows, id: nat, owner: string) {
    id in rows && rows[id].status == Processing && rows[id].claimedBy == Some(owner)
  }

  function CompletedBy(rows: Rows, id: nat, owner: string): Rows {
    if HeldBy(rows, id, owner) then rows - {id} else rows
  }

  function RetriedBy(rows: Rows, id: nat, owner: string, availableAt: int): Rows {
    if HeldBy(rows, id, owner)
    then rows[id := rows[id].(status := Pending, availableAt := availableAt, claimedAt := None, claimedBy := None)]
    else rows
  }

  lemma ClaimOrderIsTotal(a: WorkRow, b: WorkRow)
    requires !(a.wallet == b.wallet && a.columns.fillId == b.columns.fillId)
    ensures ClaimBefore(a, b) || ClaimBefore(b, a)
  {
    if a.wallet != b.wallet {
      TextOrder.BeforeIsTotal(a.wallet, b.wallet);
    } else {
      KeyLessIsTotal(Key(a), Key(b));
    }
  }

  lemma ClaimOrderIsTransitive(a: WorkRow, b: WorkRow, c: WorkRow)
    requires ClaimBefore(a, b) && ClaimBefore(b, c)
    ensures ClaimBefore(a, c)
  {
    if a.columns.timestampMs == b.columns.timestampMs == c.columns.timestampMs {
      if a.wallet == b.wallet == c.wallet {
        KeyLessIsTransitive(Key(a), Key(b), Key(c));
      } else if a.wallet != b.wallet && b.wallet != c.wallet {
        TextOrder.BeforeIsTransitive(a.wallet, b.wallet, c.wallet);
        TextOrder.BeforeIsIrreflexive(a.wallet);
      }
    }
  }

  /** Due after its delay, or held by a claim as old as the timeout. */
  predicate ReadyAt(r: WorkRow, now: int, timeoutSeconds: int) {
    if r.status == Pending then r.availableAt <= now
    else r.status == Processing && (r.claimedAt.Some? ==> r.claimedAt.value + MaxInt(timeoutSeconds, 1) <= now)
  }

  /** An unfinished row of the same wallet and coin sorts before this one. */
  predicate Preceded(rows: Rows, id: nat)
    requires id in rows
  {
    exists e :: e in rows && rows[e].wallet == rows[id].wallet && rows[e].columns.coin == rows[id].columns.coin
                && rows[e].status != Completed && KeyLess(Key(rows[e]), Key(rows[id]))
  }

  /** Earlier in source time, and at the same time by wallet and fill order. */
  predicate Sooner(a: WorkRow, b: WorkRow) {
    || a.columns.timestampMs < b.columns.timestampMs
    || (a.columns.timestampMs == b.columns.timestampMs
        && (TextOrder.Before(a.wallet, b.wallet) || (a.wallet == b.wallet && KeyLess(Key(a), Key(b)))))
  }

  /** The claim query's candidates are the unlocked rows that are ready and not preceded. */
  lemma CandidateExactly(rows: Rows, id: nat, now: int, timeoutSeconds: int, locked: set<nat>)
    ensures Candidate(rows, id, now, StaleBefore(now, timeoutSeconds), locked)
            <==> id in rows && id !in locked && ReadyAt(rows[id], now, timeoutSeconds) && !Preceded(rows, id)
  {
    hide WorkEarlier, KeyLess;
    if id in rows {
      forall e | e in rows
        ensures Where(WorkEarlier(rows[e].columns, rows[id].columns)) <==> KeyLess(Key(rows[e]), Key(rows[id]))
      {
        WorkClaimOrder(rows[e].columns, rows[id].columns);
      }
      assert HasEarlierUnfinished(rows, rows[id]) <==> Preceded(rows, id);
    }
  }

  class LiveCopyWorkQueue {
    var rows: Rows
    var nextId: nat

    ghost predicate Valid()
      reads this
    {
      Unique(rows) && FreshIds(rows, nextId)
    }

    constructor ()
      ensures Valid() && rows == map[]
    {
      rows, nextId := map[], 0;
    }

    /** Adds the missing rows of a batch without touching work that exists. */
    method Enqueue(batch: seq<Imported>, now: int)
      requires Valid()
      modifies this
      ensures Valid() && nextId == old(nextId) + |batch|
      ensures rows == EnqueuedAll(old(rows), old(nextId), batch, now)
      ensures forall f :: f in batch ==> Queued(rows, f)
    {
      hide Queued, ColumnsOf;
      EnqueuedRowsAreFresh(rows, nextId, batch, now);
      for i := 0 to |batch|
        invariant Valid() && nextId == old(nextId) + i
        invariant EnqueuedAll(old(rows), old(nextId), batch, now) == EnqueuedAll(rows, nextId, batch[i..], now)
      {
        var f := batch[i];
        EnqueuedKeeps(rows, nextId, f, now);
        assert batch[i..][0] == f && batch[i..][1..] == batch[i + 1..];
        if !Conflicts(rows, f.walletFill, f.wallet, f.fill.fillId) {
          rows := rows[nextId := WorkRow(f.walletFill, f.wallet, ColumnsOf(f.fill), Pending, 0, now, None, None)];
        }
        nextId := nextId + 1;
      }
    }

    /** Claims the earliest claimable head, scanning the rows for the query's first result. */
    method ClaimNext(owner: string, timeoutSeconds: int, now: int, locked: set<nat>) returns (claimed: Option<nat>)
      requires Valid()
      modifies this
      ensures Valid() && nextId == old(nextId)
      ensures claimed.Some? ==>
                && IsNext(old(rows), claimed.value, now, StaleBefore(now, timeoutSeconds), locked)
                && rows == Claimed(old(rows), claimed.value, owner, now)
      ensures claimed.Some? ==>
                var row := old(rows)[claimed.value];
                rows == old(rows)[claimed.value := row.(status := Processing, attemptCount := row.attemptCount + 1,
                                                        claimedAt := Some(now), claimedBy := Some(owner))]
      // An unlocked head is left for later only behind an earlier row, or while it is not due.
      ensures forall id :: id in old(rows) && id !in locked && claimed != Some(id)
                           && ReadyAt(old(rows)[id], now, timeoutSeconds) && !Preceded(old(rows), id) ==>
                claimed.Some? && Sooner(old(rows)[claimed.value], old(rows)[id])
      ensures claimed.None? ==>
                && rows == old(rows)
                && forall id :: !Candidate(rows, id, now, StaleBefore(now, timeoutSeconds), locked)
    {
      var staleBefore := StaleBefore(now, timeoutSeconds);
      var left := rows.Keys;
      claimed := None;
      while left != {}
        invariant left <= rows.Keys && rows == old(rows) && nextId == old(nextId)
        invariant claimed.Some? ==> claimed.value in rows.Keys - left
                                    && Candidate(rows, claimed.value, now, staleBefore, locked)
        invariant forall o :: o in rows.Keys - left && Candidate(rows, o, now, staleBefore, locked) ==>
                    claimed.Some? && (o == claimed.value || ClaimBefore(rows[claimed.value], rows[o]))
        decreases left
      {
        var id :| id in left;
        left := left - {id};
        if Candidate(rows, id, now, staleBefore, locked) {
          if claimed.None? {
            claimed := Some(id);
          } else if ClaimBefore(rows[id], rows[claimed.value]) {
            forall o | o in rows.Keys - left && Candidate(rows, o, now, staleBefore, locked) && o != id
              ensures ClaimBefore(rows[id], rows[o])
            {
              if o != claimed.value {
                ClaimOrderIsTransitive(rows[id], rows[claimed.value], rows[o]);
              }
            }
            claimed := Some(id);
          } else {
            ClaimOrderIsTotal(rows[id], rows[claimed.value]);
          }
        }
      }
      forall id | id in rows
        ensures Candidate(rows, id, now, staleBefore, locked)
                <==> id !in locked && ReadyAt(rows[id], now, timeoutSeconds) && !Preceded(rows, id)
      {
        CandidateExactly(rows, id, now, timeoutSeconds, locked);
      }
      if claimed.Some? {
        var row := rows[claimed.value];
        rows := rows[claimed.value := row.(status := Processing, attemptCount := row.attemptCount + 1,
                                           claimedAt := Some(now), claimedBy := Some(owner))];
      }
    }

    method Complete(id: nat, owner: string) returns (done: bool)
      requires Valid()
      modifies this
      ensures Valid() && nextId == old(nextId)
      ensures rows == CompletedBy(old(rows), id, owner)
      ensures done == HeldBy(old(rows), id, owner)
      ensures done <==> id in old(rows) && old(rows)[id].status == Processing && old(rows)[id].claimedBy == Some(owner)
      ensures rows == if done then old(rows) - {id} else old(rows)
    {
      done := id in rows && rows[id].status == Processing && rows[id].claimedBy == Some(owner);
      if done {
        rows := rows - {id};
      }
    }

    method Retry(id: nat, owner: string, attemptCount: int, baseSeconds: int, immediate: bool, now: int)
      returns (done: bool)
      requires Valid()
      modifies this
      ensures Valid() && nextId == old(nextId)
      ensures var delay := if immediate then 0 else RetryDelay(attemptCount, baseSeconds);
              rows == RetriedBy(old(rows), id, owner, now + delay)
      ensures done == HeldBy(old(rows), id, owner)
      ensures done <==> id in old(rows) && old(rows)[id].status == Processing && old(rows)[id].claimedBy == Some(owner)
      ensures var due := now + if immediate then 0 else RetryDelay(attemptCount, baseSeconds);
              rows == if done then old(rows)[id := old(rows)[id].(status := Pending, availableAt := due,
                                                                  claimedAt := None, claimedBy := None)]
                      else old(rows)
    {
      var delay := if immediate then 0 else RetryDelay(attemptCount, baseSeconds);
      done := id in rows && rows[id].status == Processing && rows[id].claimedBy == Some(owner);
      if done {
        rows := rows[id := rows[id].(status := Pending, availableAt := now + delay,
                                     claimedAt := None, claimedBy := None)];
      }
    }
  }

  lemma ConflictsStay(before: Rows, after: Rows, walletFill: nat, wallet: string, fillId: string)
    requires Conflicts(before, walletFill, wallet, fillId)
    requires forall id :: id in before ==> id in after && after[id] == before[id]
    ensures Conflicts(after, walletFill, wallet, fillId)
  {
    var id :| id in before && (before[id].walletFill == walletFill
                               || (before[id].wallet == wallet && before[id].columns.fillId == fillId));
    assert id in after;
  }
}
