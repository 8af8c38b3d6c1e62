/** Whole runs of the work queue: lane order under takeover, powerless old owners, and progress. */
module LiveCopyWorkRuns {
  import opened Numbers
  import opened Options
  import opened SourceFillOrdering
  import opened LiveCopyWork

  /** The queue with its history: the number of each row's enqueueing and of its latest
      claim, the database clock, and the rows completed so far. */
  datatype Queue = Queue(
    rows: Rows, nextId: nat, clock: int, step: nat,
    enqueuedAt: map<nat, nat>, claimedAt: map<nat, nat>, completed: seq<WorkRow>)

  datatype Event =
    | Enqueue(imported: Imported, at: int)
    | Claim(id: nat, owner: string, timeoutSeconds: int, locked: set<nat>, at: int)
    | Complete(id: nat, owner: string, at: int)
    | Retry(id: nat, owner: string, attemptCount: int, baseSeconds: int, immediate: bool, at: int)

  /** Time does not run backwards, and a claim returns the query's first row. */
  ghost predicate Legal(q: Queue, e: Event) {
    && q.clock <= e.at
    && (e.Claim? ==> IsNext(q.rows, e.id, e.at, StaleBefore(e.at, e.timeoutSeconds), e.locked))
  }

  ghost function Step(q: Queue, e: Event): Queue
    requires Legal(q, e)
  {
    var q' := q.(clock := e.at, step := q.step + 1);
    match e
    case Enqueue(f, at) =>
      var rows := Enqueued(q.rows, q.nextId, f, at);
      q'.(rows := rows, nextId := q.nextId + 1,
          enqueuedAt := if q.nextId in rows then q.enqueuedAt[q.nextId := q.step] else q.enqueuedAt)
    case Claim(id, owner, _, _, at) =>
      q'.(rows := Claimed(q.rows, id, owner, at), claimedAt := q.claimedAt[id := q.step])
    case Complete(id, owner, _) =>
      q'.(rows := CompletedBy(q.rows, id, owner),
          completed := if HeldBy(q.rows, id, owner) then q.completed + [q.rows[id]] else q.completed)
    case Retry(id, owner, attempts, base, immediate, at) =>
      q'.(rows := RetriedBy(q.rows, id, owner, at + if immediate then 0 else RetryDelay(attempts, base)))
  }

  ghost predicate LegalRun(q: Queue, run: seq<Event>)
    decreases |run|
  {
    run == [] || (Legal(q, run[0]) && LegalRun(Step(q, run[0]), run[1..]))
  }

  ghost function Run(q: Queue, run: seq<Event>): Queue
    requires LegalRun(q, run)
    decreases |run|
  {
    if run == [] then q else Run(Step(q, run[0]), run[1..])
  }

  function Fresh(clock: int): Queue { Queue(map[], 0, clock, 0, map[], map[], []) }

  // -------------------------------------------------------------- invariants

  /** The table and its history fit together. */
  predicate Sound(q: Queue) {
    && Unique(q.rows) && FreshIds(q.rows, q.nextId)
    && (forall id :: id in q.rows ==> Unfinished(q.rows[id]))
    && (forall id :: id in q.rows ==> id in q.enqueuedAt && q.enqueuedAt[id] < q.step)
    && (forall id :: id in q.rows && q.rows[id].status == Processing ==>
          id in q.claimedAt && q.claimedAt[id] < q.step && id in q.enqueuedAt && q.enqueuedAt[id] < q.claimedAt[id])
  }

  predicate Earlier(a: WorkRow, b: WorkRow) { SameLane(a, b) && KeyLess(Key(a), Key(b)) }

  /** A row before a processing row of its lane was enqueued after that row's latest claim. */
  predicate LateOnly(q: Queue) {
    forall p, r :: p in q.rows && r in q.rows && q.rows[p].status == Processing && Earlier(q.rows[r], q.rows[p]) ==>
      r in q.enqueuedAt && p in q.claimedAt && q.enqueuedAt[r] > q.claimedAt[p]
  }

  /** Waits are bounded: no row becomes due later than the longest delay from now. */
  predicate Timely(q: Queue) {
    forall id :: id in q.rows ==>
      && (q.rows[id].status == Pending ==> q.rows[id].availableAt <= q.clock + MaxDelay)
      && (q.rows[id].status == Processing ==> q.rows[id].claimedAt.Some? && q.rows[id].claimedAt.value <= q.clock)
  }

  predicate Inv(q: Queue) { Sound(q) && LateOnly(q) && Timely(q) }

  lemma NoEarlierWhenClaimed(q: Queue, e: Event, r: nat)
    requires e.Claim? && Legal(q, e) && r in q.rows && Unfinished(q.rows[r])
    ensures !Earlier(q.rows[r], q.rows[e.id])
  {
    WorkClaimOrder(q.rows[r].columns, q.rows[e.id].columns);
    assert !HasEarlierUnfinished(q.rows, q.rows[e.id]);
    assert !BlocksClaim(q.rows[r], q.rows[e.id]);
  }

  /** Changing a row's lease leaves the unique constraints alone. */
  lemma UpdateKeepsUnique(rows: Rows, id: nat, row: WorkRow)
    requires Unique(rows) && id in rows
    requires row.walletFill == rows[id].walletFill && row.wallet == rows[id].wallet && row.columns == rows[id].columns
    ensures Unique(rows[id := row])
  {
  }

  lemma EnqueueKeepsSound(q: Queue, e: Event)
    requires Sound(q) && Legal(q, e) && e.Enqueue?
    ensures Sound(Step(q, e))
  {
    EnqueuedKeeps(q.rows, q.nextId, e.imported, e.at);
    hide KeyOf, ColumnsOf, Unique, Conflicts;
  }

  lemma StepKeepsSound(q: Queue, e: Event)
    requires Sound(q) && Legal(q, e)
    ensures Sound(Step(q, e))
  {
    hide ColumnsOf, HasEarlierUnfinished, ClaimBefore, Claimable, RetryDelay, Unique, Enqueued;
    match e {
      case Enqueue(_, _) => EnqueueKeepsSound(q, e);
      case Claim(_, _, _, _, _) => UpdateKeepsUnique(q.rows, e.id, Step(q, e).rows[e.id]);
      case Complete(_, _, _) => RemoveKeepsUnique(q.rows, e.id);
      case Retry(_, _, _, _, _, _) =>
        if HeldBy(q.rows, e.id, e.owner) { UpdateKeepsUnique(q.rows, e.id, Step(q, e).rows[e.id]); }
    }
  }

  lemma RemoveKeepsUnique(rows: Rows, id: nat)
    requires Unique(rows)
    ensures Unique(rows - {id})
  {
  }

  lemma StepKeepsLateOnly(q: Queue, e: Event)
    requires Sound(q) && LateOnly(q) && Legal(q, e)
    ensures LateOnly(Step(q, e))
  {
    hide KeyOf, KeyLess, ColumnsOf, Conflicts, HasEarlierUnfinished, ClaimBefore, Claimable, RetryDelay, Unique;
    var q' := Step(q, e);
    if e.Enqueue? { EnqueuedKeeps(q.rows, q.nextId, e.imported, e.at); }
    forall p, r | p in q'.rows && r in q'.rows && q'.rows[p].status == Processing
                  && Earlier(q'.rows[r], q'.rows[p])
      ensures r in q'.enqueuedAt && p in q'.claimedAt && q'.enqueuedAt[r] > q'.claimedAt[p]
    {
      if e.Claim? && p == e.id {
        NoEarlierWhenClaimed(q, e, r);
        KeyLessIsIrreflexive(Key(q.rows[p]));
      }
    }
  }

  lemma StepKeepsTimely(q: Queue, e: Event)
    requires Sound(q) && Timely(q) && Legal(q, e)
    ensures Timely(Step(q, e))
  {
    if e.Retry? { RetryDelayIsMonotone(e.attemptCount, e.attemptCount, e.baseSeconds); }
    if e.Enqueue? { EnqueuedKeeps(q.rows, q.nextId, e.imported, e.at); }
  }

  lemma {:induction false} RunKeepsInv(q: Queue, run: seq<Event>)
    requires Inv(q) && LegalRun(q, run)
    ensures Inv(Run(q, run))
    decreases |run|
  {
    if run != [] {
      StepKeepsSound(q, run[0]);
      StepKeepsLateOnly(q, run[0]);
      StepKeepsTimely(q, run[0]);
      RunKeepsInv(Step(q, run[0]), run[1..]);
    }
  }

  /** In every reachable state, a same-lane row that sorts before a processing row was
      enqueued after that row's latest claim, whoever took it over meanwhile. */
  lemma ProcessingRowsOnlyPrecedeLateWork(clock: int, run: seq<Event>)
    requires LegalRun(Fresh(clock), run)
    ensures LateOnly(Run(Fresh(clock), run))
  {
    RunKeepsInv(Fresh(clock), run);
  }

  // -------------------------------------------------- runs enqueued in order

  /** An enqueue that changes nothing, because the fill is still queued, or one that sorts
      after all the work its lane holds, and after all it has completed if that is asked too. */
  predicate Follows(q: Queue, f: Imported, completedToo: bool) {
    || Conflicts(q.rows, f.walletFill, f.wallet, f.fill.fillId)
    || (AfterQueued(q, NewRow(f)) && (completedToo ==> AfterCompleted(q, NewRow(f))))
  }

  function NewRow(f: Imported): WorkRow {
    WorkRow(f.walletFill, f.wallet, ColumnsOf(f.fill), Pending, 0, 0, None, None)
  }

  predicate AfterQueued(q: Queue, row: WorkRow) {
    forall id :: id in q.rows && SameLane(q.rows[id], row) ==> KeyLess(Key(q.rows[id]), Key(row))
  }

  predicate AfterCompleted(q: Queue, row: WorkRow) {
    forall i :: 0 <= i < |q.completed| && SameLane(q.completed[i], row) ==> KeyLess(Key(q.completed[i]), Key(row))
  }

  /** Every enqueue of the run follows the work of its lane. */
  ghost predicate InOrder(q: Queue, run: seq<Event>, completedToo: bool)
    requires LegalRun(q, run)
    decreases |run|
  {
    run == [] ||
    (&& (run[0].Enqueue? ==> Follows(q, run[0].imported, completedToo))
     && InOrder(Step(q, run[0]), run[1..], completedToo))
  }

  /** Rows of a lane sort as they were enqueued. */
  predicate RowsOrdered(q: Queue) {
    forall a, b :: a in q.rows && b in q.rows && SameLane(q.rows[a], q.rows[b])
                   && a in q.enqueuedAt && b in q.enqueuedAt && q.enqueuedAt[a] < q.enqueuedAt[b]
                   ==> KeyLess(Key(q.rows[a]), Key(q.rows[b]))
  }

  /** Rows of a lane sort after everything completed in it, and that is in key order. */
  predicate CompletedAhead(q: Queue) {
    && (forall i, id :: 0 <= i < |q.completed| && id in q.rows && SameLane(q.completed[i], q.rows[id]) ==>
          KeyLess(Key(q.completed[i]), Key(q.rows[id])))
    && CompletedInOrder(q.completed)
  }

  predicate CompletedInOrder(done: seq<WorkRow>) {
    forall i, j :: 0 <= i < j < |done| && SameLane(done[i], done[j]) ==> KeyLess(Key(done[i]), Key(done[j]))
  }

  predicate Ordered(q: Queue, completedToo: bool) { RowsOrdered(q) && (completedToo ==> CompletedAhead(q)) }

  /** With work enqueued in order, a processing row is the first of its lane. */
  lemma ProcessingIsFirst(q: Queue, p: nat, r: nat)
    requires Inv(q) && RowsOrdered(q) && p in q.rows && r in q.rows && p != r
    requires q.rows[p].status == Processing && SameLane(q.rows[p], q.rows[r])
    ensures KeyLess(Key(q.rows[p]), Key(q.rows[r]))
  {
    KeyLessIsTotal(Key(q.rows[p]), Key(q.rows[r]));
    if KeyLess(Key(q.rows[r]), Key(q.rows[p])) {
      assert q.enqueuedAt[p] < q.enqueuedAt[r];
    }
  }

  lemma EnqueueKeepsRowsOrdered(q: Queue, e: Event)
    requires Inv(q) && RowsOrdered(q) && Legal(q, e) && e.Enqueue? && AfterQueued(q, NewRow(e.imported))
    ensures RowsOrdered(Step(q, e))
  {
    hide KeyLess, ColumnsOf, LateOnly, Timely, Unique, Conflicts;
    var q', n := Step(q, e), q.nextId;
    forall a, b | a in q'.rows && b in q'.rows && SameLane(q'.rows[a], q'.rows[b])
                  && a in q'.enqueuedAt && b in q'.enqueuedAt && q'.enqueuedAt[a] < q'.enqueuedAt[b]
      ensures KeyLess(Key(q'.rows[a]), Key(q'.rows[b]))
    {
      assert a != n;
      if b != n { assert a in q.rows && b in q.rows; }
    }
  }

  lemma EnqueueKeepsCompletedAhead(q: Queue, e: Event)
    requires CompletedAhead(q) && Legal(q, e) && e.Enqueue? && AfterCompleted(q, NewRow(e.imported))
    ensures CompletedAhead(Step(q, e))
  {
    hide KeyLess, ColumnsOf, Conflicts, CompletedInOrder;
    var q', n := Step(q, e), q.nextId;
    forall i, id | 0 <= i < |q.completed| && id in q'.rows && SameLane(q.completed[i], q'.rows[id])
      ensures KeyLess(Key(q.completed[i]), Key(q'.rows[id]))
    {
      if id != n { assert id in q.rows; }
    }
  }

  lemma CompleteKeepsOrdered(q: Queue, e: Event, completedToo: bool)
    requires Inv(q) && Ordered(q, completedToo) && Legal(q, e) && e.Complete? && HeldBy(q.rows, e.id, e.owner)
    ensures Ordered(Step(q, e), completedToo)
  {
    var q' := Step(q, e);
    forall id | id in q'.rows && SameLane(q.rows[e.id], q'.rows[id])
      ensures KeyLess(Key(q.rows[e.id]), Key(q'.rows[id]))
    {
      ProcessingIsFirst(q, e.id, id);
    }
    hide KeyOf, KeyLess, LateOnly, Timely, Sound;
  }

  lemma StepKeepsOrdered(q: Queue, e: Event, completedToo: bool)
    requires Inv(q) && Ordered(q, completedToo) && Legal(q, e)
    requires e.Enqueue? ==> Follows(q, e.imported, completedToo)
    ensures Ordered(Step(q, e), completedToo)
  {
    hide KeyOf, KeyLess, RowsOrdered, CompletedAhead, LateOnly, Timely, WorkEarlier, HasEarlierUnfinished;
    hide ClaimBefore, Claimable, RetryDelay, Unique, Conflicts, AfterQueued, AfterCompleted;
    match e {
      case Enqueue(f, _) =>
        if Conflicts(q.rows, f.walletFill, f.wallet, f.fill.fillId) {
          SamePlacesKeepOrdered(q, Step(q, e), completedToo);
        } else {
          EnqueueKeepsRowsOrdered(q, e);
          if completedToo { EnqueueKeepsCompletedAhead(q, e); }
        }
      case Claim(_, _, _, _, _) => SamePlacesKeepOrdered(q, Step(q, e), completedToo);
      case Complete(_, _, _) =>
        if HeldBy(q.rows, e.id, e.owner) { CompleteKeepsOrdered(q, e, completedToo); }
        else { SamePlacesKeepOrdered(q, Step(q, e), completedToo); }
      case Retry(_, _, _, _, _, _) => SamePlacesKeepOrdered(q, Step(q, e), completedToo);
    }
  }

  /** Claims, retries and enqueues of queued fills move no row in its lane. */
  lemma SamePlacesKeepOrdered(q: Queue, q': Queue, completedToo: bool)
    requires Ordered(q, completedToo) && q'.rows.Keys == q.rows.Keys && q'.completed == q.completed
    requires forall id :: id in q.rows && id in q'.enqueuedAt ==>
               id in q.enqueuedAt && q'.enqueuedAt[id] == q.enqueuedAt[id]
    requires forall id :: id in q.rows ==>
               q'.rows[id].wallet == q.rows[id].wallet && q'.rows[id].columns == q.rows[id].columns
    ensures Ordered(q', completedToo)
  {
    hide KeyOf, KeyLess;
  }

  lemma {:induction false} RunKeepsOrdered(q: Queue, run: seq<Event>, completedToo: bool)
    requires Inv(q) && Ordered(q, completedToo) && LegalRun(q, run) && InOrder(q, run, completedToo)
    ensures Inv(Run(q, run)) && Ordered(Run(q, run), completedToo)
    decreases |run|
  {
    hide Sound, LateOnly, Timely, Ordered, Follows, Step, Legal;
    if run != [] {
      StepKeepsSound(q, run[0]);
      StepKeepsLateOnly(q, run[0]);
      StepKeepsTimely(q, run[0]);
      StepKeepsOrdered(q, run[0], completedToo);
      RunKeepsOrdered(Step(q, run[0]), run[1..], completedToo);
    }
  }

  predicate TwoProcessing(q: Queue, p: nat, r: nat) {
    && p in q.rows && r in q.rows && SameLane(q.rows[p], q.rows[r])
    && q.rows[p].status == Processing && q.rows[r].status == Processing
  }

  /** With in-order enqueues no lane ever has two processing rows, through any claims,
      takeovers, retries and repeated enqueues. */
  lemma {:induction false} OneProcessingPerLane(clock: int, run: seq<Event>, p: nat, r: nat)
    requires LegalRun(Fresh(clock), run) && InOrder(Fresh(clock), run, false)
    requires TwoProcessing(Run(Fresh(clock), run), p, r)
    ensures p == r
  {
    RunKeepsOrdered(Fresh(clock), run, false);
    var q := Run(Fresh(clock), run);
    if p != r {
      ProcessingIsFirst(q, p, r);
      ProcessingIsFirst(q, r, p);
      KeyLessIsAsymmetric(Key(q.rows[p]), Key(q.rows[r]));
    }
  }

  /** If no enqueue brings back a completed fill either, each lane's rows are completed in key order. */
  lemma {:induction false} LanesRunInOrder(clock: int, run: seq<Event>)
    requires LegalRun(Fresh(clock), run) && InOrder(Fresh(clock), run, true)
    ensures CompletedInOrder(Run(Fresh(clock), run).completed)
  {
    RunKeepsOrdered(Fresh(clock), run, true);
  }

  // ---------------------------------------------------------------- takeover

  /** The owner claims no row of that id in the run. */
  predicate NeverClaims(run: seq<Event>, id: nat, owner: string) {
    forall i :: 0 <= i < |run| ==> !(run[i].Claim? && run[i].id == id && run[i].owner == owner)
  }

  /** None of the owner's completions and retries of the row changes any row. */
  ghost predicate Powerless(q: Queue, run: seq<Event>, id: nat, owner: string)
    requires LegalRun(q, run)
    decreases |run|
  {
    run == [] ||
    (&& ((run[0].Complete? || run[0].Retry?) && run[0].id == id && run[0].owner == owner ==>
           Step(q, run[0]).rows == q.rows)
     && Powerless(Step(q, run[0]), run[1..], id, owner))
  }

  /** After a takeover of a stale claim the old owner's completions and retries change
      nothing, for as long as it does not claim the row again. */
  lemma {:induction false} OldOwnerIsPowerless(q: Queue, run: seq<Event>, id: nat, owner: string)
    requires Sound(q) && LegalRun(q, run) && NeverClaims(run, id, owner)
    requires !HeldBy(q.rows, id, owner) && id < q.nextId
    ensures Powerless(q, run, id, owner)
    decreases |run|
  {
    if run != [] {
      var e := run[0];
      assert !(e.Claim? && e.id == id && e.owner == owner);
      assert NeverClaims(run[1..], id, owner);
      StepKeepsSound(q, e);
      OldOwnerIsPowerless(Step(q, e), run[1..], id, owner);
    }
  }

  lemma TakeoverDisplacesOwner(q: Queue, e: Event, run: seq<Event>, previous: string)
    requires Sound(q) && e.Claim? && Legal(q, e) && e.owner != previous
    requires LegalRun(Step(q, e), run) && NeverClaims(run, e.id, previous)
    ensures Powerless(Step(q, e), run, e.id, previous)
  {
    StepKeepsSound(q, e);
    OldOwnerIsPowerless(Step(q, e), run, e.id, previous);
  }

  // ------------------------------------------------------------ spacing in time

  /** The run leaves the row to its owner: nobody claims it, and its owner neither completes nor retries it. */
  predicate LeavesRow(run: seq<Event>, id: nat, owner: string) {
    forall k :: 0 <= k < |run| ==>
      match run[k]
      case Enqueue(_, _) => true
      case Claim(x, _, _, _, _) => x != id
      case Complete(x, worker, _) => x != id || worker != owner
      case Retry(x, worker, _, _, _, _) => x != id || worker != owner
  }

  /** Steps that leave a held row alone keep it. */
  lemma {:induction false} HeldRowStays(q: Queue, run: seq<Event>, id: nat, owner: string)
    requires Sound(q) && LegalRun(q, run) && LeavesRow(run, id, owner) && HeldBy(q.rows, id, owner)
    ensures Sound(Run(q, run)) && id in Run(q, run).rows && Run(q, run).rows[id] == q.rows[id]
    decreases |run|
  {
    if run != [] {
      StepKeepsSound(q, run[0]);
      hide Sound, RetryDelay, WorkEarlier, HasEarlierUnfinished, ClaimBefore, Claimable;
      assert forall k :: 0 <= k < |run[1..]| ==> run[1..][k] == run[k + 1];
      if run[0].Enqueue? { FreshRowsStay(q, run[0], id); }
      HeldRowStays(Step(q, run[0]), run[1..], id, owner);
    }
  }

  lemma FreshRowsStay(q: Queue, e: Event, id: nat)
    requires Sound(q) && e.Enqueue? && Legal(q, e) && id in q.rows
    ensures id in Step(q, e).rows && Step(q, e).rows[id] == q.rows[id]
  {
    EnqueuedKeeps(q.rows, q.nextId, e.imported, e.at);
  }

  /** A fresh claim stands: while its owner neither completes nor retries the row, the next
      claim of it comes at least the claim timeout later, and at least a second. */
  lemma {:induction false} ClaimsAreApart(q: Queue, e: Event, run: seq<Event>, next: Event)
    requires Sound(q) && e.Claim? && Legal(q, e) && LegalRun(Step(q, e), run) && LeavesRow(run, e.id, e.owner)
    requires next.Claim? && next.id == e.id && Legal(Run(Step(q, e), run), next)
    ensures next.at >= e.at + MaxInt(next.timeoutSeconds, 1)
  {
    hide RetryDelay, WorkEarlier, HasEarlierUnfinished, ClaimBefore;
    StepKeepsSound(q, e);
    HeldRowStays(Step(q, e), run, e.id, e.owner);
  }

  /** No event of the run claims the row. */
  predicate NobodyClaims(run: seq<Event>, id: nat) {
    forall k :: 0 <= k < |run| ==> !(run[k].Claim? && run[k].id == id)
  }

  /** Nothing but a claim changes a row that waits. */
  lemma {:induction false} PendingRowStays(q: Queue, run: seq<Event>, id: nat)
    requires Sound(q) && LegalRun(q, run) && NobodyClaims(run, id) && id in q.rows && q.rows[id].status == Pending
    ensures Sound(Run(q, run)) && id in Run(q, run).rows && Run(q, run).rows[id] == q.rows[id]
    decreases |run|
  {
    if run != [] {
      StepKeepsSound(q, run[0]);
      hide Sound, RetryDelay, WorkEarlier, HasEarlierUnfinished, ClaimBefore, Claimable;
      assert forall k :: 0 <= k < |run[1..]| ==> run[1..][k] == run[k + 1];
      if run[0].Enqueue? { FreshRowsStay(q, run[0], id); }
      PendingRowStays(Step(q, run[0]), run[1..], id);
    }
  }

  /** A retried row is not claimed again before its delay has passed. */
  lemma {:induction false} RetriedRowWaits(q: Queue, e: Event, run: seq<Event>, next: Event)
    requires Sound(q) && e.Retry? && Legal(q, e) && HeldBy(q.rows, e.id, e.owner)
    requires LegalRun(Step(q, e), run) && NobodyClaims(run, e.id)
    requires next.Claim? && next.id == e.id && Legal(Run(Step(q, e), run), next)
    ensures next.at >= e.at
    ensures !e.immediate ==> next.at >= e.at + RetryDelay(e.attemptCount, e.baseSeconds)
  {
    hide RetryDelay, WorkEarlier, HasEarlierUnfinished, ClaimBefore;
    RetryDelayIsMonotone(e.attemptCount, e.attemptCount, e.baseSeconds);
    StepKeepsSound(q, e);
    PendingRowStays(Step(q, e), run, e.id);
  }

  // ---------------------------------------------------------------- progress

  /** The head of a lane: no unfinished row of the lane sorts before it. */
  predicate IsHead(rows: Rows, id: nat) { id in rows && !HasEarlierUnfinished(rows, rows[id]) }

  predicate HeadOf(rows: Rows, id: nat, member: WorkRow) { IsHead(rows, id) && SameLane(rows[id], member) }

  lemma {:induction false} LaneMinimum(rows: Rows, ids: set<nat>) returns (least: nat)
    requires Unique(rows) && ids <= rows.Keys && ids != {}
    requires forall a, b :: a in ids && b in ids ==> SameLane(rows[a], rows[b])
    ensures least in ids && forall o :: o in ids && o != least ==> KeyLess(Key(rows[least]), Key(rows[o]))
    decreases |ids|
  {
    var any :| any in ids;
    if ids == {any} { return any; }
    var rest := ids - {any};
    assert ids == rest + {any} && rest != {};
    var l := LaneMinimum(rows, rest);
    KeyLessIsTotal(Key(rows[any]), Key(rows[l]));
    if KeyLess(Key(rows[any]), Key(rows[l])) {
      forall o | o in ids && o != any
        ensures KeyLess(Key(rows[any]), Key(rows[o]))
      {
        if o != l { KeyLessIsTransitive(Key(rows[any]), Key(rows[l]), Key(rows[o])); }
      }
      return any;
    }
    least := l;
  }

  /** Every nonempty lane has exactly one head. */
  lemma OneHeadPerLane(q: Queue, member: nat)
    requires Sound(q) && member in q.rows
    ensures exists h :: HeadOf(q.rows, h, q.rows[member])
    ensures forall h, g :: HeadOf(q.rows, h, q.rows[member]) && HeadOf(q.rows, g, q.rows[member]) ==> h == g
  {
    var rows := q.rows;
    var lane := set id | id in rows && SameLane(rows[id], rows[member]);
    assert member in lane;
    var least := LaneMinimum(rows, lane);
    forall e | e in rows
      ensures !BlocksClaim(rows[e], rows[least])
    {
      if BlocksClaim(rows[e], rows[least]) {
        WorkClaimOrder(rows[e].columns, rows[least].columns);
        assert e in lane;
        KeyLessIsIrreflexive(Key(rows[e]));
        if e != least { KeyLessIsAsymmetric(Key(rows[least]), Key(rows[e])); }
      }
    }
    assert HeadOf(rows, least, rows[member]);
    forall h | HeadOf(rows, h, rows[member])
      ensures h == least
    {
      if h != least {
        assert h in lane;
        WorkClaimOrder(rows[least].columns, rows[h].columns);
        assert BlocksClaim(rows[least], rows[h]);
      }
    }
  }

  /** The queue never stalls: in every reachable state each lane's head is claimable once
      the clock has moved on by the longest retry delay or the claim timeout. */
  lemma HeadBecomesClaimable(clock: int, run: seq<Event>, head: nat, timeoutSeconds: int, later: int)
    requires LegalRun(Fresh(clock), run)
    requires var q := Run(Fresh(clock), run);
             IsHead(q.rows, head) && later >= q.clock + MaxInt(300, MaxInt(timeoutSeconds, 1))
    ensures Candidate(Run(Fresh(clock), run).rows, head, later, StaleBefore(later, timeoutSeconds), {})
  {
    RunKeepsInv(Fresh(clock), run);
  }
}
