/** The durable live-copy state of one account, updated in place by each lifecycle service call. */
module LiveCopyStateService {
  import opened Numbers
  import opened Options
  import opened SourceFillOrdering
  import opened SourceFillPlanning
  import opened PreexistingMarkets
  import opened LiveCopyLedger

  /** The blocker query's ORDER BY: fill order, then part. */
  predicate BlockerBefore(l: Ledger, a: PartId, b: PartId)
    requires a in l.parts && b in l.parts
  {
    var x, y := KeyOf(l.parts[a].columns), KeyOf(l.parts[b].columns);
    KeyLess(x, y) || (x == y && a.sequence < b.sequence)
  }

  /** The first row of the blocker query. */
  predicate IsFirstPrior(l: Ledger, source: string, fill: OrderedFill, b: PartId) {
    && PriorBlocks(l, b, source, fill)
    && (forall o :: o in l.parts && PriorBlocks(l, o, source, fill) ==> !BlockerBefore(l, o, b))
  }

  predicate IsFirstLower(l: Ledger, source: string, fillId: FillId, sequence: int, b: PartId) {
    && LowerBlocks(l, b, source, fillId, sequence)
    && (forall o :: o in l.parts && LowerBlocks(l, o, source, fillId, sequence) ==> b.sequence <= o.sequence)
  }

  lemma BlockerBeforeIsTransitive(l: Ledger, a: PartId, b: PartId, c: PartId)
    requires a in l.parts && b in l.parts && c in l.parts && BlockerBefore(l, a, b) && BlockerBefore(l, b, c)
    ensures BlockerBefore(l, a, c)
  {
    hide KeyLess;
    var x, y, z := KeyOf(l.parts[a].columns), KeyOf(l.parts[b].columns), KeyOf(l.parts[c].columns);
    if KeyLess(x, y) && KeyLess(y, z) { KeyLessIsTransitive(x, y, z); }
  }

  lemma BlockerBeforeIsIrreflexive(l: Ledger, a: PartId)
    requires a in l.parts
    ensures !BlockerBefore(l, a, a)
  {
    KeyLessIsIrreflexive(KeyOf(l.parts[a].columns));
  }

  class LiveCopyStateStore {
    var sources: map<string, SourceState>
    var parts: map<PartId, PartRow>
    var orders: map<nat, Order>
    var positions: seq<Position>

    function State(): Ledger
      reads this
    {
      Ledger(sources, parts, orders, positions)
    }

    constructor ()
      ensures State() == Ledger(map[], map[], map[], [])
    {
      sources, parts, orders, positions := map[], map[], map[], [];
    }

    method EnsurePlan(source: string, fill: OrderedFill, planned: seq<Part>, firstObservedAt: Option<int>)
      returns (r: Result<seq<PartId>, StateError>)
      modifies this
      ensures match LiveCopyLedger.EnsurePlan(old(State()), source, fill, planned, firstObservedAt)
              case Err(e) => r == Err(e) && State() == old(State())
              case Ok(l) => State() == l && r.Ok? && |r.value| == |planned|
                            && forall k :: 0 <= k < |r.value| ==>
                                 r.value[k] == PartId(source, fill.fillId, k) && r.value[k] in parts
    {
      hide MatchesPlan, NewPart, Collect, Normalize, Contiguous, ColumnsOf, MissingParts, HasDivergent, HasUnexpected;
      var normal := NormalizePlan(planned);
      NormalizeAdmitsContiguous(planned);
      if normal.Err? { return Err(BadPlan(normal.error)); }
      var ordered := normal.value;
      if fill.fillId == "" { return Err(MissingFillId); }
      var fault := ValidatePersisted(source, fill, ordered);
      if fault.Some? { return Err(fault.value); }
      var states := AddMissing(source, fill, ordered, firstObservedAt);
      r := Ok(states);
    }

    /** Checks every persisted part of the fill against the plan. */
    method ValidatePersisted(source: string, fill: OrderedFill, ordered: seq<Part>) returns (fault: Option<StateError>)
      ensures fault == if HasUnexpected(State(), source, fill.fillId, |ordered|) then Some(UnexpectedSequences)
                       else if HasDivergent(State(), source, fill, ordered) then Some(DivergentPlan)
                       else None
    {
      hide MatchesPlan;
      var n := |ordered|;
      var existing := FillParts(State(), source, fill.fillId);
      if id :| id in existing && !(0 <= id.sequence < n) { return Some(UnexpectedSequences); }
      assert forall id :: id in parts && OfFill(id, source, fill.fillId) ==> id in existing;
      for k := 0 to n
        invariant forall id :: id in parts && OfFill(id, source, fill.fillId) && 0 <= id.sequence < k
                               ==> MatchesPlan(parts[id], fill, ordered[id.sequence], n)
      {
        var id := PartId(source, fill.fillId, k);
        if id in parts && !MatchesPlan(parts[id], fill, ordered[k], n) { return Some(DivergentPlan); }
      }
      fault := None;
    }

    /** Persists the parts of the plan that are not there yet. */
    method AddMissing(source: string, fill: OrderedFill, ordered: seq<Part>, firstObservedAt: Option<int>)
      returns (states: seq<PartId>)
      modifies this
      ensures var added := MissingParts(old(State()), source, fill, ordered, firstObservedAt);
              State() == old(State()).(parts := old(parts) + added)
      ensures |states| == |ordered|
      ensures forall i :: 0 <= i < |states| ==> states[i] == PartId(source, fill.fillId, i) && states[i] in parts
    {
      hide NewPart;
      states := [];
      for k := 0 to |ordered|
        invariant sources == old(sources) && orders == old(orders) && positions == old(positions)
        invariant forall id :: id in parts <==> id in old(parts) || id in PlanIds(source, fill.fillId, k)
        invariant forall id :: id in old(parts) ==> parts[id] == old(parts)[id]
        invariant forall id :: id in PlanIds(source, fill.fillId, k) && id !in old(parts) ==>
                    id in parts && parts[id] == NewPart(fill, ordered[id.sequence], |ordered|, firstObservedAt)
        invariant |states| == k
        invariant forall i :: 0 <= i < k ==> states[i] == PartId(source, fill.fillId, i) && states[i] in parts
      {
        var id := PartId(source, fill.fillId, k);
        if id !in parts { parts := parts[id := NewPart(fill, ordered[k], |ordered|, firstObservedAt)]; }
        states := states + [id];
      }
      assert parts == old(parts) + MissingParts(old(State()), source, fill, ordered, firstObservedAt);
    }

    /** The lowest part of the same fill that is undecided or still in flight. */
    method FindLowerBlocker(source: string, fillId: FillId, sequence: int) returns (b: Option<PartId>)
      requires forall id :: id in parts && OfFill(id, source, fillId) ==> id.sequence >= 0
      ensures b.None? <==> forall o :: o in parts ==> !LowerBlocks(State(), o, source, fillId, sequence)
      ensures b.Some? ==> IsFirstLower(State(), source, fillId, sequence, b.value)
    {
      var k := 0;
      while k < sequence
        invariant forall o :: o in parts && LowerBlocks(State(), o, source, fillId, sequence) ==> o.sequence >= k
      {
        var id := PartId(source, fillId, k);
        if id in parts && LowerBlocks(State(), id, source, fillId, sequence) { return Some(id); }
        k := k + 1;
      }
      b := None;
    }

    /** The earliest unfinished part of an earlier fill in the same market lane. */
    method FindPriorBlocker(source: string, fill: OrderedFill) returns (b: Option<PartId>)
      ensures b.None? <==> !HasPriorBlocker(State(), source, fill)
      ensures b.Some? ==> IsFirstPrior(State(), source, fill, b.value)
    {
      hide PriorBlocks, BlockerBefore;
      if fill.fillId == "" || fill.coin == "" { return None; }
      ghost var l := State();
      var rows := set o | o in parts && PriorBlocks(State(), o, source, fill);
      var todo := rows;
      b := None;
      while todo != {}
        invariant todo <= rows
        invariant b.None? ==> todo == rows
        invariant b.Some? ==> b.value in rows
        invariant b.Some? ==> forall o :: o in rows - todo ==> !BlockerBefore(l, o, b.value)
      {
        var o :| o in todo;
        if b.None? || BlockerBefore(State(), o, b.value) {
          KeepsLeast(l, rows - todo, b, o);
          BlockerBeforeIsIrreflexive(l, o);
          b := Some(o);
        }
        todo := todo - {o};
      }
      assert forall o :: o in l.parts && PriorBlocks(l, o, source, fill) ==> o in rows;
    }

    /** Claims one due part; every other answer leaves the state alone. The blocker
        shown is the first one in order. */
    method ClaimPart(source: string, fill: OrderedFill, p: Part, now: int, leaseSeconds: int, entryIsStale: bool)
      returns (reason: ClaimReason, shown: Option<PartId>)
      modifies this
      ensures reason == ClaimAnswer(old(State()), source, fill, p, now, entryIsStale)
      ensures var id := PartId(source, fill.fillId, p.sequenceIndex);
              State() == if reason == Claimed then WithLease(old(State()), id, LeaseEnd(now, leaseSeconds))
                         else old(State())
      ensures reason == Claimed ==>
                var id := PartId(source, fill.fillId, p.sequenceIndex);
                var until := now + MaxInt(leaseSeconds, 1) * 1_000_000;
                parts == old(parts)[id := old(parts)[id].(outcome := Retryable, nextAttemptAt := Some(until))]
      ensures reason == Blocked ==>
                var l := old(State());
                && shown.Some?
                && (|| IsFirstLower(l, source, fill.fillId, p.sequenceIndex, shown.value)
                    || ((forall o :: o in l.parts ==> !LowerBlocks(l, o, source, fill.fillId, p.sequenceIndex))
                        && IsFirstPrior(l, source, fill, shown.value)))
    {
      hide MatchesPlan, PostBaseline, FollowsOwnedPosition, HasPriorBlocker, IsFirstPrior, LowerBlocks, IsFirstLower;
      var id := PartId(source, fill.fillId, p.sequenceIndex);
      shown := if id in parts then Some(id) else None;
      if source !in sources || !sources[source].active { return MissingPlan, None; }
      if fill.fillId == "" { return MissingPlan, None; }
      var plan := FillParts(State(), source, fill.fillId);
      if id !in parts || !PlanIsWhole(State(), source, fill.fillId) { return MissingPlan, shown; }
      if !MatchesPlan(parts[id], fill, p, |plan|) { return MissingPlan, shown; }
      if parts[id].complete || Terminal(parts[id].outcome) { return AlreadyComplete, shown; }
      var isEntry := IsEntry(p.action);
      if isEntry && !PostBaseline(sources[source], fill, parts[id].firstObservedAt) {
        if !FollowsOwnedPosition(State(), source, fill, p) { return AtBaseline, shown; }
      }
      if !(isEntry && entryIsStale) {
        assert forall o :: o in parts && OfFill(o, source, fill.fillId) ==> o in plan;
        var lower := FindLowerBlocker(source, fill.fillId, p.sequenceIndex);
        if lower.Some? {
          LowerIsBlocker(State(), source, fill.fillId, p.sequenceIndex, lower.value);
          return Blocked, lower;
        }
        var prior := FindPriorBlocker(source, fill);
        if prior.Some? { return Blocked, prior; }
      }
      if parts[id].nextAttemptAt.Some? && parts[id].nextAttemptAt.value > now { return NotDue, shown; }
      parts := parts[id := parts[id].(outcome := Retryable, nextAttemptAt := Some(LeaseEnd(now, leaseSeconds)))];
      reason := Claimed;
    }

    method MarkRetryable(id: PartId, now: int, baseSeconds: int, maxSeconds: int) returns (delay: int)
      requires id in parts
      modifies this
      ensures State() == LiveCopyLedger.MarkRetryable(old(State()), id, now, baseSeconds, maxSeconds)
      ensures delay == RetryDelay(old(parts)[id].attemptCount + 1, baseSeconds, maxSeconds)
      ensures parts == old(parts)[id := old(parts)[id].(
                outcome := Retryable, attemptCount := old(parts)[id].attemptCount + 1,
                nextAttemptAt := Some(now + delay * 1_000_000), complete := false, orderId := None)]
    {
      var attempts := parts[id].attemptCount + 1;
      delay := RetryDelay(attempts, baseSeconds, maxSeconds);
      parts := parts[id := parts[id].(outcome := Retryable, attemptCount := attempts,
                                      nextAttemptAt := Some(now + delay * Second), complete := false, orderId := None)];
    }

    method MarkBaselineIgnored(id: PartId, p: Part, recordMarket: bool)
      requires id in parts
      modifies this
      ensures State() == LiveCopyLedger.MarkBaselineIgnored(old(State()), id, p, recordMarket)
      ensures parts == old(parts)[id := old(parts)[id].(
                outcome := BaselineIgnored, nextAttemptAt := None, complete := false, orderId := None)]
      ensures sources.Keys == old(sources).Keys
      ensures forall s :: s in sources && !(recordMarket && s == id.source) ==> sources[s] == old(sources)[s]
      ensures recordMarket && id.source in sources ==>
                var coin := parts[id].columns.coin;
                && sources[id.source] == old(sources)[id.source].(markets := sources[id.source].markets)
                && sources[id.source].markets == UpdateForPart(old(sources)[id.source].markets, coin, p, id.fillId,
                                                               parts[id].columns.timestampMs)
    {
      var row := parts[id];
      if recordMarket && id.source in sources {
        var s := sources[id.source];
        var markets := UpdateForPart(s.markets, row.columns.coin, p, id.fillId, row.columns.timestampMs);
        sources := sources[id.source := s.(markets := markets)];
      }
      parts := parts[id := row.(outcome := BaselineIgnored, nextAttemptAt := None, complete := false, orderId := None)];
    }

    method MarkTerminalSkip(id: PartId)
      requires id in parts
      modifies this
      ensures State() == LiveCopyLedger.MarkTerminalSkip(old(State()), id)
      ensures parts == old(parts)[id := old(parts)[id].(
                outcome := TerminalSkip, nextAttemptAt := None, complete := false, orderId := None)]
    {
      parts := parts[id := parts[id].(outcome := TerminalSkip, nextAttemptAt := None,
                                      complete := false, orderId := None)];
    }

    /** Refuses an order of another part. */
    method LinkOrder(id: PartId, order: nat, terminalSkip: bool) returns (ok: bool)
      requires id in parts
      modifies this
      ensures match LiveCopyLedger.LinkOrder(old(State()), id, order, terminalSkip)
              case Some(l) => ok && State() == l
              case None => !ok && State() == old(State())
      ensures ok <==> order in orders && orders[order].part == id
      ensures ok ==> parts == old(parts)[id := old(parts)[id].(
                outcome := if terminalSkip then TerminalSkip else OrderPlaced,
                nextAttemptAt := None, complete := false, orderId := Some(order))]
    {
      if order !in orders || orders[order].part.source != id.source
         || orders[order].part.fillId != id.fillId || orders[order].part.sequence != id.sequence {
        return false;
      }
      parts := parts[id := parts[id].(outcome := if terminalSkip then TerminalSkip else OrderPlaced,
                                      nextAttemptAt := None, complete := false, orderId := Some(order))];
      ok := true;
    }

    method CompleteIfDurable(source: string, fillId: FillId, planned: seq<Part>) returns (r: Result<bool, PlanError>)
      modifies this
      ensures match LiveCopyLedger.CompleteIfDurable(old(State()), source, fillId, planned)
              case Err(e) => r == Err(e) && State() == old(State())
              case Ok(l) => State() == l && r == Ok(CanComplete(old(State()), source, fillId, Normalize(planned).value))
    {
      hide Collect, Normalize, Contiguous;
      var normal := NormalizePlan(planned);
      if normal.Err? { return Err(normal.error); }
      var n := |normal.value|;
      if FillParts(State(), source, fillId) != PlanIds(source, fillId, n) { return Ok(false); }
      for k := 0 to n
        invariant State() == old(State())
        invariant forall id :: id in PlanIds(source, fillId, k) ==>
                    && id in parts && Terminal(parts[id].outcome)
                    && parts[id].expectedCount == n && parts[id].planVersion == PlanVersion
      {
        var id := PartId(source, fillId, k);
        assert id in PlanIds(source, fillId, n);
        if !Terminal(parts[id].outcome) || parts[id].expectedCount != n || parts[id].planVersion != PlanVersion {
          return Ok(false);
        }
      }
      for k := 0 to n
        invariant sources == old(sources) && orders == old(orders) && positions == old(positions)
        invariant parts == map id | id in old(parts) ::
                    if id in PlanIds(source, fillId, k) then old(parts)[id].(complete := true, nextAttemptAt := None)
                    else old(parts)[id]
      {
        var id := PartId(source, fillId, k);
        assert id in PlanIds(source, fillId, n);
        parts := parts[id := parts[id].(complete := true, nextAttemptAt := None)];
      }
      assert forall id :: id in old(parts) ==>
               (OfFill(id, source, fillId) <==> id in FillParts(old(State()), source, fillId));
      r := Ok(true);
    }

    /** The newest imported fill time and the ids that share it. */
    method CaptureBaseline(history: seq<HistoryFill>) returns (ms: Option<int>, ids: set<FillId>)
      ensures ms == NewestMs(history) && ids == IdsAt(history, ms)
    {
      ms := None;
      for k := 0 to |history|
        invariant ms == NewestMs(history[..k])
      {
        assert history[..k + 1][..k] == history[..k];
        ms := if ms.None? then Some(history[k].timestampMs) else Some(MaxInt(ms.value, history[k].timestampMs));
      }
      assert history[..|history|] == history;
      ids := set h | h in history && ms == Some(h.timestampMs) :: h.fillId;
    }

    /** Decides a set of rows as ignored at the baseline. */
    method CloseAll(ids: set<PartId>, complete: bool)
      requires ids <= parts.Keys
      modifies this
      ensures State() == old(State()).(parts := WithClosed(old(parts), ids, complete))
    {
      var todo := ids;
      while todo != {}
        invariant todo <= ids && sources == old(sources) && orders == old(orders) && positions == old(positions)
        invariant parts == WithClosed(old(parts), ids - todo, complete)
      {
        var id :| id in todo;
        parts := parts[id := parts[id].(outcome := BaselineIgnored, nextAttemptAt := None,
                                        complete := complete, orderId := None)];
        todo := todo - {id};
      }
      assert ids - todo == ids;
    }

    /** Marks a fill complete if all of its parts are decided. */
    method CompleteDecided(source: string, fillId: FillId)
      modifies this
      ensures State() == old(State()).(parts := WithFillComplete(old(parts), source, fillId))
    {
      var rows := FillParts(State(), source, fillId);
      assert forall id :: id in rows <==> id in parts && OfFill(id, source, fillId);
      if forall id :: id in rows ==> Terminal(parts[id].outcome) {
        var todo := rows;
        while todo != {}
          invariant todo <= rows && sources == old(sources) && orders == old(orders) && positions == old(positions)
          invariant parts == map id | id in old(parts) ::
                      if id in rows - todo then old(parts)[id].(complete := true) else old(parts)[id]
        {
          var id :| id in todo;
          parts := parts[id := parts[id].(complete := true)];
          todo := todo - {id};
        }
      }
      assert parts == WithFillComplete(old(parts), source, fillId);
    }

    /** Gives a source a fresh baseline and closes the unfinished entries it covers. */
    method Activate(source: string, activatedAt: int, entryEligible: bool, history: seq<HistoryFill>)
      modifies this
      ensures State() == LiveCopyLedger.Activate(old(State()), source, activatedAt, entryEligible, history)
    {
      hide NewestMs, IdsAt, ClosedByBaseline, FinishedByBaseline, WithClosed, WithFillComplete, WithFinished;
      ghost var l := State();
      var ms, ids := CaptureBaseline(history);
      sources := sources[source := SourceState(true, entryEligible, activatedAt, ms, ids, map[])];
      SameBaseline(l, State(), source, ms, ids);
      var entries := set id | id in parts && ClosedByBaseline(State(), id, source, ms, ids);
      var affected := set id | id in entries :: id.fillId;
      CloseAll(entries, false);
      ghost var closed := parts;
      ClosedIsUnfinished(l, source, ms, ids, closed, entries, affected);
      while affected != {}
        invariant State() == l.(sources := sources, parts := WithFinished(l, closed, source, ms, ids, affected))
        invariant sources == l.sources[source := SourceState(true, entryEligible, activatedAt, ms, ids, map[])]
        invariant affected <= set id | id in entries :: id.fillId
      {
        var fillId :| fillId in affected;
        FinishOneMore(l, source, ms, ids, closed, entries, affected, fillId);
        CompleteDecided(source, fillId);
        affected := affected - {fillId};
      }
      AllFinished(l, source, ms, ids, closed, entries);
    }

    /** One source of the activity sweep: no more entries, and inactive once flat. */
    method SweepSource(source: string, isProtected: bool) returns (deactivated: bool)
      modifies this
      ensures State() == LiveCopyLedger.SweepSource(old(State()), source, isProtected)
      ensures deactivated <==> source in old(sources) && old(sources)[source].active && !sources[source].active
    {
      if source !in sources || !sources[source].active || isProtected { return false; }
      ghost var l := State();
      sources := sources[source := sources[source].(entryEligible := false)];
      if OwnsPosition(State(), source) || HasActiveOrder(State(), source) { return false; }
      sources := sources[source := sources[source].(active := false, markets := map[])];
      var rows := set id | id in parts && ClosedByDeactivation(State(), id, source);
      CloseAll(rows, true);
      assert l.sources[source := sources[source]] == sources;
      assert parts == LiveCopyLedger.SweepSource(l, source, isProtected).parts;
      deactivated := true;
    }
  }

  // -------------------------------------------------------- bulk row updates

  function WithClosed(parts: map<PartId, PartRow>, ids: set<PartId>, complete: bool): map<PartId, PartRow> {
    map id | id in parts ::
      if id in ids then Decide(parts[id], BaselineIgnored, None).(complete := complete) else parts[id]
  }

  function WithFillComplete(parts: map<PartId, PartRow>, source: string, fillId: FillId): map<PartId, PartRow> {
    if forall o :: o in parts && OfFill(o, source, fillId) ==> Terminal(parts[o].outcome)
    then map id | id in parts :: if OfFill(id, source, fillId) then parts[id].(complete := true) else parts[id]
    else parts
  }

  /** The closed rows, with every fill finished by the baseline marked complete but those still to visit. */
  ghost function WithFinished(
    l: Ledger, closed: map<PartId, PartRow>, source: string, ms: Option<int>, ids: set<FillId>, todo: set<FillId>):
    map<PartId, PartRow>
  {
    map id | id in closed ::
      if id.source == source && id.fillId !in todo && FinishedByBaseline(l, source, id.fillId, ms, ids)
      then closed[id].(complete := true) else closed[id]
  }

  ghost predicate ClosedAtBaseline(
    l: Ledger, source: string, ms: Option<int>, ids: set<FillId>, closed: map<PartId, PartRow>, entries: set<PartId>)
  {
    && closed == WithClosed(l.parts, entries, false)
    && (forall id :: id in entries <==> ClosedByBaseline(l, id, source, ms, ids))
  }

  lemma ClosedIsUnfinished(
    l: Ledger, source: string, ms: Option<int>, ids: set<FillId>,
    closed: map<PartId, PartRow>, entries: set<PartId>, affected: set<FillId>)
    requires ClosedAtBaseline(l, source, ms, ids, closed, entries)
    requires affected == set id | id in entries :: id.fillId
    ensures WithFinished(l, closed, source, ms, ids, affected) == closed
  {
    hide ClosedByBaseline;
  }

  /** After the closing, the parts of an affected fill are all decided exactly when the baseline finishes it. */
  lemma AffectedFillFinishes(
    l: Ledger, source: string, ms: Option<int>, ids: set<FillId>,
    closed: map<PartId, PartRow>, entries: set<PartId>, now: map<PartId, PartRow>, fillId: FillId)
    requires ClosedAtBaseline(l, source, ms, ids, closed, entries)
    requires now.Keys == closed.Keys && forall o :: o in now ==> now[o].outcome == closed[o].outcome
    requires exists e :: e in entries && e.fillId == fillId
    ensures FinishedByBaseline(l, source, fillId, ms, ids)
            <==> forall o :: o in now && OfFill(o, source, fillId) ==> Terminal(now[o].outcome)
  {
    var e :| e in entries && e.fillId == fillId;
    assert ClosedByBaseline(l, e, source, ms, ids);
    assert e in l.parts && OfFill(e, source, fillId);
    hide ClosedByBaseline;
    forall o | o in l.parts
      ensures Terminal(now[o].outcome) <==> Terminal(l.parts[o].outcome) || ClosedByBaseline(l, o, source, ms, ids)
    {
      assert o in entries <==> ClosedByBaseline(l, o, source, ms, ids);
    }
  }

  lemma FinishOneMore(
    l: Ledger, source: string, ms: Option<int>, ids: set<FillId>,
    closed: map<PartId, PartRow>, entries: set<PartId>, todo: set<FillId>, fillId: FillId)
    requires ClosedAtBaseline(l, source, ms, ids, closed, entries)
    requires fillId in todo && todo <= set id | id in entries :: id.fillId
    ensures WithFillComplete(WithFinished(l, closed, source, ms, ids, todo), source, fillId)
            == WithFinished(l, closed, source, ms, ids, todo - {fillId})
  {
    hide FinishedByBaseline, ClosedAtBaseline, Terminal, WithFillComplete;
    assert exists e :: e in entries && e.fillId == fillId;
    AffectedFillFinishes(l, source, ms, ids, closed, entries, WithFinished(l, closed, source, ms, ids, todo), fillId);
    VisitedFill(l, source, ms, ids, closed, todo, fillId);
  }

  lemma VisitedFill(
    l: Ledger, source: string, ms: Option<int>, ids: set<FillId>,
    closed: map<PartId, PartRow>, todo: set<FillId>, fillId: FillId)
    requires fillId in todo
    requires var now := WithFinished(l, closed, source, ms, ids, todo);
             FinishedByBaseline(l, source, fillId, ms, ids)
             <==> forall o :: o in now && OfFill(o, source, fillId) ==> Terminal(now[o].outcome)
    ensures WithFillComplete(WithFinished(l, closed, source, ms, ids, todo), source, fillId)
            == WithFinished(l, closed, source, ms, ids, todo - {fillId})
  {
    hide FinishedByBaseline, Terminal;
    var now := WithFinished(l, closed, source, ms, ids, todo);
    var next := WithFinished(l, closed, source, ms, ids, todo - {fillId});
    var result := WithFillComplete(now, source, fillId);
    assert result.Keys == next.Keys;
    forall id | id in closed
      ensures result[id] == next[id]
    {
    }
  }

  lemma AllFinished(
    l: Ledger, source: string, ms: Option<int>, ids: set<FillId>, closed: map<PartId, PartRow>, entries: set<PartId>)
    requires ClosedAtBaseline(l, source, ms, ids, closed, entries)
    ensures WithFinished(l, closed, source, ms, ids, {})
            == map id | id in l.parts :: AfterBaseline(l, id, source, ms, ids)
  {
    hide ClosedByBaseline, FinishedByBaseline;
  }

  /** The baseline tests do not read the source row that the activation has rewritten. */
  lemma SameBaseline(l: Ledger, l': Ledger, source: string, ms: Option<int>, ids: set<FillId>)
    requires l'.parts == l.parts
    ensures forall id :: ClosedByBaseline(l', id, source, ms, ids) <==> ClosedByBaseline(l, id, source, ms, ids)
    ensures forall id :: ClosedByBaseline(l, id, source, ms, ids) ==> id in l.parts
  {
  }

  lemma LowerIsBlocker(l: Ledger, source: string, fillId: FillId, sequence: int, b: PartId)
    requires IsFirstLower(l, source, fillId, sequence, b)
    ensures b in l.parts && LowerBlocks(l, b, source, fillId, sequence)
  {
  }

  /** A row before the least one seen so far is before all of them. */
  lemma KeepsLeast(l: Ledger, seen: set<PartId>, b: Option<PartId>, o: PartId)
    requires o in l.parts && seen <= l.parts.Keys
    requires b.None? ==> seen == {}
    requires b.Some? ==> b.value in l.parts && BlockerBefore(l, o, b.value)
                         && forall x :: x in seen ==> !BlockerBefore(l, x, b.value)
    ensures forall x :: x in seen ==> !BlockerBefore(l, x, o)
  {
    hide BlockerBefore;
    forall x | x in seen
      ensures !BlockerBefore(l, x, o)
    {
      if BlockerBefore(l, x, o) { BlockerBeforeIsTransitive(l, x, o, b.value); }
    }
  }
}
