/** What plans, completions, restarts and deactivations do to the rows they meet, and to no others. */
module LiveCopyEffects {
  import opened Numbers
  import opened Options
  import opened SourceFillOrdering
  import opened SourceFillPlanning
  import opened LiveCopyLedger
  import opened LiveCopyProtocol
  import opened LiveCopyRuns

  // ------------------------------------------------------------------- plans

  /** A row carries one part of a fill's plan. */
  predicate Carries(r: PartRow, fill: OrderedFill, p: Part, count: int) {
    && r.expectedCount == count && r.planVersion == 1 && r.action == p.action && r.side == p.side
    && r.columns.timestampMs == fill.timestampMs && r.columns.coin == fill.coin
    && r.columns.directionRank == FillOrderKey(fill).directionRank && r.columns.position == FillOrderKey(fill).position
    && r.columns.numericId == NumericId(fill.fillId)
  }

  /** Nothing has happened to the part yet. */
  predicate Untouched(r: PartRow) {
    r.outcome == Pending && r.attemptCount == 0 && r.nextAttemptAt.None? && !r.complete && r.orderId.None?
  }

  /** The persisted parts of the fill are parts of the plan. */
  predicate Agrees(l: Ledger, source: string, fill: OrderedFill, planned: seq<Part>) {
    forall id :: id in l.parts && id.source == source && id.fillId == fill.fillId ==>
      exists p :: p in planned && p.sequenceIndex == id.sequence && Carries(l.parts[id], fill, p, |planned|)
  }

  lemma AgreementExactly(l: Ledger, source: string, fill: OrderedFill, planned: seq<Part>)
    requires Contiguous(planned)
    ensures Normalize(planned).Ok?
    ensures Agrees(l, source, fill, planned)
            <==> && !HasUnexpected(l, source, fill.fillId, |planned|)
                 && !HasDivergent(l, source, fill, Normalize(planned).value)
  {
    hide Normalize, NumericId;
    NormalizeAdmitsContiguous(planned);
    var parts := Normalize(planned).value;
    if Agrees(l, source, fill, planned) {
      forall id | id in l.parts && OfFill(id, source, fill.fillId)
        ensures 0 <= id.sequence < |planned| && MatchesPlan(l.parts[id], fill, parts[id.sequence], |planned|)
      {
        var p :| p in planned && p.sequenceIndex == id.sequence && Carries(l.parts[id], fill, p, |planned|);
        assert p in parts;
        var k :| 0 <= k < |parts| && parts[k] == p;
      }
    }
    if !HasUnexpected(l, source, fill.fillId, |planned|) && !HasDivergent(l, source, fill, parts) {
      forall id | id in l.parts && id.source == source && id.fillId == fill.fillId
        ensures exists p :: p in planned && p.sequenceIndex == id.sequence && Carries(l.parts[id], fill, p, |planned|)
      {
        assert OfFill(id, source, fill.fillId);
        var p := parts[id.sequence];
        assert MatchesPlan(l.parts[id], fill, p, |parts|);
        assert p in planned;
      }
    }
  }

  /** A plan is accepted exactly when its indexes are contiguous, its fill has an id, and every
      persisted part of the fill is the plan's own. */
  lemma PlanAcceptedExactly(l: Ledger, source: string, fill: OrderedFill, planned: seq<Part>, first: Option<int>)
    ensures EnsurePlan(l, source, fill, planned, first).Ok?
            <==> Contiguous(planned) && fill.fillId != "" && Agrees(l, source, fill, planned)
  {
    hide Normalize, HasUnexpected, HasDivergent, Agrees, Contiguous, MissingParts;
    NormalizeAdmitsContiguous(planned);
    if Contiguous(planned) { AgreementExactly(l, source, fill, planned); }
  }

  /** An accepted plan leaves every row it finds alone, adds each missing part of it untouched,
      and adds nothing else. */
  lemma PlanAddsItsParts(l: Ledger, source: string, fill: OrderedFill, planned: seq<Part>, first: Option<int>)
    requires EnsurePlan(l, source, fill, planned, first).Ok?
    ensures var l' := EnsurePlan(l, source, fill, planned, first).value;
            && l' == l.(parts := l'.parts)
            && (forall id :: id in l.parts ==> id in l'.parts && l'.parts[id] == l.parts[id])
            && (forall p :: p in planned ==>
                  var id := PartId(source, fill.fillId, p.sequenceIndex);
                  && id in l'.parts && Carries(l'.parts[id], fill, p, |planned|)
                  && (id !in l.parts ==> Untouched(l'.parts[id]) && l'.parts[id].firstObservedAt == first))
            && (forall id :: id in l'.parts && id !in l.parts ==>
                  exists p :: p in planned && id == PartId(source, fill.fillId, p.sequenceIndex))
  {
    hide Normalize, NumericId;
    NormalizeAdmitsContiguous(planned);
    PlanAcceptedExactly(l, source, fill, planned, first);
    var parts := Normalize(planned).value;
    var l' := EnsurePlan(l, source, fill, planned, first).value;
    forall p | p in planned
      ensures var id := PartId(source, fill.fillId, p.sequenceIndex);
              && id in l'.parts && Carries(l'.parts[id], fill, p, |planned|)
              && (id !in l.parts ==> Untouched(l'.parts[id]) && l'.parts[id].firstObservedAt == first)
    {
      var id := PartId(source, fill.fillId, p.sequenceIndex);
      assert p in parts;
      var k :| 0 <= k < |parts| && parts[k] == p;
      assert id in PlanIds(source, fill.fillId, |parts|);
      if id in l.parts { assert OfFill(id, source, fill.fillId) && MatchesPlan(l.parts[id], fill, parts[k], |parts|); }
    }
    forall id | id in l'.parts && id !in l.parts
      ensures exists p :: p in planned && id == PartId(source, fill.fillId, p.sequenceIndex)
    {
      assert parts[id.sequence] in planned;
    }
  }

  /** Bringing an accepted plan again changes nothing. */
  lemma PlanAgainChangesNothing(
    l: Ledger, source: string, fill: OrderedFill, planned: seq<Part>, first: Option<int>, again: Option<int>)
    requires EnsurePlan(l, source, fill, planned, first).Ok?
    ensures var l' := EnsurePlan(l, source, fill, planned, first).value;
            EnsurePlan(l', source, fill, planned, again) == Ok(l')
  {
    hide EnsurePlan, Carries, Contiguous, Untouched;
    var l' := EnsurePlan(l, source, fill, planned, first).value;
    PlanAcceptedExactly(l, source, fill, planned, first);
    PlanAddsItsParts(l, source, fill, planned, first);
    forall id | id in l'.parts && id.source == source && id.fillId == fill.fillId
      ensures exists p :: p in planned && p.sequenceIndex == id.sequence && Carries(l'.parts[id], fill, p, |planned|)
    {
      if id in l.parts {
        var p :| p in planned && p.sequenceIndex == id.sequence && Carries(l.parts[id], fill, p, |planned|);
      } else {
        var p :| p in planned && id == PartId(source, fill.fillId, p.sequenceIndex);
      }
    }
    PlanAcceptedExactly(l', source, fill, planned, again);
    PlanAddsItsParts(l', source, fill, planned, again);
    var l'' := EnsurePlan(l', source, fill, planned, again).value;
    assert l''.parts == l'.parts;
  }

  // -------------------------------------------------------------- completion

  /** The fill is persisted with this many parts, and all of them are decided. */
  predicate Durable(l: Ledger, source: string, fillId: FillId, count: int) {
    && (exists id :: id in l.parts && id.source == source && id.fillId == fillId && l.parts[id].expectedCount == count)
    && (forall id :: id in l.parts && id.source == source && id.fillId == fillId ==>
          l.parts[id].outcome in {OrderPlaced, TerminalSkip, BaselineIgnored})
  }

  lemma DurableExactly(l: Ledger, source: string, fillId: FillId, parts: seq<Part>)
    requires Whole(l) && CompleteIsTerminal(l) && parts != []
    ensures CanComplete(l, source, fillId, parts) <==> Durable(l, source, fillId, |parts|)
  {
    hide Whole, WholeFill;
    assert PartId(source, fillId, 0) in PlanIds(source, fillId, |parts|);
    if id :| id in l.parts && OfFill(id, source, fillId) {
      assert id in FillParts(l, source, fillId);
      WholeFillsAreExact(l, id);
      WholeFillIsPlanned(l, id);
      PlanIdsCount(source, fillId, |parts|);
    }
  }

  /** A fill is marked complete exactly when the whole plan is persisted and every part of it
      decided; completing it changes its parts' flag and schedule, and no other row. */
  lemma CompletesExactly(l: Ledger, source: string, fillId: FillId, planned: seq<Part>)
    requires Whole(l) && CompleteIsTerminal(l)
    ensures CompleteIfDurable(l, source, fillId, planned).Ok? <==> Contiguous(planned)
    ensures Contiguous(planned) ==>
              var l' := CompleteIfDurable(l, source, fillId, planned).value;
              && l' == l.(parts := l'.parts) && l'.parts.Keys == l.parts.Keys
              && var durable := Durable(l, source, fillId, |planned|);
                 forall id :: id in l.parts ==>
                   l'.parts[id] == if durable && id.source == source && id.fillId == fillId
                                   then l.parts[id].(complete := true, nextAttemptAt := None) else l.parts[id]
  {
    hide Normalize, CanComplete, Durable, Contiguous, Whole;
    NormalizeAdmitsContiguous(planned);
    if Contiguous(planned) { DurableExactly(l, source, fillId, Normalize(planned).value); }
  }

  // ----------------------------------------------------------------- restart

  /** The imported history goes past the row's fill, or ends with it. */
  predicate Covered(history: seq<HistoryFill>, id: PartId, r: PartRow) {
    || (exists h :: h in history && h.timestampMs > r.columns.timestampMs)
    || (HistoryFill(id.fillId, r.columns.timestampMs) in history
        && forall h :: h in history ==> h.timestampMs <= r.columns.timestampMs)
  }

  /** An undecided entry that the restart leaves behind. */
  predicate LeftBehind(l: Ledger, source: string, history: seq<HistoryFill>, id: PartId) {
    && id in l.parts && id.source == source && l.parts[id].action in {Open, Add, FlipOpen}
    && l.parts[id].outcome in {Pending, Retryable} && Covered(history, id, l.parts[id])
  }

  lemma {:induction false} NewestIsMax(history: seq<HistoryFill>)
    ensures NewestMs(history).None? <==> history == []
    ensures NewestMs(history).Some? ==>
              && (forall h :: h in history ==> h.timestampMs <= NewestMs(history).value)
              && (exists h :: h in history && h.timestampMs == NewestMs(history).value)
  {
    if history != [] {
      var n := |history| - 1;
      NewestIsMax(history[..n]);
      assert history == history[..n] + [history[n]];
      assert history[n] in history;
    }
  }

  lemma CoveredExactly(history: seq<HistoryFill>, id: PartId, r: PartRow)
    ensures var ms := NewestMs(history);
            (ms.Some? && AtOrBeforeBaseline(r, id, ms.value, IdsAt(history, ms))) <==> Covered(history, id, r)
  {
    hide NewestMs;
    NewestIsMax(history);
    if HistoryFill(id.fillId, r.columns.timestampMs) in history {
      assert HistoryFill(id.fillId, r.columns.timestampMs).fillId == id.fillId;
    }
  }

  /** The fill loses an entry to the restart, and all that is left of it is decided. */
  predicate LeavesDecided(l: Ledger, source: string, history: seq<HistoryFill>, fillId: FillId) {
    && (exists o :: o in l.parts && o.fillId == fillId && LeftBehind(l, source, history, o))
    && (forall o :: o in l.parts && o.source == source && o.fillId == fillId ==>
          LeftBehind(l, source, history, o) || l.parts[o].outcome in {OrderPlaced, TerminalSkip, BaselineIgnored})
  }

  function AfterRestart(l: Ledger, source: string, history: seq<HistoryFill>, id: PartId): PartRow
    requires id in l.parts
  {
    var done := id.source == source && LeavesDecided(l, source, history, id.fillId);
    if LeftBehind(l, source, history, id)
    then l.parts[id].(outcome := BaselineIgnored, nextAttemptAt := None, orderId := None, complete := done)
    else l.parts[id].(complete := l.parts[id].complete || done)
  }

  lemma LeftBehindExactly(l: Ledger, source: string, history: seq<HistoryFill>, id: PartId)
    ensures ClosedByBaseline(l, id, source, NewestMs(history), IdsAt(history, NewestMs(history)))
            <==> LeftBehind(l, source, history, id)
  {
    hide NewestMs, IdsAt, AtOrBeforeBaseline, Covered;
    if id in l.parts { CoveredExactly(history, id, l.parts[id]); }
  }

  lemma LeavesDecidedExactly(l: Ledger, source: string, history: seq<HistoryFill>, fillId: FillId)
    ensures FinishedByBaseline(l, source, fillId, NewestMs(history), IdsAt(history, NewestMs(history)))
            <==> LeavesDecided(l, source, history, fillId)
  {
    var ms, ids := NewestMs(history), IdsAt(history, NewestMs(history));
    forall o
      ensures ClosedByBaseline(l, o, source, ms, ids) <==> LeftBehind(l, source, history, o)
    {
      LeftBehindExactly(l, source, history, o);
    }
    assert forall o :: LeftBehind(l, source, history, o) ==> o in l.parts && o.source == source;
    hide ClosedByBaseline, LeftBehind, NewestMs, IdsAt;
  }

  /** A restart decides exactly the undecided entries its history covers, completes exactly the
      fills that leaves decided, and changes no exit, no newer entry and no other source. */
  lemma RestartExactly(l: Ledger, source: string, at: int, eligible: bool, history: seq<HistoryFill>)
    ensures var l' := Activate(l, source, at, eligible, history);
            && l' == l.(parts := l'.parts, sources := l'.sources) && l'.parts.Keys == l.parts.Keys
            && (forall id :: id in l.parts ==> l'.parts[id] == AfterRestart(l, source, history, id))
            && source in l'.sources && l'.sources == l.sources[source := l'.sources[source]]
            && var s := l'.sources[source];
               && s.active && s.entryEligible == eligible && s.activatedAt == at && s.markets == map[]
               && (s.baselineMs.None? <==> history == [])
               && (s.baselineMs.Some? ==> forall h :: h in history ==> h.timestampMs <= s.baselineMs.value)
               && s.baselineIds == set h | h in history && s.baselineMs == Some(h.timestampMs) :: h.fillId
  {
    NewestIsMax(history);
    forall id | id in l.parts
      ensures Activate(l, source, at, eligible, history).parts[id] == AfterRestart(l, source, history, id)
    {
      LeftBehindExactly(l, source, history, id);
      LeavesDecidedExactly(l, source, history, id.fillId);
      hide ClosedByBaseline, FinishedByBaseline, LeftBehind, LeavesDecided, NewestMs, IdsAt;
    }
    hide ClosedByBaseline, FinishedByBaseline, LeftBehind, LeavesDecided, NewestMs;
  }

  // ------------------------------------------------------------ deactivation

  /** The source holds no copied position and has no order in flight. */
  predicate Flat(l: Ledger, source: string) {
    && (forall o :: o in l.positions && o.source == source ==> o.size <= 0.000000000001)
    && (forall o :: o in l.orders && l.orders[o].part.source == source ==> l.orders[o].resolved)
  }

  lemma FlatExactly(l: Ledger, source: string)
    ensures Flat(l, source) <==> !OwnsPosition(l, source) && !HasActiveOrder(l, source)
  {
    if o :| o in l.positions && o.source == source && o.size > 0.000000000001 {
      var i :| 0 <= i < |l.positions| && l.positions[i] == o;
    }
  }

  /** The sweep stops the entries of an active, unprotected source, and deactivates it exactly
      when it is flat: then every undecided part of it is decided and complete. Nothing of
      another source and nothing decided changes. */
  lemma SweepExactly(l: Ledger, source: string, isProtected: bool)
    requires CompleteIsTerminal(l)
    ensures var l' := SweepSource(l, source, isProtected);
            var swept := source in l.sources && l.sources[source].active && !isProtected;
            && l' == l.(parts := l'.parts, sources := l'.sources) && l'.parts.Keys == l.parts.Keys
            && (!swept ==> l' == l)
            && (swept ==>
                  && l'.sources == l.sources[source := l'.sources[source]]
                  && var s := l.sources[source].(entryEligible := false);
                     l'.sources[source] == if Flat(l, source) then s.(active := false, markets := map[]) else s)
            && forall id :: id in l.parts ==>
                 l'.parts[id] ==
                 if swept && Flat(l, source) && id.source == source && l.parts[id].outcome in {Pending, Retryable}
                 then l.parts[id].(outcome := BaselineIgnored, nextAttemptAt := None, orderId := None, complete := true)
                 else l.parts[id]
  {
    FlatExactly(l, source);
    hide Flat, OwnsPosition, HasActiveOrder;
    assert forall id :: id in l.parts ==> OfFill(id, id.source, id.fillId);
  }
}
