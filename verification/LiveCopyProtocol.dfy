/** Runs of the live-copy lifecycle: the lease discipline of its workers, what every step
    keeps, and the order in which a market lane is decided. */
module LiveCopyProtocol {
  import opened Options
  import opened SourceFillOrdering
  import opened SourceFillPlanning
  import opened LiveCopyLedger

  /** Who holds a part and until when. `behind` records the lane-earlier parts that were
      planned when a claim passed the barrier; a stale entry's claim bypasses it. */
  datatype Lease = Lease(worker: nat, stale: bool, until: int, behind: set<PartId>)

  /** The ledger, the leases its workers hold, and the parts decided under a barrier-checked lease. */
  datatype World = World(ledger: Ledger, leases: map<PartId, Lease>, decided: seq<PartId>)

  datatype Step =
    | Plan(source: string, fill: OrderedFill, planned: seq<Part>, firstObservedAt: Option<int>)
    | Claim(worker: nat, source: string, fill: OrderedFill, part: Part, now: int, leaseSeconds: int, entryIsStale: bool)
    | Retry(worker: nat, id: PartId, now: int, baseSeconds: int, maxSeconds: int)
    | Skip(worker: nat, id: PartId)
    | Ignore(worker: nat, id: PartId, part: Part, recordMarket: bool)
    | Link(worker: nat, id: PartId, order: nat, terminalSkip: bool)
    | IgnoreAtBaseline(source: string, fill: OrderedFill, part: Part, recordMarket: bool, now: int, entryIsStale: bool)
    | Complete(source: string, fillId: FillId, planned: seq<Part>)
    | Restart(source: string, at: int, entryEligible: bool, history: seq<HistoryFill>)
    | Sweep(source: string, isProtected: bool)
    | NewOrder(order: nat, forPart: PartId)
    | ResolveOrder(order: nat)
    | MovePositions(positions: seq<Position>)

  predicate Holds(w: World, worker: nat, id: PartId) {
    id in w.leases && w.leases[id].worker == worker && id in w.ledger.parts
  }

  /** The discipline: a mark comes from the part's current lease holder, a stale entry is
      never linked to an order, and a baseline mark follows a claim that answered so. */
  predicate Legal(w: World, s: Step) {
    match s
    case Plan(_, fill, _, _) => fill.coin != ""
    case Claim(_, _, _, _, _, _, _) => true
    case Retry(worker, id, _, _, _) => Holds(w, worker, id)
    case Skip(worker, id) => Holds(w, worker, id)
    case Ignore(worker, id, _, _) => Holds(w, worker, id)
    case Link(worker, id, _, _) => Holds(w, worker, id) && !w.leases[id].stale
    case IgnoreAtBaseline(source, fill, part, _, now, stale) =>
      ClaimAnswer(w.ledger, source, fill, part, now, stale) == AtBaseline
    case NewOrder(order, _) => order !in w.ledger.orders
    case ResolveOrder(order) => order in w.ledger.orders
    case _ => true
  }

  /** a comes before b in their market lane: by fill order, then by part. */
  predicate LaneBefore(l: Ledger, a: PartId, b: PartId) {
    && SameLane(l, a, b)
    && (if a.fillId == b.fillId then a.sequence < b.sequence
        else KeyLess(KeyOf(l.parts[a].columns), KeyOf(l.parts[b].columns)))
  }

  predicate SameLane(l: Ledger, a: PartId, b: PartId) {
    a in l.parts && b in l.parts && a.source == b.source && l.parts[a].columns.coin == l.parts[b].columns.coin
  }

  function Behind(l: Ledger, id: PartId): set<PartId> { set o | o in l.parts && LaneBefore(l, o, id) }

  /** Releases the lease with a decision, and records it if the lease passed the barrier. */
  function Decided(w: World, id: PartId, ledger: Ledger): World {
    World(ledger, w.leases - {id},
          if id in w.leases && !w.leases[id].stale then w.decided + [id] else w.decided)
  }

  /** Leases on parts that a lifecycle step has made terminal are void. */
  function Revoked(w: World, ledger: Ledger): World {
    w.(ledger := ledger,
       leases := map id | id in w.leases && id in ledger.parts && !Terminal(ledger.parts[id].outcome) :: w.leases[id])
  }

  function Next(w: World, s: Step): World
    requires Legal(w, s)
  {
    var l := w.ledger;
    match s
    case Plan(source, fill, planned, first) =>
      (match EnsurePlan(l, source, fill, planned, first)
       case Ok(l') => w.(ledger := l')
       case Err(_) => w)
    case Claim(worker, source, fill, part, now, seconds, stale) =>
      if ClaimAnswer(l, source, fill, part, now, stale) != Claimed then w
      else
        var id := PartId(source, fill.fillId, part.sequenceIndex);
        var bypass := IsEntry(part.action) && stale;
        var until := LeaseEnd(now, seconds);
        w.(ledger := WithLease(l, id, until),
           leases := w.leases[id := Lease(worker, bypass, until, if bypass then {} else Behind(l, id))])
    case Retry(_, id, now, base, max) => w.(ledger := MarkRetryable(l, id, now, base, max), leases := w.leases - {id})
    case Skip(_, id) => Decided(w, id, MarkTerminalSkip(l, id))
    case Ignore(_, id, part, record) => Decided(w, id, MarkBaselineIgnored(l, id, part, record))
    case Link(_, id, order, terminalSkip) =>
      (match LinkOrder(l, id, order, terminalSkip)
       case Some(l') => Decided(w, id, l')
       case None => w)
    case IgnoreAtBaseline(source, fill, part, record, _, _) =>
      var id := PartId(source, fill.fillId, part.sequenceIndex);
      w.(ledger := MarkBaselineIgnored(l, id, part, record), leases := w.leases - {id})
    case Complete(source, fillId, planned) =>
      (match CompleteIfDurable(l, source, fillId, planned)
       case Ok(l') => Revoked(w, l')
       case Err(_) => w)
    case Restart(source, at, eligible, history) => Revoked(w, Activate(l, source, at, eligible, history))
    case Sweep(source, isProtected) => Revoked(w, SweepSource(l, source, isProtected))
    case NewOrder(order, forPart) => w.(ledger := l.(orders := l.orders[order := Order(forPart, false)]))
    case ResolveOrder(order) => w.(ledger := l.(orders := l.orders[order := l.orders[order].(resolved := true)]))
    case MovePositions(positions) => w.(ledger := l.(positions := positions))
  }

  predicate LegalRun(w: World, run: seq<Step>)
    decreases |run|
  {
    run == [] || (Legal(w, run[0]) && LegalRun(Next(w, run[0]), run[1..]))
  }

  function Run(w: World, run: seq<Step>): World
    requires LegalRun(w, run)
    decreases |run|
  {
    if run == [] then w else Run(Next(w, run[0]), run[1..])
  }

  function Fresh(): World { World(Ledger(map[], map[], map[], []), map[], []) }

  // -------------------------------------------------------------- invariants

  /** The fill of a part is planned in full: its sequences are exactly 0 to n-1, all with
      expected count n and the same order columns. */
  predicate WholeFill(l: Ledger, id: PartId)
    requires id in l.parts
  {
    var r := l.parts[id];
    && 0 <= id.sequence < r.expectedCount && r.planVersion == PlanVersion
    && r.columns.fillId == id.fillId && id.fillId != "" && r.columns.coin != "" && OfSomeFill(r.columns)
    && (forall k :: 0 <= k < r.expectedCount ==> Sibling(l, id, k))
  }

  predicate Sibling(l: Ledger, id: PartId, k: int)
    requires id in l.parts
  {
    var o := PartId(id.source, id.fillId, k);
    o in l.parts && l.parts[o].expectedCount == l.parts[id].expectedCount && l.parts[o].columns == l.parts[id].columns
  }

  predicate Whole(l: Ledger) { forall id :: id in l.parts ==> WholeFill(l, id) }

  /** A complete part only has terminal siblings. */
  predicate CompleteIsTerminal(l: Ledger) {
    forall a, b :: a in l.parts && b in l.parts && OfFill(b, a.source, a.fillId) && l.parts[a].complete ==>
                     Terminal(l.parts[b].outcome)
  }

  predicate OrdersKnown(l: Ledger) {
    forall id :: id in l.parts && l.parts[id].orderId.Some? ==> l.parts[id].orderId.value in l.orders
  }

  predicate LeaseIsLive(w: World, id: PartId)
    requires id in w.leases
  {
    && id in w.ledger.parts && w.ledger.parts[id].outcome == Retryable
    && w.ledger.parts[id].nextAttemptAt == Some(w.leases[id].until)
    && (forall b :: b in w.leases[id].behind ==> Settled(w.ledger, b))
  }

  predicate LeasesLive(w: World) { forall id :: id in w.leases ==> LeaseIsLive(w, id) }

  predicate Inv(w: World) {
    Whole(w.ledger) && CompleteIsTerminal(w.ledger) && OrdersKnown(w.ledger) && LeasesLive(w)
  }

  // ------------------------------------------------ what a claim has established

  /** A claim that is answered, or refused as baseline, concerns an undecided part of a whole plan. */
  lemma ClaimConcernsUndecided(l: Ledger, source: string, fill: OrderedFill, p: Part, now: int, stale: bool)
    requires ClaimAnswer(l, source, fill, p, now, stale) in {Claimed, AtBaseline}
    ensures var id := PartId(source, fill.fillId, p.sequenceIndex);
            id in l.parts && !l.parts[id].complete && !Terminal(l.parts[id].outcome)
  {
  }

  /** A claim through the barrier finds every lane-earlier part settled. */
  lemma ClaimClearsLane(l: Ledger, source: string, fill: OrderedFill, p: Part, now: int, stale: bool, o: PartId)
    requires Whole(l) && CompleteIsTerminal(l)
    requires ClaimAnswer(l, source, fill, p, now, stale) == Claimed && !(IsEntry(p.action) && stale)
    requires LaneBefore(l, o, PartId(source, fill.fillId, p.sequenceIndex))
    ensures Settled(l, o)
  {
    hide PlanIsWhole, PostBaseline, FollowsOwnedPosition, FillParts, BlockerEarlier, KeyLess, Sibling;
    var id := PartId(source, fill.fillId, p.sequenceIndex);
    assert WholeFill(l, id) && WholeFill(l, o);
    assert l.parts[id].columns == ColumnsOf(fill);
    if o.fillId == id.fillId {
      assert !LowerBlocks(l, o, source, fill.fillId, p.sequenceIndex);
    } else {
      BlockerOrder(l.parts[o].columns, ColumnsOf(fill));
      assert !HasPriorBlocker(l, source, fill);
      assert !PriorBlocks(l, o, source, fill);
      assert OfFill(o, o.source, o.fillId);
      assert !l.parts[o].outcome.Pending? && !l.parts[o].outcome.Retryable?;
    }
  }

  // -------------------------------------------------------- plans stay whole

  /** The plans are the same: only decisions, leases and completion may differ. */
  predicate SamePlans(l: Ledger, l': Ledger) {
    && l'.parts.Keys == l.parts.Keys
    && (forall id :: id in l.parts ==>
          && l'.parts[id].expectedCount == l.parts[id].expectedCount
          && l'.parts[id].planVersion == l.parts[id].planVersion
          && l'.parts[id].columns == l.parts[id].columns)
  }

  lemma SamePlansKeepWhole(l: Ledger, l': Ledger)
    requires Whole(l) && SamePlans(l, l')
    ensures Whole(l')
  {
    forall id | id in l'.parts
      ensures WholeFill(l', id)
    {
      assert WholeFill(l, id);
      forall k | 0 <= k < l'.parts[id].expectedCount
        ensures Sibling(l', id, k)
      {
        assert Sibling(l, id, k);
      }
    }
  }

  /** A plan that agrees with a persisted part of its fill adds nothing. */
  lemma KnownFillMissesNothing(
    l: Ledger, source: string, fill: OrderedFill, parts: seq<Part>, first: Option<int>, o: PartId)
    requires Whole(l) && o in l.parts && OfFill(o, source, fill.fillId)
    requires !HasUnexpected(l, source, fill.fillId, |parts|) && !HasDivergent(l, source, fill, parts)
    ensures MissingParts(l, source, fill, parts, first) == map[]
  {
    hide ColumnsOf, NewPart;
    assert WholeFill(l, o);
    assert MatchesPlan(l.parts[o], fill, parts[o.sequence], |parts|);
    forall id | id in PlanIds(source, fill.fillId, |parts|)
      ensures id in l.parts
    {
      assert Sibling(l, o, id.sequence);
    }
  }

  /** An accepted plan leaves the ledger as it was, or adds a whole new fill. */
  lemma EnsuredPlanIsOldOrNew(l: Ledger, source: string, fill: OrderedFill, planned: seq<Part>, first: Option<int>)
    requires Whole(l) && EnsurePlan(l, source, fill, planned, first).Ok?
    ensures var l' := EnsurePlan(l, source, fill, planned, first).value;
            if exists o :: o in l.parts && OfFill(o, source, fill.fillId) then l' == l
            else
              && Contiguous(planned) && fill.fillId != ""
              && l' == l.(parts := l.parts + MissingParts(l, source, fill, Normalize(planned).value, first))
  {
    hide ColumnsOf, NewPart, Collect, Normalize, MissingParts, MatchesPlan, Contiguous;
    NormalizeAdmitsContiguous(planned);
    var parts := Normalize(planned).value;
    if o :| o in l.parts && OfFill(o, source, fill.fillId) {
      KnownFillMissesNothing(l, source, fill, parts, first, o);
      assert l.parts + map[] == l.parts;
    }
  }

  lemma NewPlanIsWhole(l: Ledger, source: string, fill: OrderedFill, parts: seq<Part>, first: Option<int>)
    requires Whole(l) && fill.fillId != "" && fill.coin != "" && parts != []
    requires forall o :: o in l.parts ==> !OfFill(o, source, fill.fillId)
    ensures Whole(l.(parts := l.parts + MissingParts(l, source, fill, parts, first)))
  {
    var l' := l.(parts := l.parts + MissingParts(l, source, fill, parts, first));
    forall id | id in l'.parts
      ensures WholeFill(l', id)
    {
      if OfFill(id, source, fill.fillId) {
        ColumnsAreOfSomeFill(fill);
        assert id in PlanIds(source, fill.fillId, |parts|);
        forall k | 0 <= k < |parts|
          ensures Sibling(l', id, k)
        {
          assert PartId(source, fill.fillId, k) in PlanIds(source, fill.fillId, |parts|);
        }
      } else {
        assert id in l.parts && WholeFill(l, id);
        forall k | 0 <= k < l.parts[id].expectedCount
          ensures Sibling(l', id, k)
        {
          assert Sibling(l, id, k);
        }
      }
    }
  }

  // ------------------------------------------------------ what a step keeps

  /** The ledger's part of the invariant. */
  predicate Sound(l: Ledger) { Whole(l) && CompleteIsTerminal(l) && OrdersKnown(l) }

  /** No decision and nothing settled comes undone, and no plan changes. */
  predicate KeepsDecisions(l: Ledger, l': Ledger) {
    forall id :: id in l.parts ==>
                   && id in l'.parts && l'.parts[id].columns == l.parts[id].columns
                   && (Terminal(l.parts[id].outcome) ==> Terminal(l'.parts[id].outcome))
                   && (Settled(l, id) ==> Settled(l', id))
  }

  predicate SamePlan(r: PartRow, r': PartRow) {
    r'.expectedCount == r.expectedCount && r'.planVersion == r.planVersion && r'.columns == r.columns
  }

  /** Every claim and mark changes one undecided part. */
  lemma OneUndecidedPartChanges(l: Ledger, l': Ledger, id: PartId, r: PartRow)
    requires Sound(l) && id in l.parts && !Terminal(l.parts[id].outcome)
    requires l'.parts == l.parts[id := r] && l'.orders == l.orders
    requires SamePlan(l.parts[id], r) && !r.complete
    requires r.orderId.Some? ==> r.orderId.value in l.orders
    ensures Sound(l') && KeepsDecisions(l, l')
  {
    hide WholeFill;
    SamePlansKeepWhole(l, l');
  }

  /** A lease outlives a step that leaves its part's schedule alone. */
  lemma LeasesCarry(w: World, w': World)
    requires LeasesLive(w) && KeepsDecisions(w.ledger, w'.ledger)
    requires forall id :: id in w'.leases ==>
               && id in w.leases && w'.leases[id] == w.leases[id] && id in w'.ledger.parts
               && (id in w.ledger.parts ==>
                     && w'.ledger.parts[id].outcome == w.ledger.parts[id].outcome
                     && w'.ledger.parts[id].nextAttemptAt == w.ledger.parts[id].nextAttemptAt)
    ensures LeasesLive(w')
  {
    hide Unresolved;
    forall id | id in w'.leases
      ensures LeaseIsLive(w', id)
    {
      assert LeaseIsLive(w, id);
    }
  }

  lemma PlanKeepsInv(w: World, source: string, fill: OrderedFill, planned: seq<Part>, first: Option<int>)
    requires Inv(w) && fill.coin != ""
    requires EnsurePlan(w.ledger, source, fill, planned, first).Ok?
    ensures var l' := EnsurePlan(w.ledger, source, fill, planned, first).value;
            Inv(w.(ledger := l')) && KeepsDecisions(w.ledger, l')
  {
    hide EnsurePlan, Normalize, Contiguous;
    var l, l' := w.ledger, EnsurePlan(w.ledger, source, fill, planned, first).value;
    EnsuredPlanIsOldOrNew(l, source, fill, planned, first);
    if forall o :: o in l.parts ==> !OfFill(o, source, fill.fillId) {
      NormalizeAdmitsContiguous(planned);
      NewFillKeepsInv(w, source, fill, Normalize(planned).value, first);
    }
  }

  /** New rows leave the old ones alone, are undecided and have no order. */
  predicate AddsRows(l: Ledger, l': Ledger) {
    && l'.orders == l.orders && l.parts.Keys <= l'.parts.Keys
    && (forall id :: id in l.parts ==> l'.parts[id] == l.parts[id])
    && (forall id :: id in l'.parts && id !in l.parts ==>
          !l'.parts[id].complete && l'.parts[id].orderId.None?
          && forall o :: o in l.parts ==> !OfFill(o, id.source, id.fillId))
  }

  lemma AddedRowsKeepInv(w: World, l': Ledger)
    requires Inv(w) && AddsRows(w.ledger, l') && Whole(l')
    ensures Inv(w.(ledger := l')) && KeepsDecisions(w.ledger, l')
  {
    hide Whole;
    LeasesCarry(w, w.(ledger := l'));
  }

  lemma NewFillKeepsInv(w: World, source: string, fill: OrderedFill, parts: seq<Part>, first: Option<int>)
    requires Inv(w) && fill.fillId != "" && fill.coin != "" && parts != []
    requires forall o :: o in w.ledger.parts ==> !OfFill(o, source, fill.fillId)
    ensures var l' := w.ledger.(parts := w.ledger.parts + MissingParts(w.ledger, source, fill, parts, first));
            Inv(w.(ledger := l')) && KeepsDecisions(w.ledger, l')
  {
    hide Whole, ColumnsOf;
    var l := w.ledger;
    var l' := l.(parts := l.parts + MissingParts(l, source, fill, parts, first));
    NewPlanIsWhole(l, source, fill, parts, first);
    assert AddsRows(l, l') by { hide CompleteIsTerminal, OrdersKnown, LeasesLive; }
    AddedRowsKeepInv(w, l');
  }

  /** The new lease has everything before it in its lane settled. */
  lemma NewLeaseIsLive(w: World, s: Step, b: PartId)
    requires Inv(w) && s.Claim? && ClaimAnswer(w.ledger, s.source, s.fill, s.part, s.now, s.entryIsStale) == Claimed
    requires b in Next(w, s).leases[PartId(s.source, s.fill.fillId, s.part.sequenceIndex)].behind
    ensures Settled(w.ledger, b)
  {
    ClaimClearsLane(w.ledger, s.source, s.fill, s.part, s.now, s.entryIsStale, b);
  }

  lemma ClaimKeepsInv(w: World, s: Step)
    requires Inv(w) && s.Claim? && ClaimAnswer(w.ledger, s.source, s.fill, s.part, s.now, s.entryIsStale) == Claimed
    ensures Inv(Next(w, s)) && KeepsDecisions(w.ledger, Next(w, s).ledger)
  {
    var id := PartId(s.source, s.fill.fillId, s.part.sequenceIndex);
    var until := LeaseEnd(s.now, s.leaseSeconds);
    var l, w' := w.ledger, Next(w, s);
    ClaimConcernsUndecided(l, s.source, s.fill, s.part, s.now, s.entryIsStale);
    hide ClaimAnswer, Settled, WholeFill, LaneBefore;
    forall o | o in w'.leases[id].behind
      ensures Settled(l, o)
    {
      NewLeaseIsLive(w, s, o);
    }
    if l.parts[id].orderId.Some? { KnownOrder(l, id); }
    OneUndecidedPartChanges(l, w'.ledger, id, l.parts[id].(outcome := Retryable, nextAttemptAt := Some(until)));
    var others := w'.(leases := w.leases - {id});
    LeasesCarry(w, others);
    forall x | x in w'.leases
      ensures LeaseIsLive(w', x)
    {
      if x != id { assert LeaseIsLive(others, x); }
    }
  }

  lemma KnownOrder(l: Ledger, id: PartId)
    requires OrdersKnown(l) && id in l.parts && l.parts[id].orderId.Some?
    ensures l.parts[id].orderId.value in l.orders
  {
  }

  /** A mark by the lease holder. */
  lemma MarkKeepsInv(w: World, w': World, id: PartId, r: PartRow)
    requires Inv(w) && id in w.ledger.parts && !Terminal(w.ledger.parts[id].outcome)
    requires w'.ledger.parts == w.ledger.parts[id := r] && w'.ledger.orders == w.ledger.orders
    requires w'.leases == w.leases - {id}
    requires SamePlan(w.ledger.parts[id], r) && !r.complete
    requires r.orderId.Some? ==> r.orderId.value in w.ledger.orders
    ensures Inv(w') && KeepsDecisions(w.ledger, w'.ledger)
  {
    hide WholeFill, Settled, CompleteIsTerminal;
    OneUndecidedPartChanges(w.ledger, w'.ledger, id, r);
    LeasesCarry(w, w');
  }

  /** What a bulk step may do to one row: close it, or leave its decision alone. */
  predicate ClosesOrKeeps(r: PartRow, r': PartRow) {
    && SamePlan(r, r')
    && ((&& r'.outcome == r.outcome && r'.orderId == r.orderId
         && (!Terminal(r.outcome) ==> r'.nextAttemptAt == r.nextAttemptAt))
        || (!Terminal(r.outcome) && Terminal(r'.outcome) && r'.orderId.None?))
  }

  /** Completion, restart and deactivation change many rows at once. */
  predicate BulkStep(l: Ledger, l': Ledger) {
    && l'.parts.Keys == l.parts.Keys && l'.orders == l.orders
    && (forall id :: id in l.parts ==> ClosesOrKeeps(l.parts[id], l'.parts[id]))
    && (forall a, b :: a in l.parts && b in l.parts && OfFill(b, a.source, a.fillId)
                       && l'.parts[a].complete && !l.parts[a].complete
                       ==> Terminal(l'.parts[b].outcome))
  }

  lemma BulkStepKeepsInv(w: World, l': Ledger)
    requires Inv(w) && BulkStep(w.ledger, l')
    ensures Inv(Revoked(w, l')) && KeepsDecisions(w.ledger, l')
  {
    hide WholeFill;
    SamePlansKeepWhole(w.ledger, l');
    LeasesCarry(w, Revoked(w, l'));
  }

  lemma CompleteIsBulk(l: Ledger, source: string, fillId: FillId, planned: seq<Part>)
    requires CompleteIfDurable(l, source, fillId, planned).Ok?
    ensures BulkStep(l, CompleteIfDurable(l, source, fillId, planned).value)
  {
    hide Normalize;
    var l' := CompleteIfDurable(l, source, fillId, planned).value;
    if l' != l {
      forall o | o in l.parts && OfFill(o, source, fillId)
        ensures Terminal(l.parts[o].outcome)
      {
        assert o in FillParts(l, source, fillId);
      }
    }
  }

  lemma RestartIsBulk(l: Ledger, source: string, at: int, eligible: bool, history: seq<HistoryFill>)
    ensures BulkStep(l, Activate(l, source, at, eligible, history))
  {
    hide NewestMs, IdsAt, AtOrBeforeBaseline;
    var l' := Activate(l, source, at, eligible, history);
    var ms := NewestMs(history);
    var ids := IdsAt(history, ms);
    forall a, b | && a in l.parts && b in l.parts && OfFill(b, a.source, a.fillId)
                  && l'.parts[a].complete && !l.parts[a].complete
      ensures Terminal(l'.parts[b].outcome)
    {
      assert FinishedByBaseline(l, source, a.fillId, ms, ids);
    }
  }

  lemma SweepIsBulk(l: Ledger, source: string, isProtected: bool)
    requires CompleteIsTerminal(l)
    ensures BulkStep(l, SweepSource(l, source, isProtected))
  {
    hide OwnsPosition, HasActiveOrder;
    var l' := SweepSource(l, source, isProtected);
    forall a, b | && a in l.parts && b in l.parts && OfFill(b, a.source, a.fillId)
                  && l'.parts[a].complete && !l.parts[a].complete
      ensures Terminal(l'.parts[b].outcome)
    {
      assert l.parts[b].complete ==> OfFill(b, b.source, b.fillId);
      assert l.parts[b].outcome.Pending? || l.parts[b].outcome.Retryable? || Terminal(l.parts[b].outcome);
    }
  }

  /** Every lifecycle step keeps plans whole, complete fills terminal and leases live,
      and undoes nothing that is settled. */
  lemma StepKeepsInv(w: World, s: Step)
    requires Inv(w) && Legal(w, s)
    ensures Inv(Next(w, s)) && KeepsDecisions(w.ledger, Next(w, s).ledger)
  {
    hide EnsurePlan, ClaimAnswer, CompleteIfDurable, Activate, SweepSource, WholeFill, Settled, CompleteIsTerminal;
    var l := w.ledger;
    match s
    case Plan(source, fill, planned, first) =>
      if EnsurePlan(l, source, fill, planned, first).Ok? { PlanKeepsInv(w, source, fill, planned, first); }
    case Claim(_, source, fill, part, now, _, stale) =>
      if ClaimAnswer(l, source, fill, part, now, stale) == Claimed { ClaimKeepsInv(w, s); }
    case Retry(_, id, _, _, _) => LeasedPart(w, id); MarkKeepsInv(w, Next(w, s), id, Next(w, s).ledger.parts[id]);
    case Skip(_, id) => LeasedPart(w, id); MarkKeepsInv(w, Next(w, s), id, Next(w, s).ledger.parts[id]);
    case Ignore(_, id, _, _) => LeasedPart(w, id); MarkKeepsInv(w, Next(w, s), id, Next(w, s).ledger.parts[id]);
    case Link(_, id, _, _) =>
      LeasedPart(w, id);
      if Next(w, s) != w { MarkKeepsInv(w, Next(w, s), id, Next(w, s).ledger.parts[id]); }
    case IgnoreAtBaseline(source, fill, part, _, now, stale) =>
      var id := PartId(source, fill.fillId, part.sequenceIndex);
      ClaimConcernsUndecided(l, source, fill, part, now, stale);
      MarkKeepsInv(w, Next(w, s), id, Next(w, s).ledger.parts[id]);
    case Complete(source, fillId, planned) =>
      if CompleteIfDurable(l, source, fillId, planned).Ok? {
        CompleteIsBulk(l, source, fillId, planned);
        BulkStepKeepsInv(w, CompleteIfDurable(l, source, fillId, planned).value);
      }
    case Restart(source, at, eligible, history) =>
      RestartIsBulk(l, source, at, eligible, history);
      BulkStepKeepsInv(w, Activate(l, source, at, eligible, history));
    case Sweep(source, isProtected) =>
      SweepIsBulk(l, source, isProtected);
      BulkStepKeepsInv(w, SweepSource(l, source, isProtected));
    case NewOrder(_, _) => OrdersMove(w, Next(w, s));
    case ResolveOrder(_) => OrdersMove(w, Next(w, s));
    case MovePositions(_) => OrdersMove(w, Next(w, s));
  }

  lemma LeasedPart(w: World, id: PartId)
    requires LeasesLive(w) && id in w.leases
    ensures id in w.ledger.parts && w.ledger.parts[id].outcome == Retryable
  {
    assert LeaseIsLive(w, id);
  }

  /** Orders appear and resolve; no known order becomes unresolved. */
  lemma OrdersMove(w: World, w': World)
    requires Inv(w) && w'.ledger.parts == w.ledger.parts && w'.leases == w.leases
    requires forall o :: o in w.ledger.orders ==>
               o in w'.ledger.orders && (w.ledger.orders[o].resolved ==> w'.ledger.orders[o].resolved)
    ensures Inv(w') && KeepsDecisions(w.ledger, w'.ledger)
  {
    hide WholeFill;
    SamePlansKeepWhole(w.ledger, w'.ledger);
    LeasesCarry(w, w');
  }
}
