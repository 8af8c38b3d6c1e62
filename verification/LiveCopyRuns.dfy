/** Whole runs of the live-copy lifecycle: fills stay whole, a market lane is decided in
    order, and no lane deadlocks behind its own barrier. */
module LiveCopyRuns {
  import opened Numbers
  import opened Options
  import opened SourceFillOrdering
  import opened SourceFillPlanning
  import opened LiveCopyLedger
  import opened LiveCopyProtocol

  // --------------------------------------------------------------- whole runs

  lemma DecisionsStayTransitively(a: Ledger, b: Ledger, c: Ledger)
    requires KeepsDecisions(a, b) && KeepsDecisions(b, c)
    ensures KeepsDecisions(a, c)
  {
    hide Settled, Terminal;
  }

  /** A run keeps the invariant, every decision and everything settled. */
  lemma {:induction false} RunKeepsInv(w: World, run: seq<Step>)
    requires Inv(w) && LegalRun(w, run)
    ensures Inv(Run(w, run)) && KeepsDecisions(w.ledger, Run(w, run).ledger)
    decreases |run|
  {
    hide Inv, Next, Legal, Settled;
    if run != [] {
      StepKeepsInv(w, run[0]);
      RunKeepsInv(Next(w, run[0]), run[1..]);
      DecisionsStayTransitively(w.ledger, Next(w, run[0]).ledger, Run(w, run).ledger);
    }
  }

  /** The parts of every planned fill are exactly 0 to n-1, and a complete part
      only has decided siblings. */
  predicate FillIsWhole(l: Ledger, id: PartId)
    requires id in l.parts
  {
    && FillParts(l, id.source, id.fillId) == PlanIds(id.source, id.fillId, MaxInt(l.parts[id].expectedCount, 0))
    && (forall o :: o in FillParts(l, id.source, id.fillId) ==>
          && l.parts[o].expectedCount == l.parts[id].expectedCount
          && (l.parts[id].complete ==> Terminal(l.parts[o].outcome)))
  }

  lemma WholeFillsAreExact(l: Ledger, id: PartId)
    requires Whole(l) && CompleteIsTerminal(l) && id in l.parts
    ensures FillIsWhole(l, id)
  {
    assert WholeFill(l, id);
    var n := l.parts[id].expectedCount;
    forall o | o in FillParts(l, id.source, id.fillId)
      ensures o in PlanIds(id.source, id.fillId, n) && l.parts[o].expectedCount == n
    {
      assert WholeFill(l, o) && Sibling(l, o, 0) && Sibling(l, id, 0);
    }
    forall o | o in PlanIds(id.source, id.fillId, n)
      ensures o in FillParts(l, id.source, id.fillId)
    {
      assert Sibling(l, id, o.sequence);
    }
  }

  /** The completion invariant, in every state any run reaches. */
  lemma {:induction false} CompletionInvariant(run: seq<Step>)
    requires LegalRun(Fresh(), run)
    ensures var l := Run(Fresh(), run).ledger; forall id :: id in l.parts ==> FillIsWhole(l, id)
  {
    hide FillIsWhole, Run, LegalRun;
    RunKeepsInv(Fresh(), run);
    var l := Run(Fresh(), run).ledger;
    forall id | id in l.parts
      ensures FillIsWhole(l, id)
    {
      WholeFillsAreExact(l, id);
    }
  }

  /** A claim through the barrier finds every lane-earlier part planned by then settled,
      and they all stay settled in whatever run follows. */
  lemma LaneBehindClaimStaysSettled(w: World, s: Step, run: seq<Step>, o: PartId)
    requires Inv(w) && s.Claim? && ClaimAnswer(w.ledger, s.source, s.fill, s.part, s.now, s.entryIsStale) == Claimed
    requires !(IsEntry(s.part.action) && s.entryIsStale)
    requires LegalRun(Next(w, s), run)
    requires LaneBefore(w.ledger, o, PartId(s.source, s.fill.fillId, s.part.sequenceIndex))
    ensures Settled(w.ledger, o) && Settled(Run(Next(w, s), run).ledger, o)
  {
    ClaimClearsLane(w.ledger, s.source, s.fill, s.part, s.now, s.entryIsStale, o);
    hide ClaimAnswer, LaneBefore, Next, Inv, LegalRun, Run;
    assert Legal(w, s);
    StepKeepsInv(w, s);
    RunKeepsInv(Next(w, s), run);
  }

  /** Until a lease ends, nobody else gets its part. */
  lemma LeaseIsExclusive(w: World, s: Step)
    requires Inv(w) && s.Claim?
    requires var id := PartId(s.source, s.fill.fillId, s.part.sequenceIndex);
             id in w.leases && s.now < w.leases[id].until
    ensures Next(w, s) == w
  {
    var id := PartId(s.source, s.fill.fillId, s.part.sequenceIndex);
    assert LeaseIsLive(w, id);
  }

  /** Without the lease discipline a late retry mark reopens a decided part: it leaves
      every decision standing exactly when its part is still undecided. */
  lemma LateRetryReopensExactly(l: Ledger, id: PartId, now: int, baseSeconds: int, maxSeconds: int)
    requires id in l.parts
    ensures KeepsDecisions(l, MarkRetryable(l, id, now, baseSeconds, maxSeconds)) <==> !Terminal(l.parts[id].outcome)
  {
    hide RetryDelay;
    var l' := MarkRetryable(l, id, now, baseSeconds, maxSeconds);
    assert l'.parts[id].outcome == Retryable;
  }

  // -------------------------------------------------------------- lane order

  lemma LaneBeforeIsTotal(l: Ledger, a: PartId, b: PartId)
    requires Whole(l) && SameLane(l, a, b) && a != b
    ensures LaneBefore(l, a, b) || LaneBefore(l, b, a)
  {
    hide KeyLess, Sibling;
    assert WholeFill(l, a) && WholeFill(l, b);
    if a.fillId != b.fillId { KeyLessIsTotal(KeyOf(l.parts[a].columns), KeyOf(l.parts[b].columns)); }
  }

  lemma SiblingsShareColumns(l: Ledger, a: PartId, b: PartId)
    requires Whole(l) && a in l.parts && b in l.parts && OfFill(b, a.source, a.fillId)
    ensures l.parts[a].columns == l.parts[b].columns
  {
    assert WholeFill(l, a) && WholeFill(l, b) && Sibling(l, a, 0) && Sibling(l, b, 0);
  }

  lemma LaneBeforeIsTransitive(l: Ledger, a: PartId, b: PartId, c: PartId)
    requires Whole(l) && LaneBefore(l, a, b) && LaneBefore(l, b, c)
    ensures LaneBefore(l, a, c) && a != c
  {
    hide KeyLess, WholeFill;
    var x, y, z := KeyOf(l.parts[a].columns), KeyOf(l.parts[b].columns), KeyOf(l.parts[c].columns);
    if a.fillId == b.fillId {
      SiblingsShareColumns(l, a, b);
    } else if b.fillId == c.fillId {
      SiblingsShareColumns(l, b, c);
    } else {
      KeyLessIsTransitive(x, y, z);
      if a.fillId == c.fillId {
        SiblingsShareColumns(l, a, c);
        KeyLessIsIrreflexive(x);
      }
    }
  }

  /** A step plans in order when a fill it adds comes after every planned fill of its lane. */
  predicate PlansInOrder(w: World, s: Step) {
    s.Plan? ==>
      || (exists o :: o in w.ledger.parts && OfFill(o, s.source, s.fill.fillId))
      || (forall o :: o in w.ledger.parts && o.source == s.source && w.ledger.parts[o].columns.coin == s.fill.coin ==>
            KeyLess(KeyOf(w.ledger.parts[o].columns), FillOrderKey(s.fill)))
  }

  predicate InOrderRun(w: World, run: seq<Step>)
    requires LegalRun(w, run)
    decreases |run|
  {
    run == [] || (PlansInOrder(w, run[0]) && InOrderRun(Next(w, run[0]), run[1..]))
  }

  /** Everything before a part in its lane is settled. */
  predicate Cleared(l: Ledger, id: PartId) { forall o :: o in l.parts && LaneBefore(l, o, id) ==> Settled(l, o) }

  /** Decided parts of one lane appear in lane order. */
  predicate InLaneOrder(l: Ledger, decided: seq<PartId>) {
    forall i, j :: 0 <= i < j < |decided| && SameLane(l, decided[i], decided[j]) ==>
      LaneBefore(l, decided[i], decided[j])
  }

  predicate OrderInv(w: World) {
    && (forall id :: id in w.leases && !w.leases[id].stale ==> Cleared(w.ledger, id))
    && (forall d :: d in w.decided ==>
          d in w.ledger.parts && Terminal(w.ledger.parts[d].outcome) && Cleared(w.ledger, d))
    && InLaneOrder(w.ledger, w.decided)
  }

  /** No part enters a lane before a part that is already there. */
  predicate NoEarlierPart(l: Ledger, l': Ledger) {
    forall o, id :: o in l'.parts && id in l.parts && LaneBefore(l', o, id) ==> LaneBefore(l, o, id)
  }

  lemma ClearedStays(l: Ledger, l': Ledger, id: PartId)
    requires KeepsDecisions(l, l') && NoEarlierPart(l, l') && id in l.parts && Cleared(l, id)
    ensures Cleared(l', id)
  {
    hide Settled, KeyLess;
    forall o | o in l'.parts && LaneBefore(l', o, id)
      ensures Settled(l', o)
    {
      assert LaneBefore(l, o, id);
    }
  }

  lemma SameRowsAddNoEarlierPart(l: Ledger, l': Ledger)
    requires KeepsDecisions(l, l') && l'.parts.Keys == l.parts.Keys
    ensures NoEarlierPart(l, l')
  {
    hide Settled, KeyLess;
    forall o, id | o in l'.parts && id in l.parts && LaneBefore(l', o, id)
      ensures LaneBefore(l, o, id)
    {
      assert o in l.parts;
    }
  }

  lemma InOrderPlanAddsNoEarlierPart(w: World, s: Step)
    requires Inv(w) && Legal(w, s) && PlansInOrder(w, s) && s.Plan?
    ensures NoEarlierPart(w.ledger, Next(w, s).ledger)
  {
    assert ColumnsOf(s.fill).coin == s.fill.coin;
    hide KeyLess, EnsurePlan, WholeFill, Settled, ColumnsOf, FillOrderKey, Contiguous, Normalize;
    hide CompleteIsTerminal, OrdersKnown, LeasesLive;
    StepKeepsInv(w, s);
    var l, l' := w.ledger, Next(w, s).ledger;
    if EnsurePlan(l, s.source, s.fill, s.planned, s.firstObservedAt).Ok? {
      EnsuredPlanIsOldOrNew(l, s.source, s.fill, s.planned, s.firstObservedAt);
    }
    forall o, id | o in l'.parts && id in l.parts && LaneBefore(l', o, id)
      ensures LaneBefore(l, o, id)
    {
      if o !in l.parts {
        PersistedColumnsKeepTheKey(s.fill);
        assert KeyLess(KeyOf(l.parts[id].columns), KeyOf(l'.parts[o].columns));
        KeyLessIsAsymmetric(KeyOf(l.parts[id].columns), KeyOf(l'.parts[o].columns));
      }
    }
  }

  /** What one step does to the leases and the decisions. */
  predicate StepShape(w: World, w': World) {
    && (forall id :: id in w'.leases && !w'.leases[id].stale ==>
          (id in w.leases && !w.leases[id].stale) || (id in w.ledger.parts && Cleared(w.ledger, id)))
    && (w'.decided == w.decided
        || exists id :: id in w.leases && !w.leases[id].stale && w'.decided == w.decided + [id]
                        && id in w'.ledger.parts && Terminal(w'.ledger.parts[id].outcome))
  }

  lemma ClaimClears(w: World, s: Step)
    requires Inv(w) && s.Claim? && ClaimAnswer(w.ledger, s.source, s.fill, s.part, s.now, s.entryIsStale) == Claimed
    requires !(IsEntry(s.part.action) && s.entryIsStale)
    ensures Cleared(w.ledger, PartId(s.source, s.fill.fillId, s.part.sequenceIndex))
  {
    hide ClaimAnswer, LaneBefore, Settled;
    forall o | o in w.ledger.parts && LaneBefore(w.ledger, o, PartId(s.source, s.fill.fillId, s.part.sequenceIndex))
      ensures Settled(w.ledger, o)
    {
      ClaimClearsLane(w.ledger, s.source, s.fill, s.part, s.now, s.entryIsStale, o);
    }
  }

  lemma FewerLeasesHaveShape(w: World, w': World)
    requires w'.decided == w.decided
    requires forall id :: id in w'.leases ==> id in w.leases && w'.leases[id] == w.leases[id]
    ensures StepShape(w, w')
  {
    hide Cleared, Terminal;
  }

  lemma DecisionHasShape(w: World, id: PartId, ledger: Ledger)
    requires id in w.leases && id in ledger.parts && Terminal(ledger.parts[id].outcome)
    ensures StepShape(w, Decided(w, id, ledger))
  {
    hide Cleared, Terminal;
  }

  lemma ClaimHasShape(w: World, s: Step)
    requires Inv(w) && s.Claim? && Legal(w, s)
    ensures StepShape(w, Next(w, s))
  {
    hide ClaimAnswer, Cleared, Inv, LaneBefore, Behind;
    if ClaimAnswer(w.ledger, s.source, s.fill, s.part, s.now, s.entryIsStale) == Claimed {
      ClaimConcernsUndecided(w.ledger, s.source, s.fill, s.part, s.now, s.entryIsStale);
      if !(IsEntry(s.part.action) && s.entryIsStale) { ClaimClears(w, s); }
    }
  }

  lemma StepHasShape(w: World, s: Step)
    requires Inv(w) && Legal(w, s)
    ensures StepShape(w, Next(w, s))
  {
    hide StepShape, ClaimAnswer, EnsurePlan, CompleteIfDurable, Activate, SweepSource, Inv;
    match s
    case Claim(_, _, _, _, _, _, _) => ClaimHasShape(w, s);
    case Skip(_, id) => DecisionHasShape(w, id, Next(w, s).ledger);
    case Ignore(_, id, _, _) => DecisionHasShape(w, id, Next(w, s).ledger);
    case Link(_, id, order, terminalSkip) =>
      if LinkOrder(w.ledger, id, order, terminalSkip).Some? {
        DecisionHasShape(w, id, Next(w, s).ledger);
      } else {
        FewerLeasesHaveShape(w, w);
      }
    case _ => FewerLeasesHaveShape(w, Next(w, s));
  }

  /** A decision taken under a cleared lease comes after every earlier decision of its lane. */
  lemma DecisionExtendsOrder(w: World, id: PartId)
    requires Inv(w) && OrderInv(w) && id in w.leases && !w.leases[id].stale
    ensures id in w.ledger.parts && InLaneOrder(w.ledger, w.decided + [id])
  {
    hide LaneBefore, KeyLess, WholeFill, Cleared;
    var l := w.ledger;
    assert LeaseIsLive(w, id);
    forall i | 0 <= i < |w.decided| && SameLane(l, w.decided[i], id)
      ensures LaneBefore(l, w.decided[i], id)
    {
      var d := w.decided[i];
      assert d in w.decided;
      LaneBeforeIsTotal(l, d, id);
      if LaneBefore(l, id, d) { ClearedMeans(l, d, id); }
    }
  }

  lemma ClearedMeans(l: Ledger, id: PartId, o: PartId)
    requires Cleared(l, id) && LaneBefore(l, o, id)
    ensures Settled(l, o)
  {
  }

  lemma OrderCarries(l: Ledger, l': Ledger, decided: seq<PartId>)
    requires KeepsDecisions(l, l') && InLaneOrder(l, decided)
    requires forall d :: d in decided ==> d in l.parts
    ensures InLaneOrder(l', decided)
  {
    hide KeyLess, Settled;
  }

  /** A part whose way is clear keeps it clear. */
  lemma ClearPartStays(w: World, s: Step, id: PartId)
    requires Inv(w) && Legal(w, s) && PlansInOrder(w, s) && id in w.ledger.parts && Cleared(w.ledger, id)
    ensures id in Next(w, s).ledger.parts && Cleared(Next(w, s).ledger, id)
    ensures Terminal(w.ledger.parts[id].outcome) ==> Terminal(Next(w, s).ledger.parts[id].outcome)
  {
    hide Next, Legal, Inv, KeepsDecisions, Cleared, NoEarlierPart, PlansInOrder;
    StepKeepsInv(w, s);
    EarlierPartsStay(w, s);
    ClearedStays(w.ledger, Next(w, s).ledger, id);
    DecisionStays(w.ledger, Next(w, s).ledger, id);
  }

  lemma LeasesStayCleared(w: World, s: Step, id: PartId)
    requires Inv(w) && OrderInv(w) && Legal(w, s) && PlansInOrder(w, s)
    requires id in Next(w, s).leases && !Next(w, s).leases[id].stale
    ensures Cleared(Next(w, s).ledger, id)
  {
    StepHasShape(w, s);
    LeasesConcernParts(w);
    hide Next, Legal, Inv, Cleared, PlansInOrder, InLaneOrder;
    ClearPartStays(w, s, id);
  }

  lemma DecidedStaysCleared(w: World, s: Step, d: PartId)
    requires Inv(w) && OrderInv(w) && Legal(w, s) && PlansInOrder(w, s) && d in Next(w, s).decided
    ensures var l' := Next(w, s).ledger; d in l'.parts && Terminal(l'.parts[d].outcome) && Cleared(l', d)
  {
    StepHasShape(w, s);
    LeasesConcernParts(w);
    hide Next, Legal, Inv, Cleared, PlansInOrder, InLaneOrder;
    ClearPartStays(w, s, d);
  }

  lemma DecidedAreOrdered(w: World)
    requires OrderInv(w)
    ensures InLaneOrder(w.ledger, w.decided) && forall d :: d in w.decided ==> d in w.ledger.parts
  {
  }

  lemma DecisionsStayOrdered(w: World, s: Step)
    requires Inv(w) && OrderInv(w) && Legal(w, s) && PlansInOrder(w, s)
    ensures InLaneOrder(Next(w, s).ledger, Next(w, s).decided)
  {
    hide Next, Legal, Inv, PlansInOrder, InLaneOrder, KeepsDecisions, OrderInv, Cleared, Terminal;
    var w' := Next(w, s);
    StepHasShape(w, s);
    StepKeepsInv(w, s);
    LeasesConcernParts(w);
    DecidedAreOrdered(w);
    if w'.decided == w.decided {
      OrderCarries(w.ledger, w'.ledger, w.decided);
    } else {
      var id :| id in w.leases && !w.leases[id].stale && w'.decided == w.decided + [id];
      DecisionExtendsOrder(w, id);
      OrderCarries(w.ledger, w'.ledger, w.decided + [id]);
    }
  }

  lemma StepKeepsOrder(w: World, s: Step)
    requires Inv(w) && OrderInv(w) && Legal(w, s) && PlansInOrder(w, s)
    ensures OrderInv(Next(w, s))
  {
    hide Next, Legal, Inv, Cleared, PlansInOrder, InLaneOrder;
    var w' := Next(w, s);
    forall id | id in w'.leases && !w'.leases[id].stale
      ensures Cleared(w'.ledger, id)
    {
      LeasesStayCleared(w, s, id);
    }
    forall d | d in w'.decided
      ensures d in w'.ledger.parts && Terminal(w'.ledger.parts[d].outcome) && Cleared(w'.ledger, d)
    {
      DecidedStaysCleared(w, s, d);
    }
    DecisionsStayOrdered(w, s);
  }

  lemma DecisionStays(l: Ledger, l': Ledger, id: PartId)
    requires KeepsDecisions(l, l') && id in l.parts
    ensures id in l'.parts && (Terminal(l.parts[id].outcome) ==> Terminal(l'.parts[id].outcome))
  {
  }

  lemma LeasesConcernParts(w: World)
    requires Inv(w)
    ensures forall id :: id in w.leases ==> id in w.ledger.parts
  {
    forall id | id in w.leases
      ensures id in w.ledger.parts
    {
      assert LeaseIsLive(w, id);
    }
  }

  lemma EarlierPartsStay(w: World, s: Step)
    requires Inv(w) && Legal(w, s) && PlansInOrder(w, s)
    ensures NoEarlierPart(w.ledger, Next(w, s).ledger)
  {
    StepKeepsInv(w, s);
    if s.Plan? {
      InOrderPlanAddsNoEarlierPart(w, s);
    } else {
      hide ClaimAnswer, CompleteIfDurable, Activate, SweepSource, Inv, KeepsDecisions, NoEarlierPart;
      if s.Complete? && CompleteIfDurable(w.ledger, s.source, s.fillId, s.planned).Ok? {
        CompleteIsBulk(w.ledger, s.source, s.fillId, s.planned);
      }
      if s.Restart? { RestartIsBulk(w.ledger, s.source, s.at, s.entryEligible, s.history); }
      if s.Sweep? { SweepKeys(w.ledger, s.source, s.isProtected); }
      if s.Claim? { ClaimConcerns(w, s); }
      SameRowsAddNoEarlierPart(w.ledger, Next(w, s).ledger);
    }
  }

  lemma SweepKeys(l: Ledger, source: string, isProtected: bool)
    ensures SweepSource(l, source, isProtected).parts.Keys == l.parts.Keys
  {
  }

  lemma ClaimConcerns(w: World, s: Step)
    requires s.Claim?
    ensures Next(w, s).ledger.parts.Keys == w.ledger.parts.Keys
  {
  }

  /** Executed non-stale decisions follow the fill order, part by part, in every market
      lane, over every run whose plans arrive in that order. */
  lemma {:induction false} DecisionsFollowLaneOrder(w: World, run: seq<Step>)
    requires Inv(w) && OrderInv(w) && LegalRun(w, run) && InOrderRun(w, run)
    ensures OrderInv(Run(w, run))
    decreases |run|
  {
    hide Inv, OrderInv, Next, Legal, PlansInOrder;
    if run != [] {
      StepKeepsInv(w, run[0]);
      StepKeepsOrder(w, run[0]);
      DecisionsFollowLaneOrder(Next(w, run[0]), run[1..]);
    }
  }

  /** From an empty ledger. */
  lemma {:induction false} DecidedInLaneOrder(run: seq<Step>)
    requires LegalRun(Fresh(), run) && InOrderRun(Fresh(), run)
    ensures InLaneOrder(Run(Fresh(), run).ledger, Run(Fresh(), run).decided)
  {
    hide Next, Run, LegalRun, InOrderRun;
    DecisionsFollowLaneOrder(Fresh(), run);
  }

  // -------------------------------------------------------------- no deadlock

  /** For an undecided part of an active source, past its baseline check, the barrier
      blocks exactly when something earlier in its lane is not settled. */
  lemma BlockedExactly(l: Ledger, source: string, fill: OrderedFill, p: Part, now: int, stale: bool)
    requires Sound(l) && !(IsEntry(p.action) && stale)
    requires ClaimAnswer(l, source, fill, p, now, stale) !in {MissingPlan, AlreadyComplete, AtBaseline}
    ensures ClaimAnswer(l, source, fill, p, now, stale) == Blocked
            <==> exists o :: o in l.parts && !Settled(l, o)
                             && LaneBefore(l, o, PartId(source, fill.fillId, p.sequenceIndex))
  {
    hide PlanIsWhole, PostBaseline, FollowsOwnedPosition, FillParts, BlockerEarlier, KeyLess, Sibling;
    var id := PartId(source, fill.fillId, p.sequenceIndex);
    assert WholeFill(l, id);
    assert l.parts[id].columns == ColumnsOf(fill);
    forall o | o in l.parts && LaneBefore(l, o, id) && !Settled(l, o)
      ensures ClaimAnswer(l, source, fill, p, now, stale) == Blocked
    {
      UnsettledBlocks(l, source, fill, p.sequenceIndex, o);
    }
    forall o | && o in l.parts
               && (LowerBlocks(l, o, source, fill.fillId, p.sequenceIndex) || PriorBlocks(l, o, source, fill))
      ensures LaneBefore(l, o, id) && !Settled(l, o)
    {
      BlockerIsUnsettled(l, source, fill, p.sequenceIndex, o);
    }
  }

  lemma UnsettledBlocks(l: Ledger, source: string, fill: OrderedFill, sequence: int, o: PartId)
    requires Sound(l) && fill.fillId != ""
    requires var id := PartId(source, fill.fillId, sequence);
             && id in l.parts && l.parts[id].columns == ColumnsOf(fill)
             && o in l.parts && LaneBefore(l, o, id) && !Settled(l, o)
    ensures LowerBlocks(l, o, source, fill.fillId, sequence) || HasPriorBlocker(l, source, fill)
  {
    hide BlockerEarlier, KeyLess, Sibling;
    var id := PartId(source, fill.fillId, sequence);
    assert WholeFill(l, id) && WholeFill(l, o);
    if o.fillId != id.fillId {
      BlockerOrder(l.parts[o].columns, ColumnsOf(fill));
      assert OfFill(o, o.source, o.fillId);
      assert l.parts[o].outcome.Pending? || l.parts[o].outcome.Retryable? || Terminal(l.parts[o].outcome);
      assert PriorBlocks(l, o, source, fill);
    }
  }

  lemma BlockerIsUnsettled(l: Ledger, source: string, fill: OrderedFill, sequence: int, o: PartId)
    requires Sound(l)
    requires var id := PartId(source, fill.fillId, sequence); id in l.parts && l.parts[id].columns == ColumnsOf(fill)
    requires o in l.parts && (LowerBlocks(l, o, source, fill.fillId, sequence) || PriorBlocks(l, o, source, fill))
    ensures LaneBefore(l, o, PartId(source, fill.fillId, sequence)) && !Settled(l, o)
  {
    hide BlockerEarlier, KeyLess, WholeFill;
    var id := PartId(source, fill.fillId, sequence);
    if OfFill(o, source, fill.fillId) { SiblingsShareColumns(l, o, id); }
    if PriorBlocks(l, o, source, fill) {
      BlockerOrder(l.parts[o].columns, ColumnsOf(fill));
      KeyLessIsIrreflexive(KeyOf(ColumnsOf(fill)));
    }
  }

  /** The unsettled parts before one in its lane. */
  function UnsettledBefore(l: Ledger, id: PartId): set<PartId> {
    set o | o in l.parts && LaneBefore(l, o, id) && !Settled(l, o)
  }

  /** Every unsettled part has an unsettled part at or before it whose way is clear. */
  lemma {:induction false} LaneHasHead(l: Ledger, id: PartId) returns (head: PartId)
    requires Whole(l) && id in l.parts && !Settled(l, id)
    ensures SameLane(l, head, id) && !Settled(l, head) && Cleared(l, head)
    decreases UnsettledBefore(l, id)
  {
    hide Whole, LaneBefore, Settled;
    if UnsettledBefore(l, id) == {} {
      head := id;
      assert forall o :: o in l.parts && LaneBefore(l, o, id) && !Settled(l, o) ==> o in UnsettledBefore(l, id);
    } else {
      var o :| o in UnsettledBefore(l, id);
      LaneMeansSame(l, o, id);
      forall x | x in UnsettledBefore(l, o)
        ensures x in UnsettledBefore(l, id)
      {
        LaneBeforeIsTransitive(l, x, o, id);
      }
      if LaneBefore(l, o, o) { LaneBeforeIsTransitive(l, o, o, o); }
      assert o !in UnsettledBefore(l, o);
      head := LaneHasHead(l, o);
    }
  }

  lemma LaneMeansSame(l: Ledger, a: PartId, b: PartId)
    requires LaneBefore(l, a, b)
    ensures SameLane(l, a, b)
  {
  }

  /** Whatever claims are made of it, the part is not found blocked. */
  ghost predicate NeverBlocked(l: Ledger, id: PartId) {
    forall fill: OrderedFill, p: Part, now, stale :: PartId(id.source, fill.fillId, p.sequenceIndex) == id ==>
      ClaimAnswer(l, id.source, fill, p, now, stale) != Blocked
  }

  /** The head of an unsettled lane is never blocked; a decided head only waits for its order to resolve. */
  lemma {:induction false} HeadIsNeverBlocked(run: seq<Step>, id: PartId) returns (head: PartId)
    requires LegalRun(Fresh(), run)
    requires id in Run(Fresh(), run).ledger.parts && !Settled(Run(Fresh(), run).ledger, id)
    ensures var l := Run(Fresh(), run).ledger;
            && SameLane(l, head, id) && !Settled(l, head) && NeverBlocked(l, head)
            && (Terminal(l.parts[head].outcome) ==> Unresolved(l, l.parts[head]))
  {
    hide Next, Run, LegalRun, ClaimAnswer, LaneBefore, WholeFill;
    RunKeepsInv(Fresh(), run);
    var l := Run(Fresh(), run).ledger;
    head := LaneHasHead(l, id);
    forall fill: OrderedFill, p: Part, now, stale | PartId(head.source, fill.fillId, p.sequenceIndex) == head
      ensures ClaimAnswer(l, head.source, fill, p, now, stale) != Blocked
    {
      if ClaimAnswer(l, head.source, fill, p, now, stale) == Blocked {
        BlockedIsNotBypassed(l, head.source, fill, p, now, stale);
        BlockedExactly(l, head.source, fill, p, now, stale);
      }
    }
  }

  lemma BlockedIsNotBypassed(l: Ledger, source: string, fill: OrderedFill, p: Part, now: int, stale: bool)
    requires ClaimAnswer(l, source, fill, p, now, stale) == Blocked
    ensures !(IsEntry(p.action) && stale)
  {
  }

  /** The part as a claim of a persisted row brings it. */
  function ClaimedPart(r: PartRow, id: PartId): Part {
    Part(r.action, r.side, 0.0, 0.0, id.sequence, None, None)
  }

  predicate Due(r: PartRow, now: int) { r.nextAttemptAt.Some? ==> r.nextAttemptAt.value <= now }

  lemma {:induction false} PlanIdsCount(source: string, fillId: FillId, n: nat)
    ensures |PlanIds(source, fillId, n)| == n
  {
    if n > 0 {
      PlanIdsCount(source, fillId, n - 1);
      assert PlanIds(source, fillId, n) == PlanIds(source, fillId, n - 1) + {PartId(source, fillId, n - 1)};
    }
  }

  lemma WholeFillIsPlanned(l: Ledger, id: PartId)
    requires Whole(l) && CompleteIsTerminal(l) && id in l.parts
    ensures PlanIsWhole(l, id.source, id.fillId) && |FillParts(l, id.source, id.fillId)| == l.parts[id].expectedCount
  {
    assert WholeFill(l, id);
    WholeFillsAreExact(l, id);
    var n := l.parts[id].expectedCount;
    PlanIdsCount(id.source, id.fillId, n);
    assert id in FillParts(l, id.source, id.fillId);
    forall o | o in FillParts(l, id.source, id.fillId)
      ensures l.parts[o].planVersion == PlanVersion
    {
      assert WholeFill(l, o);
    }
  }

  /** An undecided part of an active source that nothing blocks is claimed once it is due,
      unless it is an entry from before the baseline. */
  lemma DueHeadIsClaimed(l: Ledger, id: PartId, now: int, stale: bool)
    requires Sound(l) && id in l.parts && !Terminal(l.parts[id].outcome) && NeverBlocked(l, id)
    requires id.source in l.sources && l.sources[id.source].active && Due(l.parts[id], now)
    ensures var p := ClaimedPart(l.parts[id], id);
            var answer := ClaimAnswer(l, id.source, FillOf(l.parts[id].columns), p, now, stale);
            answer == Claimed || (answer == AtBaseline && IsEntry(p.action))
  {
    hide FillParts, PlanIsWhole, FollowsOwnedPosition, PostBaseline, LowerBlocks, HasPriorBlocker, ColumnsOf;
    var r := l.parts[id];
    var fill, p := FillOf(r.columns), ClaimedPart(r, id);
    assert WholeFill(l, id);
    assert OfFill(id, id.source, id.fillId);
    WholeFillIsPlanned(l, id);
    assert MatchesPlan(r, fill, p, r.expectedCount);
    assert ClaimAnswer(l, id.source, fill, p, now, stale) != Blocked;
  }

  /** No reachable lane of an active source stalls: its head waits for its own order to
      resolve, or a claim of it is granted as soon as it is due. */
  lemma {:induction false} LaneMakesProgress(run: seq<Step>, id: PartId) returns (head: PartId)
    requires LegalRun(Fresh(), run)
    requires var l := Run(Fresh(), run).ledger;
             id in l.parts && !Settled(l, id) && id.source in l.sources && l.sources[id.source].active
    ensures var l := Run(Fresh(), run).ledger;
            && SameLane(l, head, id) && !Settled(l, head)
            && (if Terminal(l.parts[head].outcome) then Unresolved(l, l.parts[head])
                else forall now, stale :: Due(l.parts[head], now) ==>
                       var p := ClaimedPart(l.parts[head], head);
                       var answer := ClaimAnswer(l, head.source, FillOf(l.parts[head].columns), p, now, stale);
                       answer == Claimed || (answer == AtBaseline && IsEntry(p.action)))
  {
    hide Next, Run, LegalRun, ClaimAnswer, NeverBlocked, WholeFill, Settled, Unresolved;
    RunKeepsInv(Fresh(), run);
    var l := Run(Fresh(), run).ledger;
    head := HeadIsNeverBlocked(run, id);
    if !Terminal(l.parts[head].outcome) {
      forall now, stale | Due(l.parts[head], now)
        ensures var p := ClaimedPart(l.parts[head], head);
                var answer := ClaimAnswer(l, head.source, FillOf(l.parts[head].columns), p, now, stale);
                answer == Claimed || (answer == AtBaseline && IsEntry(p.action))
      {
        DueHeadIsClaimed(l, head, now, stale);
      }
    }
  }
}
