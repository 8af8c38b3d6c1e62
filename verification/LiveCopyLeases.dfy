/** What the answers of a claim mean: when one is granted, and how long it lasts. */
module LiveCopyLeases {
  import opened Numbers
  import opened Options
  import opened SourceFillOrdering
  import opened SourceFillPlanning
  import opened LiveCopyLedger
  import opened LiveCopyProtocol
  import opened LiveCopyRuns
  import opened LiveCopyStateService

  /** The part a claim asks for. */
  function Asked(s: Step): PartId
    requires s.Claim?
  {
    PartId(s.source, s.fill.fillId, s.part.sequenceIndex)
  }

  predicate Granted(w: World, s: Step) {
    s.Claim? && ClaimAnswer(w.ledger, s.source, s.fill, s.part, s.now, s.entryIsStale) == Claimed
  }

  // ------------------------------------------------------------ how long it lasts

  /** The step marks the part, or is a lifecycle step on its source. */
  predicate Touches(s: Step, id: PartId) {
    match s
    case Retry(_, x, _, _, _) => x == id
    case Skip(_, x) => x == id
    case Ignore(_, x, _, _) => x == id
    case Link(_, x, _, _) => x == id
    case IgnoreAtBaseline(source, fill, part, _, _, _) => PartId(source, fill.fillId, part.sequenceIndex) == id
    case Restart(source, _, _, _) => source == id.source
    case Sweep(source, _) => source == id.source
    case _ => false
  }

  /** The run leaves the part to its holder: no step touches it, and every claim of it comes before a time. */
  predicate LeavesAlone(run: seq<Step>, id: PartId, end: int) {
    forall k :: 0 <= k < |run| ==> !Touches(run[k], id) && (run[k].Claim? && Asked(run[k]) == id ==> run[k].now < end)
  }

  /** The part waits until a time. */
  predicate WaitsUntil(w: World, id: PartId, end: int) {
    && id in w.ledger.parts && w.ledger.parts[id].outcome == Retryable && w.ledger.parts[id].nextAttemptAt == Some(end)
  }

  lemma EarlyClaimChangesNothing(w: World, s: Step, end: int)
    requires s.Claim? && WaitsUntil(w, Asked(s), end) && s.now < end
    ensures Next(w, s) == w
  {
  }

  /** The row and the lease of a part are the same. */
  predicate SameHold(w: World, w': World, id: PartId) {
    && id in w.ledger.parts && id in w'.ledger.parts && w'.ledger.parts[id] == w.ledger.parts[id]
    && (id in w.leases ==> id in w'.leases && w'.leases[id] == w.leases[id])
  }

  /** A mark of another part. */
  lemma MarkSkips(w: World, s: Step, id: PartId)
    requires Legal(w, s) && id in w.ledger.parts && !Touches(s, id)
    requires s.Retry? || s.Skip? || s.Ignore? || s.Link? || s.IgnoreAtBaseline?
    ensures SameHold(w, Next(w, s), id)
  {
    hide ClaimAnswer, RetryDelay;
  }

  lemma RevokedHolds(w: World, ledger: Ledger, id: PartId)
    requires id in w.ledger.parts && id in ledger.parts && ledger.parts[id] == w.ledger.parts[id]
    requires !Terminal(w.ledger.parts[id].outcome)
    ensures SameHold(w, Revoked(w, ledger), id)
  {
  }

  /** A claim of another part, or of this one before its time. */
  lemma ClaimSkips(w: World, s: Step, id: PartId, end: int)
    requires s.Claim? && WaitsUntil(w, id, end) && (Asked(s) == id ==> s.now < end)
    ensures SameHold(w, Next(w, s), id)
  {
    if Asked(s) == id { EarlyClaimChangesNothing(w, s, end); }
    hide ClaimAnswer, Behind, LeaseEnd;
  }

  /** Steps that leave a waiting part alone keep its row and its lease. */
  lemma WaitingRowStays(w: World, s: Step, id: PartId, end: int)
    requires Legal(w, s) && WaitsUntil(w, id, end) && !Touches(s, id)
    requires s.Claim? && Asked(s) == id ==> s.now < end
    ensures SameHold(w, Next(w, s), id)
  {
    hide ClaimAnswer, Activate, SweepSource, EnsurePlan, CompleteIfDurable;
    match s
    case Claim(_, _, _, _, _, _, _) => ClaimSkips(w, s, id, end);
    case Plan(source, fill, planned, first) => PlanningSkips(w.ledger, source, fill, planned, first, id);
    case Complete(source, fillId, planned) =>
      CompletionSkips(w.ledger, source, fillId, planned, id);
      if CompleteIfDurable(w.ledger, source, fillId, planned).Ok? { RevokedHolds(w, Next(w, s).ledger, id); }
    case Restart(source, at, eligible, history) =>
      RestartSkips(w.ledger, source, at, eligible, history, id);
      RevokedHolds(w, Next(w, s).ledger, id);
    case Sweep(source, isProtected) =>
      SweepSkips(w.ledger, source, isProtected, id);
      RevokedHolds(w, Next(w, s).ledger, id);
    case NewOrder(_, _) =>
    case ResolveOrder(_) =>
    case MovePositions(_) =>
    case _ => MarkSkips(w, s, id);
  }

  lemma CompletionSkips(l: Ledger, source: string, fillId: FillId, planned: seq<Part>, id: PartId)
    requires id in l.parts && !Terminal(l.parts[id].outcome)
    ensures match CompleteIfDurable(l, source, fillId, planned)
            case Ok(l') => id in l'.parts && l'.parts[id] == l.parts[id]
            case Err(_) => true
  {
    hide Normalize;
    if CompleteIfDurable(l, source, fillId, planned).Ok? && OfFill(id, source, fillId) {
      assert id in FillParts(l, source, fillId);
    }
  }

  lemma PlanningSkips(
    l: Ledger, source: string, fill: OrderedFill, planned: seq<Part>, first: Option<int>, id: PartId)
    requires id in l.parts
    ensures match EnsurePlan(l, source, fill, planned, first)
            case Ok(l') => id in l'.parts && l'.parts[id] == l.parts[id]
            case Err(_) => true
  {
    hide Normalize, NewPart;
  }

  lemma RestartSkips(
    l: Ledger, source: string, at: int, eligible: bool, history: seq<HistoryFill>, id: PartId)
    requires id in l.parts && id.source != source
    ensures var l' := Activate(l, source, at, eligible, history); id in l'.parts && l'.parts[id] == l.parts[id]
  {
    hide NewestMs, IdsAt;
  }

  lemma SweepSkips(l: Ledger, source: string, isProtected: bool, id: PartId)
    requires id in l.parts && id.source != source
    ensures var l' := SweepSource(l, source, isProtected); id in l'.parts && l'.parts[id] == l.parts[id]
  {
    hide OwnsPosition, HasActiveOrder;
  }

  lemma {:induction false} WaitingPartStays(w: World, run: seq<Step>, id: PartId, end: int)
    requires Inv(w) && LegalRun(w, run) && WaitsUntil(w, id, end) && LeavesAlone(run, id, end)
    ensures Inv(Run(w, run)) && WaitsUntil(Run(w, run), id, end)
    ensures id in w.leases ==> id in Run(w, run).leases && Run(w, run).leases[id] == w.leases[id]
    decreases |run|
  {
    hide Inv, Next, Legal, Touches;
    if run != [] {
      assert forall k :: 0 <= k < |run[1..]| ==> run[1..][k] == run[k + 1];
      StepKeepsInv(w, run[0]);
      WaitingRowStays(w, run[0], id, end);
      WaitingPartStays(Next(w, run[0]), run[1..], id, end);
    }
  }

  lemma GrantWaits(w: World, s: Step)
    requires Granted(w, s)
    ensures Legal(w, s) && WaitsUntil(Next(w, s), Asked(s), s.now + MaxInt(s.leaseSeconds, 1) * 1_000_000)
    ensures Asked(s) in Next(w, s).leases && Next(w, s).leases[Asked(s)].worker == s.worker
  {
    ClaimConcernsUndecided(w.ledger, s.source, s.fill, s.part, s.now, s.entryIsStale);
    hide ClaimAnswer, Behind;
  }

  /** A claim granted at a time stands for the lease: whatever run leaves the part to its
      holder, its lease stays, and no claim of it before `now + max(leaseSeconds, 1)` seconds
      changes anything. */
  lemma {:induction false} GrantedClaimStands(w: World, s: Step, run: seq<Step>, rival: Step)
    requires Inv(w) && Granted(w, s) && LegalRun(Next(w, s), run)
    requires LeavesAlone(run, Asked(s), s.now + MaxInt(s.leaseSeconds, 1) * 1_000_000)
    requires rival.Claim? && Asked(rival) == Asked(s)
    requires rival.now < s.now + MaxInt(s.leaseSeconds, 1) * 1_000_000
    ensures var after := Run(Next(w, s), run);
            && Next(after, rival) == after
            && Asked(s) in after.leases && after.leases[Asked(s)].worker == s.worker
  {
    hide Inv, Next, LegalRun, ClaimAnswer, WaitsUntil, Run, LeavesAlone;
    var end := s.now + MaxInt(s.leaseSeconds, 1) * 1_000_000;
    GrantWaits(w, s);
    StepKeepsInv(w, s);
    WaitingPartStays(Next(w, s), run, Asked(s), end);
    EarlyClaimChangesNothing(Run(Next(w, s), run), rival, end);
  }

  /** A retry mark at a time holds the part back for its delay, in the same way. */
  lemma {:induction false} RetriedPartWaits(w: World, s: Step, run: seq<Step>, rival: Step)
    requires Inv(w) && s.Retry? && Legal(w, s) && LegalRun(Next(w, s), run)
    requires var attempts := w.ledger.parts[s.id].attemptCount + 1;
             var due := s.now + RetryDelay(attempts, s.baseSeconds, s.maxSeconds) * 1_000_000;
             LeavesAlone(run, s.id, due) && rival.Claim? && Asked(rival) == s.id && rival.now < due
    ensures Next(Run(Next(w, s), run), rival) == Run(Next(w, s), run)
  {
    hide Inv, Next, LegalRun, ClaimAnswer, WaitsUntil, Run, LeavesAlone, RetryDelay;
    var due := s.now + RetryDelay(w.ledger.parts[s.id].attemptCount + 1, s.baseSeconds, s.maxSeconds) * 1_000_000;
    RetryWaits(w, s);
    StepKeepsInv(w, s);
    WaitingPartStays(Next(w, s), run, s.id, due);
    EarlyClaimChangesNothing(Run(Next(w, s), run), rival, due);
  }

  lemma RetryWaits(w: World, s: Step)
    requires s.Retry? && Legal(w, s)
    ensures var delay := RetryDelay(w.ledger.parts[s.id].attemptCount + 1, s.baseSeconds, s.maxSeconds);
            WaitsUntil(Next(w, s), s.id, s.now + delay * 1_000_000)
  {
    hide RetryDelay;
  }

  // ------------------------------------------------------- when one is granted

  /** The fill and part a claim brings are those of the persisted row. */
  predicate SamePart(r: PartRow, fill: OrderedFill, p: Part) {
    r.columns == ColumnsOf(fill) && r.action == p.action && r.side == p.side
  }

  /** The fill was observed, and traded, no earlier than the activation's millisecond. */
  predicate SinceActivation(s: SourceState, fill: OrderedFill, firstObservedAt: Option<int>) {
    && firstObservedAt.Some? && s.activatedAt <= firstObservedAt.value
    && s.activatedAt < (fill.timestampMs + 1) * 1000
  }

  /** The entry goes on from a position of its side and market that was copied from an earlier fill. */
  predicate ContinuesCopied(l: Ledger, source: string, fill: OrderedFill, p: Part) {
    && p.action != FlipOpen && p.startPosition.Some?
    && (if p.side == Long then p.startPosition.value else -p.startPosition.value) > 0.000000000001
    && exists o :: o in l.positions && o.source == source && o.coin == fill.coin && o.side == p.side
                   && o.size > 0.000000000001 && o.lifecycle.Some?
                   && KeyLess(KeyOf(o.lifecycle.value.(coin := fill.coin)), FillOrderKey(fill))
  }

  /** The conditions of a claim, in terms of the market lane. */
  predicate Grantable(l: Ledger, source: string, fill: OrderedFill, p: Part, now: int, stale: bool) {
    var id := PartId(source, fill.fillId, p.sequenceIndex);
    && source in l.sources && l.sources[source].active
    && id in l.parts && SamePart(l.parts[id], fill, p) && l.parts[id].outcome in {Pending, Retryable}
    && (p.action in {Open, Add, FlipOpen} ==>
          SinceActivation(l.sources[source], fill, l.parts[id].firstObservedAt) || ContinuesCopied(l, source, fill, p))
    && ((p.action in {Open, Add, FlipOpen} && stale) || Cleared(l, id))
    && (l.parts[id].nextAttemptAt.Some? ==> l.parts[id].nextAttemptAt.value <= now)
  }

  lemma OwnedExactly(l: Ledger, source: string, fill: OrderedFill, p: Part)
    requires IsEntry(p.action)
    ensures FollowsOwnedPosition(l, source, fill, p) <==> ContinuesCopied(l, source, fill, p)
  {
    hide KeyLess, FillOrderKey;
    if ContinuesCopied(l, source, fill, p) {
      var o :| o in l.positions && o.source == source && o.coin == fill.coin && o.side == p.side
               && o.size > 0.000000000001 && o.lifecycle.Some?
               && KeyLess(KeyOf(o.lifecycle.value.(coin := fill.coin)), FillOrderKey(fill));
      var i :| 0 <= i < |l.positions| && l.positions[i] == o;
    }
  }

  lemma MatchesExactly(l: Ledger, id: PartId, fill: OrderedFill, p: Part)
    requires Whole(l) && CompleteIsTerminal(l) && id in l.parts && id.fillId == fill.fillId
    ensures MatchesPlan(l.parts[id], fill, p, |FillParts(l, id.source, id.fillId)|) <==> SamePart(l.parts[id], fill, p)
  {
    hide FillParts;
    WholeFillIsPlanned(l, id);
    assert WholeFill(l, id);
  }

  /** In a sound ledger a claim is granted exactly when its source is active, the part is the
      persisted one and undecided, an entry is fresh or continues a copied position, its lane is
      clear unless it is a stale entry, and it is due. */
  lemma GrantedExactly(l: Ledger, source: string, fill: OrderedFill, p: Part, now: int, stale: bool)
    requires Sound(l)
    ensures ClaimAnswer(l, source, fill, p, now, stale) == Claimed <==> Grantable(l, source, fill, p, now, stale)
  {
    hide FillParts, PlanIsWhole, FollowsOwnedPosition, ContinuesCopied, ColumnsOf, LaneBefore, Settled;
    hide MatchesPlan, SamePart, HasPriorBlocker, LowerBlocks;
    var id := PartId(source, fill.fillId, p.sequenceIndex);
    if id in l.parts {
      assert WholeFill(l, id);
      assert OfFill(id, source, fill.fillId);
      WholeFillIsPlanned(l, id);
      MatchesExactly(l, id, fill, p);
      if IsEntry(p.action) { OwnedExactly(l, source, fill, p); }
      assert l.parts[id].complete ==> Terminal(l.parts[id].outcome);
      assert l.parts[id].outcome.Pending? || l.parts[id].outcome.Retryable? || Terminal(l.parts[id].outcome);
      assert source in l.sources ==>
               (PostBaseline(l.sources[source], fill, l.parts[id].firstObservedAt)
                <==> SinceActivation(l.sources[source], fill, l.parts[id].firstObservedAt));
      var answer := ClaimAnswer(l, source, fill, p, now, stale);
      if !(IsEntry(p.action) && stale) && answer !in {MissingPlan, AlreadyComplete, AtBaseline} {
        BlockedExactly(l, source, fill, p, now, stale);
        assert Cleared(l, id) <==> answer != Blocked;
      }
    }
  }

  // ------------------------------------------------------------ what is shown

  /** The blocker shown of an earlier fill is the first in the lane of all that is not settled there. */
  lemma ShownPriorIsFirst(l: Ledger, source: string, fill: OrderedFill, sequence: int, b: PartId, o: PartId)
    requires Sound(l) && IsFirstPrior(l, source, fill, b)
    requires var id := PartId(source, fill.fillId, sequence); id in l.parts && l.parts[id].columns == ColumnsOf(fill)
    requires o in l.parts && o.fillId != fill.fillId && o != b && !Settled(l, o)
    requires LaneBefore(l, o, PartId(source, fill.fillId, sequence))
    ensures !Settled(l, b) && LaneBefore(l, b, PartId(source, fill.fillId, sequence)) && LaneBefore(l, b, o)
  {
    hide KeyLess, WholeFill, BlockerEarlier, Settled, Unresolved;
    BlockerIsUnsettled(l, source, fill, sequence, b);
    UnsettledIsPrior(l, source, fill, sequence, o);
    var x, y := KeyOf(l.parts[o].columns), KeyOf(l.parts[b].columns);
    if o.fillId == b.fillId {
      SiblingsShareColumns(l, o, b);
    } else {
      DifferentKeys(l, o, b);
      KeyLessIsTotal(x, y);
    }
  }

  lemma DifferentKeys(l: Ledger, a: PartId, b: PartId)
    requires Whole(l) && a in l.parts && b in l.parts && a.fillId != b.fillId
    ensures KeyOf(l.parts[a].columns).fillId != KeyOf(l.parts[b].columns).fillId
  {
    assert WholeFill(l, a) && WholeFill(l, b);
  }

  lemma UnsettledIsPrior(l: Ledger, source: string, fill: OrderedFill, sequence: int, o: PartId)
    requires Sound(l)
    requires var id := PartId(source, fill.fillId, sequence); id in l.parts && l.parts[id].columns == ColumnsOf(fill)
    requires o in l.parts && o.fillId != fill.fillId && !Settled(l, o)
    requires LaneBefore(l, o, PartId(source, fill.fillId, sequence))
    ensures PriorBlocks(l, o, source, fill)
  {
    hide KeyLess, BlockerEarlier, Sibling;
    assert WholeFill(l, o);
    BlockerOrder(l.parts[o].columns, ColumnsOf(fill));
    assert OfFill(o, o.source, o.fillId);
    assert l.parts[o].outcome.Pending? || l.parts[o].outcome.Retryable? || Terminal(l.parts[o].outcome);
  }
}
