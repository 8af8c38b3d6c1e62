/** One live account's durable copy state, and each lifecycle service step as a function on it.
    The account's advisory lock makes every step atomic. */
module LiveCopyLedger {
  import opened Numbers
  import opened Options
  import opened SqlLogic
  import opened SourceFillOrdering
  import opened SourceFillPlanning
  import opened PreexistingMarkets

  datatype Outcome = Pending | Retryable | OrderPlaced | TerminalSkip | BaselineIgnored

  const PlanVersion: int := 1
  const PositionEpsilon: real := 0.000000000001

  /** Times are microseconds. */
  const Second: int := 1_000_000

  datatype PartId = PartId(source: string, fillId: FillId, sequence: int)

  /** One planned part of a source fill. */
  datatype PartRow = PartRow(
    expectedCount: int, planVersion: int, action: Action, side: Side, columns: OrderColumns,
    firstObservedAt: Option<int>, outcome: Outcome, attemptCount: nat,
    nextAttemptAt: Option<int>, complete: bool, orderId: Option<nat>)

  datatype SourceState = SourceState(
    active: bool, entryEligible: bool, activatedAt: int,
    baselineMs: Option<int>, baselineIds: set<FillId>, markets: Markets)

  /** An order row, reduced to the part it was made for and whether its exchange effect is settled. */
  datatype Order = Order(part: PartId, resolved: bool)

  /** A copied position; its lifecycle columns are absent where any of them is NULL. */
  datatype Position = Position(source: string, coin: string, side: Side, size: real, lifecycle: Option<OrderColumns>)

  datatype Ledger = Ledger(
    sources: map<string, SourceState>, parts: map<PartId, PartRow>, orders: map<nat, Order>, positions: seq<Position>)

  predicate Terminal(o: Outcome) { o in {OrderPlaced, TerminalSkip, BaselineIgnored} }

  /** The part's order may still change on the exchange. */
  predicate Unresolved(l: Ledger, r: PartRow) {
    r.orderId.Some? && r.orderId.value in l.orders && !l.orders[r.orderId.value].resolved
  }

  /** The part is decided and its order effect is final. */
  predicate Settled(l: Ledger, id: PartId) {
    id in l.parts && Terminal(l.parts[id].outcome) && !Unresolved(l, l.parts[id])
  }

  predicate OfFill(id: PartId, source: string, fillId: FillId) { id.source == source && id.fillId == fillId }

  function FillParts(l: Ledger, source: string, fillId: FillId): set<PartId> {
    set id | id in l.parts && OfFill(id, source, fillId)
  }

  function PlanIds(source: string, fillId: FillId, n: nat): set<PartId> {
    set k: int | 0 <= k < n :: PartId(source, fillId, k)
  }

  // ------------------------------------------------------------ fill planning

  datatype StateError = BadPlan(fault: PlanError) | MissingFillId | UnexpectedSequences | DivergentPlan

  /** A persisted part agrees with the plan a caller brings. */
  predicate MatchesPlan(r: PartRow, fill: OrderedFill, p: Part, count: int) {
    var c := ColumnsOf(fill);
    && r.expectedCount == count && r.planVersion == PlanVersion
    && r.columns.coin == fill.coin && r.action == p.action && r.side == p.side
    && r.columns.timestampMs == fill.timestampMs && r.columns.directionRank == c.directionRank
    && r.columns.position == c.position && r.columns.numericId == c.numericId
  }

  function NewPart(fill: OrderedFill, p: Part, count: int, firstObservedAt: Option<int>): PartRow {
    PartRow(count, PlanVersion, p.action, p.side, ColumnsOf(fill), firstObservedAt, Pending, 0, None, false, None)
  }

  /** The persisted parts that the plan does not know. */
  predicate HasUnexpected(l: Ledger, source: string, fillId: FillId, n: nat) {
    exists id :: id in l.parts && OfFill(id, source, fillId) && !(0 <= id.sequence < n)
  }

  predicate HasDivergent(l: Ledger, source: string, fill: OrderedFill, parts: seq<Part>) {
    exists id :: id in l.parts && OfFill(id, source, fill.fillId) && 0 <= id.sequence < |parts|
                 && !MatchesPlan(l.parts[id], fill, parts[id.sequence], |parts|)
  }

  /** The parts the plan adds. */
  function MissingParts(
    l: Ledger, source: string, fill: OrderedFill, parts: seq<Part>, firstObservedAt: Option<int>): map<PartId, PartRow>
  {
    map id | id in PlanIds(source, fill.fillId, |parts|) && id !in l.parts ::
      NewPart(fill, parts[id.sequence], |parts|, firstObservedAt)
  }

  /** Persists every part of one fill's plan, or refuses a plan that differs from the persisted one. */
  function EnsurePlan(
    l: Ledger, source: string, fill: OrderedFill, planned: seq<Part>, firstObservedAt: Option<int>):
    Result<Ledger, StateError>
  {
    match Normalize(planned)
    case Err(e) => Err(BadPlan(e))
    case Ok(parts) =>
      if fill.fillId == "" then Err(MissingFillId)
      else if HasUnexpected(l, source, fill.fillId, |parts|) then Err(UnexpectedSequences)
      else if HasDivergent(l, source, fill, parts) then Err(DivergentPlan)
      else Ok(l.(parts := l.parts + MissingParts(l, source, fill, parts, firstObservedAt)))
  }

  // ------------------------------------------------------------------ claims

  /** Entries need a durable observation and a source time after activation. */
  predicate PostBaseline(s: SourceState, fill: OrderedFill, firstObservedAt: Option<int>) {
    && firstObservedAt.Some? && firstObservedAt.value >= s.activatedAt
    && fill.timestampMs >= s.activatedAt / 1000
  }

  predicate SameSideContinuation(p: Part) {
    && p.action in {Open, Add} && p.startPosition.Some?
    && (if p.side == Long then p.startPosition.value > PositionEpsilon else p.startPosition.value < -PositionEpsilon)
  }

  predicate FollowsOwnedPosition(l: Ledger, source: string, fill: OrderedFill, p: Part) {
    && SameSideContinuation(p)
    && exists i :: 0 <= i < |l.positions|
                   && var o := l.positions[i];
                      && o.source == source && o.coin == fill.coin && o.side == p.side && o.size > PositionEpsilon
                      && o.lifecycle.Some? && KeyLess(KeyOf(o.lifecycle.value).(coin := o.coin), FillOrderKey(fill))
  }

  predicate LowerBlocks(l: Ledger, id: PartId, source: string, fillId: FillId, sequence: int) {
    && id in l.parts && OfFill(id, source, fillId) && id.sequence < sequence
    && (!Terminal(l.parts[id].outcome) || Unresolved(l, l.parts[id]))
  }

  /** An earlier unfinished part of the same market lane, by the blocker query's own conditions. */
  predicate PriorBlocks(l: Ledger, id: PartId, source: string, fill: OrderedFill) {
    && id in l.parts && id.source == source && l.parts[id].columns.coin == fill.coin
    && ((!l.parts[id].complete && l.parts[id].outcome in {Pending, Retryable}) || Unresolved(l, l.parts[id]))
    && Where(BlockerEarlier(l.parts[id].columns, ColumnsOf(fill)))
  }

  predicate HasPriorBlocker(l: Ledger, source: string, fill: OrderedFill) {
    && fill.fillId != "" && fill.coin != ""
    && exists id :: id in l.parts && PriorBlocks(l, id, source, fill)
  }

  /** `has_prior_incomplete` of the recovery query, over the same rows. */
  predicate RecoverySeesPrior(l: Ledger, source: string, fill: OrderedFill) {
    exists id :: id in l.parts && id.source == source && l.parts[id].columns.coin == fill.coin
                 && ((!l.parts[id].complete && l.parts[id].outcome in {Pending, Retryable})
                     || Unresolved(l, l.parts[id]))
                 && Where(PrecedesWalletFill(l.parts[id].columns, fill))
  }

  /** Recovery sees a prior incomplete fill exactly when the claim barrier finds a blocker. */
  lemma RecoverySeesWhatClaimSees(l: Ledger, source: string, fill: OrderedFill)
    requires !ReadersDisagree(fill.start) && fill.fillId != "" && fill.coin != ""
    ensures RecoverySeesPrior(l, source, fill) <==> HasPriorBlocker(l, source, fill)
  {
    forall id | id in l.parts && l.parts[id].columns.coin == fill.coin
      ensures Where(PrecedesWalletFill(l.parts[id].columns, fill))
              <==> Where(BlockerEarlier(l.parts[id].columns, ColumnsOf(fill)))
    {
      RecoveryOrder(l.parts[id].columns, fill);
      BlockerOrder(l.parts[id].columns, ColumnsOf(fill));
      PersistedColumnsKeepTheKey(fill);
    }
  }

  datatype ClaimReason = Claimed | AtBaseline | Blocked | AlreadyComplete | MissingPlan | NotDue

  predicate PlanIsWhole(l: Ledger, source: string, fillId: FillId) {
    var ids := FillParts(l, source, fillId);
    && ids != {} && ids == PlanIds(source, fillId, |ids|)
    && (forall id :: id in ids ==> l.parts[id].expectedCount == |ids| && l.parts[id].planVersion == PlanVersion)
  }

  /** What `claim_live_copy_fill_part` answers; only `Claimed` changes the ledger. */
  function ClaimAnswer(
    l: Ledger, source: string, fill: OrderedFill, p: Part, now: int, entryIsStale: bool): ClaimReason
  {
    var id := PartId(source, fill.fillId, p.sequenceIndex);
    if source !in l.sources || !l.sources[source].active then MissingPlan
    else if fill.fillId == "" || id !in l.parts || !PlanIsWhole(l, source, fill.fillId) then MissingPlan
    else if !MatchesPlan(l.parts[id], fill, p, |FillParts(l, source, fill.fillId)|) then MissingPlan
    else if l.parts[id].complete || Terminal(l.parts[id].outcome) then AlreadyComplete
    else if IsEntry(p.action) && !PostBaseline(l.sources[source], fill, l.parts[id].firstObservedAt)
            && !FollowsOwnedPosition(l, source, fill, p) then AtBaseline
    else if !(IsEntry(p.action) && entryIsStale)
            && ((exists o :: o in l.parts && LowerBlocks(l, o, source, fill.fillId, p.sequenceIndex))
                || HasPriorBlocker(l, source, fill)) then Blocked
    else if l.parts[id].nextAttemptAt.Some? && l.parts[id].nextAttemptAt.value > now then NotDue
    else Claimed
  }

  function LeaseEnd(now: int, leaseSeconds: int): int { now + MaxInt(leaseSeconds, 1) * Second }

  function WithLease(l: Ledger, id: PartId, until: int): Ledger
    requires id in l.parts
  {
    l.(parts := l.parts[id := l.parts[id].(outcome := Retryable, nextAttemptAt := Some(until))])
  }

  // ------------------------------------------------------------------- marks

  function RetryDelay(attempts: int, baseSeconds: int, maxSeconds: int): int {
    var base := MaxInt(baseSeconds, 1);
    MinInt(base * Pow2(MinInt(MaxInt(attempts - 1, 0), 16)), MaxInt(maxSeconds, base))
  }

  /** The delay starts at the base, doubles with every failed attempt until the cap, and never shrinks. */
  lemma RetryDelayDoubles(attempts: int, baseSeconds: int, maxSeconds: int)
    ensures var cap := MaxInt(maxSeconds, MaxInt(baseSeconds, 1));
            var now := RetryDelay(attempts, baseSeconds, maxSeconds);
            var next := RetryDelay(attempts + 1, baseSeconds, maxSeconds);
            && 1 <= now <= next <= cap
            && (attempts <= 1 ==> now == MaxInt(baseSeconds, 1))
            && (1 <= attempts <= 16 ==> next == MinInt(2 * now, cap))
            && (attempts > 16 ==> next == now)
  {
    var base := MaxInt(baseSeconds, 1);
    var exponent := MinInt(MaxInt(attempts - 1, 0), 16);
    ScalesByTwo(base, exponent);
    hide Pow2;
    if attempts <= 1 { assert exponent == 0; }
    if 1 <= attempts <= 16 { assert MinInt(MaxInt(attempts + 1 - 1, 0), 16) == exponent + 1; }
  }

  lemma ScalesByTwo(base: int, exponent: nat)
    requires base >= 1
    ensures base <= base * Pow2(exponent)
    ensures base * Pow2(exponent + 1) == 2 * (base * Pow2(exponent))
    ensures base * Pow2(0) == base
  {
    assert base * (Pow2(exponent) - 1) >= 0;
  }

  function MarkRetryable(l: Ledger, id: PartId, now: int, baseSeconds: int, maxSeconds: int): Ledger
    requires id in l.parts
  {
    var r := l.parts[id];
    var delay := RetryDelay(r.attemptCount + 1, baseSeconds, maxSeconds);
    l.(parts := l.parts[id := r.(outcome := Retryable, attemptCount := r.attemptCount + 1,
                                 nextAttemptAt := Some(now + delay * Second), complete := false, orderId := None)])
  }

  function Decide(r: PartRow, outcome: Outcome, orderId: Option<nat>): PartRow {
    r.(outcome := outcome, nextAttemptAt := None, complete := false, orderId := orderId)
  }

  function MarkTerminalSkip(l: Ledger, id: PartId): Ledger
    requires id in l.parts
  {
    l.(parts := l.parts[id := Decide(l.parts[id], TerminalSkip, None)])
  }

  /** Also records the market's marker when the caller asks for it. */
  function MarkBaselineIgnored(l: Ledger, id: PartId, p: Part, recordMarket: bool): Ledger
    requires id in l.parts
  {
    var r := l.parts[id];
    var sources :=
      if recordMarket && id.source in l.sources
      then l.sources[id.source := l.sources[id.source].(markets :=
             UpdateForPart(l.sources[id.source].markets, r.columns.coin, p, id.fillId, r.columns.timestampMs))]
      else l.sources;
    l.(sources := sources, parts := l.parts[id := Decide(r, BaselineIgnored, None)])
  }

  /** Links a durable order of the same part; an order of another part is refused. */
  function LinkOrder(l: Ledger, id: PartId, order: nat, terminalSkip: bool): Option<Ledger>
    requires id in l.parts
  {
    if order !in l.orders || l.orders[order].part != id then None
    else
      var outcome := if terminalSkip then TerminalSkip else OrderPlaced;
      Some(l.(parts := l.parts[id := Decide(l.parts[id], outcome, Some(order))]))
  }

  predicate CanComplete(l: Ledger, source: string, fillId: FillId, parts: seq<Part>) {
    && FillParts(l, source, fillId) == PlanIds(source, fillId, |parts|)
    && (forall id :: id in PlanIds(source, fillId, |parts|) ==>
          id in l.parts && Terminal(l.parts[id].outcome)
          && l.parts[id].expectedCount == |parts| && l.parts[id].planVersion == PlanVersion)
  }

  /** Marks every part of a fill complete, once all of them are terminal. */
  function CompleteIfDurable(l: Ledger, source: string, fillId: FillId, planned: seq<Part>): Result<Ledger, PlanError> {
    match Normalize(planned)
    case Err(e) => Err(e)
    case Ok(parts) =>
      if !CanComplete(l, source, fillId, parts) then Ok(l)
      else Ok(l.(parts := map id | id in l.parts ::
                   if OfFill(id, source, fillId) then l.parts[id].(complete := true, nextAttemptAt := None)
                   else l.parts[id]))
  }

  // ------------------------------------------------- activation and deactivation

  /** An imported fill of the source, as the baseline query sees it. */
  datatype HistoryFill = HistoryFill(fillId: FillId, timestampMs: int)

  function NewestMs(history: seq<HistoryFill>): Option<int> {
    if history == [] then None
    else
      var n := |history| - 1;
      match NewestMs(history[..n])
      case None => Some(history[n].timestampMs)
      case Some(ms) => Some(MaxInt(ms, history[n].timestampMs))
  }

  function IdsAt(history: seq<HistoryFill>, ms: Option<int>): set<FillId> {
    set h | h in history && ms == Some(h.timestampMs) :: h.fillId
  }

  predicate AtOrBeforeBaseline(r: PartRow, id: PartId, ms: int, ids: set<FillId>) {
    r.columns.timestampMs < ms || (r.columns.timestampMs == ms && id.fillId in ids)
  }

  /** An unfinished entry the restart baseline covers. */
  predicate ClosedByBaseline(l: Ledger, id: PartId, source: string, ms: Option<int>, ids: set<FillId>) {
    && id in l.parts && id.source == source && ms.Some?
    && IsEntry(l.parts[id].action) && l.parts[id].outcome in {Pending, Retryable}
    && AtOrBeforeBaseline(l.parts[id], id, ms.value, ids)
  }

  /** A fill with a closed entry whose parts are all terminal afterwards. */
  predicate FinishedByBaseline(l: Ledger, source: string, fillId: FillId, ms: Option<int>, ids: set<FillId>) {
    && (exists o :: o in l.parts && OfFill(o, source, fillId) && ClosedByBaseline(l, o, source, ms, ids))
    && (forall o :: o in l.parts && OfFill(o, source, fillId) ==>
          Terminal(l.parts[o].outcome) || ClosedByBaseline(l, o, source, ms, ids))
  }

  function AfterBaseline(l: Ledger, id: PartId, source: string, ms: Option<int>, ids: set<FillId>): PartRow
    requires id in l.parts
  {
    var r :=
      if ClosedByBaseline(l, id, source, ms, ids) then Decide(l.parts[id], BaselineIgnored, None) else l.parts[id];
    if id.source == source && FinishedByBaseline(l, source, id.fillId, ms, ids) then r.(complete := true) else r
  }

  /** A fresh baseline for a source that is eligible again. */
  function Activate(
    l: Ledger, source: string, activatedAt: int, entryEligible: bool, history: seq<HistoryFill>): Ledger
  {
    var ms := NewestMs(history);
    var ids := IdsAt(history, ms);
    l.(sources := l.sources[source := SourceState(true, entryEligible, activatedAt, ms, ids, map[])],
       parts := map id | id in l.parts :: AfterBaseline(l, id, source, ms, ids))
  }

  predicate OwnsPosition(l: Ledger, source: string) {
    exists i :: 0 <= i < |l.positions| && l.positions[i].source == source && l.positions[i].size > PositionEpsilon
  }

  predicate HasActiveOrder(l: Ledger, source: string) {
    exists o :: o in l.orders && l.orders[o].part.source == source && !l.orders[o].resolved
  }

  predicate ClosedByDeactivation(l: Ledger, id: PartId, source: string) {
    id in l.parts && id.source == source && !l.parts[id].complete && l.parts[id].outcome in {Pending, Retryable}
  }

  /** The activity sweep for one source that lost its eligibility: it stops entries, and
      deactivates the source once it is flat with no order in flight. */
  function SweepSource(l: Ledger, source: string, isProtected: bool): Ledger {
    if source !in l.sources || !l.sources[source].active || isProtected then l
    else
      var stopped := l.sources[source].(entryEligible := false);
      if OwnsPosition(l, source) || HasActiveOrder(l, source) then l.(sources := l.sources[source := stopped])
      else l.(sources := l.sources[source := stopped.(active := false, markets := map[])],
              parts := map id | id in l.parts ::
                if ClosedByDeactivation(l, id, source)
                then Decide(l.parts[id], BaselineIgnored, None).(complete := true) else l.parts[id])
  }
}
