/** The local weight limiter of one process, its runs, and the fallback between the two budgets. */
module InfoLimiter {
  import opened Numbers
  import opened Options
  import opened InfoBudget
  import Runs = InfoBudgetRuns

  /** `tokens` is absent until the first acquire. */
  datatype Limiter = Limiter(tokens: Option<real>, capacity: real, updatedAt: real, waitingExecution: nat)

  const MinSleep: real := 0.05

  function LocalRate(weightPerMinute: nat): real { weightPerMinute as real / 60.0 }

  /** The capacity varies from call to call: a quarter minute's weight, or the request if it is heavier. */
  function CapacityFor(weight: nat, weightPerMinute: nat): real {
    MaxReal(weight as real, weightPerMinute as real / 4.0)
  }

  function Refill(l: Limiter, rate: real, capacity: real, now: real): Limiter {
    l.(capacity := capacity, updatedAt := now,
       tokens := Some(if l.tokens.None? then capacity
                      else MinReal(capacity, l.tokens.value + Supply(now - l.updatedAt, rate))))
  }

  predicate MayTake(l: Limiter, p: Priority) { p == Execution || l.waitingExecution == 0 }

  /** One turn of the acquire loop: the weight is taken, or the sleep before the next turn.
      Without a rate the limiter is off and grants at once. */
  function Attempt(l: Limiter, weight: nat, p: Priority, weightPerMinute: nat, now: real): (Limiter, Option<real>) {
    if weightPerMinute == 0 then (l, None) else LimitedAttempt(l, weight, p, weightPerMinute, now)
  }

  function LimitedAttempt(
    l: Limiter, weight: nat, p: Priority, weightPerMinute: nat, now: real): (Limiter, Option<real>)
    requires weightPerMinute > 0
  {
    var rate := LocalRate(weightPerMinute);
    var r := Refill(l, rate, CapacityFor(weight, weightPerMinute), now);
    if MayTake(r, p) && r.tokens.value >= weight as real
    then (r.(tokens := Some(r.tokens.value - weight as real)), None)
    else (r, Some(MaxReal(MaxReal(weight as real - r.tokens.value, 0.0) / rate, MinSleep)))
  }

  /** Settling a local grant: unused weight is returned up to the capacity, extra weight charged. */
  function SettleLocal(l: Limiter, unused: int): Limiter {
    if l.tokens.None? then l
    else if unused > 0 then l.(tokens := Some(MinReal(l.capacity, l.tokens.value + unused as real)))
    else l.(tokens := Some(l.tokens.value + unused as real))
  }

  class HyperliquidInfoRateLimiter {
    var tokens: Option<real>
    var capacity: real
    var updatedAt: real
    var waitingExecution: nat

    ghost function State(): Limiter
      reads this
    {
      Limiter(tokens, capacity, updatedAt, waitingExecution)
    }

    constructor ()
      ensures State() == Limiter(None, 0.0, 0.0, 0)
    {
      tokens, capacity, updatedAt, waitingExecution := None, 0.0, 0.0, 0;
    }

    method Arrive(p: Priority)
      modifies this
      ensures State() == old(State()).(waitingExecution := old(waitingExecution) + if p == Execution then 1 else 0)
    {
      if p == Execution { waitingExecution := waitingExecution + 1; }
    }

    method Leave(p: Priority)
      requires p == Execution ==> waitingExecution > 0
      modifies this
      ensures State() == old(State()).(waitingExecution := old(waitingExecution) - if p == Execution then 1 else 0)
    {
      if p == Execution { waitingExecution := waitingExecution - 1; }
    }

    method TryTake(weight: nat, p: Priority, weightPerMinute: nat, now: real) returns (sleep: Option<real>)
      modifies this
      ensures (State(), sleep) == Attempt(old(State()), weight, p, weightPerMinute, now)
    {
      if weightPerMinute == 0 { return None; }
      var rate := LocalRate(weightPerMinute);
      var callCapacity := CapacityFor(weight, weightPerMinute);
      capacity := callCapacity;
      if tokens.None? {
        tokens := Some(callCapacity);
      } else {
        tokens := Some(MinReal(callCapacity, tokens.value + Supply(now - updatedAt, rate)));
      }
      updatedAt := now;
      var mayTake := p == Execution || waitingExecution == 0;
      if mayTake && tokens.value >= weight as real {
        tokens := Some(tokens.value - weight as real);
        return None;
      }
      var missing := MaxReal(weight as real - tokens.value, 0.0);
      sleep := Some(MaxReal(missing / rate, MinSleep));
    }

    method Charge(weight: int)
      modifies this
      ensures weight > 0 ==> State() == SettleLocal(old(State()), -weight)
      ensures State() == old(State()).(tokens := tokens)
      ensures weight > 0 && old(tokens).Some? ==> tokens == Some(old(tokens).value - weight as real)
      ensures weight <= 0 ==> State() == old(State())
    {
      if weight > 0 && tokens.Some? { tokens := Some(tokens.value - weight as real); }
    }

    method Refund(weight: int)
      modifies this
      ensures weight > 0 ==> State() == SettleLocal(old(State()), weight)
      ensures State() == old(State()).(tokens := tokens)
      ensures weight > 0 && old(tokens).Some? ==>
                tokens == Some(if old(tokens).value + weight as real < capacity then old(tokens).value + weight as real
                               else capacity)
      ensures weight <= 0 ==> State() == old(State())
    {
      if weight > 0 && tokens.Some? { tokens := Some(MinReal(capacity, tokens.value + weight as real)); }
    }
  }

  // ------------------------------------------------------------- whole runs

  /** The limiter with an account of what it granted; `start` and `first` are the time
      and the capacity of the first acquire. */
  datatype LocalBooks = LocalBooks(l: Limiter, outstanding: seq<nat>, used: nat, first: real, start: real, now: real)

  datatype Event =
    | Arrive
    | Leave
    | Try(weight: nat, priority: Priority, at: real)
    | Settle(i: nat, usedWeight: nat)

  predicate Legal(b: LocalBooks, e: Event) {
    match e
    case Arrive => true
    case Leave => b.l.waitingExecution > 0
    case Try(_, _, at) => b.now <= at
    case Settle(i, usedWeight) => i < |b.outstanding| && usedWeight <= b.outstanding[i]
  }

  function Step(b: LocalBooks, weightPerMinute: nat, e: Event): LocalBooks
    requires weightPerMinute > 0 && Legal(b, e)
  {
    match e
    case Arrive => b.(l := b.l.(waitingExecution := b.l.waitingExecution + 1))
    case Leave => b.(l := b.l.(waitingExecution := b.l.waitingExecution - 1))
    case Try(weight, p, at) =>
      var (l, sleep) := Attempt(b.l, weight, p, weightPerMinute, at);
      var begun := if b.l.tokens.None? then b.(first := CapacityFor(weight, weightPerMinute), start := at) else b;
      begun.(l := l, now := at,
              outstanding := if sleep.None? then b.outstanding + [weight] else b.outstanding)
    case Settle(i, usedWeight) =>
      b.(l := SettleLocal(b.l, b.outstanding[i] - usedWeight), used := b.used + usedWeight,
         outstanding := b.outstanding[..i] + b.outstanding[i + 1..])
  }

  predicate LegalRun(b: LocalBooks, weightPerMinute: nat, run: seq<Event>)
    requires weightPerMinute > 0
    decreases |run|
  {
    run == [] || (Legal(b, run[0]) && LegalRun(Step(b, weightPerMinute, run[0]), weightPerMinute, run[1..]))
  }

  function Run(b: LocalBooks, weightPerMinute: nat, run: seq<Event>): LocalBooks
    requires weightPerMinute > 0 && LegalRun(b, weightPerMinute, run)
    decreases |run|
  {
    if run == [] then b else Run(Step(b, weightPerMinute, run[0]), weightPerMinute, run[1..])
  }

  function Given(b: LocalBooks): real { (b.used + Runs.Total(b.outstanding)) as real }

  predicate Inv(b: LocalBooks, weightPerMinute: nat) {
    match b.l.tokens
    case None => b.outstanding == [] && b.used == 0
    case Some(t) =>
      && 0.0 <= t <= b.l.capacity && b.start <= b.l.updatedAt == b.now
      && t + Given(b) <= b.first + Supply(b.l.updatedAt - b.start, LocalRate(weightPerMinute))
  }

  lemma StepKeepsInv(b: LocalBooks, weightPerMinute: nat, e: Event)
    requires weightPerMinute > 0 && Inv(b, weightPerMinute) && Legal(b, e)
    ensures Inv(Step(b, weightPerMinute, e), weightPerMinute)
  {
    hide Supply;
    var rate := LocalRate(weightPerMinute);
    assert Runs.Total([]) == 0;
    match e {
      case Arrive =>
      case Leave =>
      case Try(weight, p, at) =>
        Runs.TotalAppend(b.outstanding, weight);
        NoSupply(rate);
        if b.l.tokens.Some? {
          SupplySign(at - b.l.updatedAt, rate);
          SupplySplits(b.l.updatedAt - b.start, at - b.l.updatedAt, rate);
        }
      case Settle(i, usedWeight) =>
        Runs.TotalRemove(b.outstanding, i);
    }
  }

  lemma NoSupply(rate: real)
    ensures Supply(0.0, rate) == 0.0
  {
  }

  lemma {:induction false} RunKeepsInv(b: LocalBooks, weightPerMinute: nat, run: seq<Event>)
    requires weightPerMinute > 0 && Inv(b, weightPerMinute) && LegalRun(b, weightPerMinute, run)
    ensures Inv(Run(b, weightPerMinute, run), weightPerMinute)
    decreases |run|
  {
    if run != [] {
      StepKeepsInv(b, weightPerMinute, run[0]);
      RunKeepsInv(Step(b, weightPerMinute, run[0]), weightPerMinute, run[1..]);
    }
  }

  function Fresh(): LocalBooks { LocalBooks(Limiter(None, 0.0, 0.0, 0), [], 0, 0.0, 0.0, 0.0) }

  /** However the capacity varies from call to call, used and reserved weight stay within
      the first call's capacity plus the rate since then, and the tokens never go negative. */
  lemma LocalRateBound(weightPerMinute: nat, run: seq<Event>)
    requires weightPerMinute > 0 && LegalRun(Fresh(), weightPerMinute, run)
    ensures var b := Run(Fresh(), weightPerMinute, run);
            b.l.tokens.Some? ==>
              && 0.0 <= b.l.tokens.value
              && Given(b) <= b.first + Supply(b.now - b.start, LocalRate(weightPerMinute))
  {
    RunKeepsInv(Fresh(), weightPerMinute, run);
  }

  /** The first acquire's capacity is a quarter minute's weight, or its own weight if that is more. */
  lemma {:induction false} FirstCapacity(b: LocalBooks, weightPerMinute: nat, run: seq<Event>, heaviest: nat)
    requires weightPerMinute > 0 && LegalRun(b, weightPerMinute, run)
    requires forall i :: 0 <= i < |run| && run[i].Try? ==> run[i].weight <= heaviest
    requires b.l.tokens.Some? ==> b.first <= MaxReal(heaviest as real, weightPerMinute as real / 4.0)
    ensures var b' := Run(b, weightPerMinute, run);
            b'.l.tokens.Some? ==> b'.first <= MaxReal(heaviest as real, weightPerMinute as real / 4.0)
    decreases |run|
  {
    if run != [] {
      var e := run[0];
      assert e.Try? ==> e.weight <= heaviest;
      FirstCapacity(Step(b, weightPerMinute, e), weightPerMinute, run[1..], heaviest);
    }
  }

  /** In any run, what requests of at most a given weight use or reserve stays within that weight or
      a quarter minute's, whichever is more, plus the rate since the first of them. */
  lemma LocalUseIsBounded(weightPerMinute: nat, run: seq<Event>, heaviest: nat)
    requires weightPerMinute > 0 && LegalRun(Fresh(), weightPerMinute, run)
    requires forall i :: 0 <= i < |run| && run[i].Try? ==> run[i].weight <= heaviest
    ensures var b := Run(Fresh(), weightPerMinute, run);
            b.l.tokens.Some? ==>
              (b.used + Runs.Total(b.outstanding)) as real
              <= MaxReal(heaviest as real, weightPerMinute as real / 4.0)
                 + Supply(b.now - b.start, weightPerMinute as real / 60.0)
  {
    LocalRateBound(weightPerMinute, run);
    FirstCapacity(Fresh(), weightPerMinute, run, heaviest);
  }

  /** The tokens make up a quarter minute's weight with what was given away and never came back. */
  predicate Full(b: LocalBooks, weightPerMinute: nat) {
    b.l.tokens.Some? ==>
      && b.l.tokens.value + Given(b) >= weightPerMinute as real / 4.0
      && b.l.capacity >= weightPerMinute as real / 4.0
  }

  lemma StepKeepsFull(b: LocalBooks, weightPerMinute: nat, e: Event)
    requires weightPerMinute > 0 && Inv(b, weightPerMinute) && Full(b, weightPerMinute) && Legal(b, e)
    ensures Full(Step(b, weightPerMinute, e), weightPerMinute)
  {
    hide Supply;
    match e {
      case Arrive =>
      case Leave =>
      case Try(weight, p, at) =>
        Runs.TotalAppend(b.outstanding, weight);
        if b.l.tokens.Some? { SupplySign(at - b.l.updatedAt, LocalRate(weightPerMinute)); }
      case Settle(i, usedWeight) => Runs.TotalRemove(b.outstanding, i);
    }
  }

  lemma {:induction false} RunKeepsFull(b: LocalBooks, weightPerMinute: nat, run: seq<Event>)
    requires weightPerMinute > 0 && Inv(b, weightPerMinute) && Full(b, weightPerMinute)
    requires LegalRun(b, weightPerMinute, run)
    ensures Full(Run(b, weightPerMinute, run), weightPerMinute)
    decreases |run|
  {
    if run != [] {
      StepKeepsInv(b, weightPerMinute, run[0]);
      StepKeepsFull(b, weightPerMinute, run[0]);
      RunKeepsFull(Step(b, weightPerMinute, run[0]), weightPerMinute, run[1..]);
    }
  }

  /** However the capacity varies, the limiter loses no weight: its tokens and the weight used
      or still reserved together are at least a quarter minute's weight. */
  lemma LocalWeightIsKept(weightPerMinute: nat, run: seq<Event>)
    requires weightPerMinute > 0 && LegalRun(Fresh(), weightPerMinute, run)
    ensures var b := Run(Fresh(), weightPerMinute, run);
            b.l.tokens.Some? ==>
              b.l.tokens.value + (b.used + Runs.Total(b.outstanding)) as real >= weightPerMinute as real / 4.0
  {
    RunKeepsFull(Fresh(), weightPerMinute, run);
  }

  /** The sleep is long enough: an execution request that nobody interferes with takes its
      weight on the next turn, and a background request does so once no execution waits. */
  lemma LocalSleepIsSufficient(l: Limiter, weight: nat, p: Priority, weightPerMinute: nat, now: real)
    requires MayTake(l, p)
    ensures var (l', sleep) := Attempt(l, weight, p, weightPerMinute, now);
            sleep.Some? ==> Attempt(l', weight, p, weightPerMinute, now + sleep.value).1 == None
  {
    var rate := LocalRate(weightPerMinute);
    var (l', sleep) := Attempt(l, weight, p, weightPerMinute, now);
    if sleep.Some? {
      var missing := weight as real - l'.tokens.value;
      SupplyOfQuotient(missing, rate);
      SupplySplits(missing / rate, sleep.value - missing / rate, rate);
      SupplySign(sleep.value - missing / rate, rate);
    }
  }

  /** A turn grants exactly when the tokens, refilled up to the call's own capacity, hold the weight,
      and for background work no execution request waits; a grant takes the weight and a refusal nothing. */
  lemma LocalGrantedExactly(l: Limiter, weight: nat, p: Priority, weightPerMinute: nat, now: real)
    requires weightPerMinute > 0
    ensures var (l', sleep) := Attempt(l, weight, p, weightPerMinute, now);
            var capacity := if weight as real > weightPerMinute as real / 4.0 then weight as real
                            else weightPerMinute as real / 4.0;
            var grown := if l.tokens.None? then capacity
                         else l.tokens.value + Supply(now - l.updatedAt, weightPerMinute as real / 60.0);
            var held := if grown < capacity then grown else capacity;
            && (sleep.None? <==> held >= weight as real && (p == Execution || l.waitingExecution == 0))
            && l' == l.(tokens := Some(if sleep.None? then held - weight as real else held),
                        capacity := capacity, updatedAt := now)
  {
  }

  /** The sleep is no longer than needed: a try before its end, and after the shortest sleep, is refused. */
  lemma LocalSleepIsNeeded(l: Limiter, weight: nat, p: Priority, weightPerMinute: nat, now: real, later: real)
    requires weightPerMinute > 0 && Attempt(l, weight, p, weightPerMinute, now).1.Some?
    requires now <= later < now + Attempt(l, weight, p, weightPerMinute, now).1.value
    requires Attempt(l, weight, p, weightPerMinute, now).1.value > 0.05
    ensures Attempt(Attempt(l, weight, p, weightPerMinute, now).0, weight, p, weightPerMinute, later).1.Some?
  {
    var rate := LocalRate(weightPerMinute);
    var (l', sleep) := Attempt(l, weight, p, weightPerMinute, now);
    var missing := MaxReal(weight as real - l'.tokens.value, 0.0);
    SupplyOfQuotient(missing, rate);
    SupplySplits(missing / rate - (later - now), later - now, rate);
    SupplySign(missing / rate - (later - now), rate);
    SupplySign(missing / rate, rate);
  }

  // ----------------------------------------------------- one budget of the two

  datatype Mode = SharedMode | LocalMode

  datatype Grant = Grant(weight: nat, priority: Priority, mode: Mode)

  const RetrySeconds: real := 30.0
  const YieldSeconds: real := 0.05

  /** Where one acquire stands: it chooses its budget once, and falls back once if Redis fails it. */
  datatype Phase = Starting | OnShared | OnLocal

  /** One turn's answer: a grant, or how long to sleep before the next turn. */
  datatype Turn = Granted(grant: Grant) | SleepFor(seconds: real, phase: Phase)

  /** What the requests of one process share, and what all processes share. */
  datatype Budgets = Budgets(
    bucket: Option<Bucket>, limiter: Limiter, unavailableUntil: Option<real>, waitingExecution: nat)

  predicate RetryPending(b: Budgets, now: real) { b.unavailableUntil.Some? && now < b.unavailableUntil.value }

  /** An execution request in the local loop is one of those that wait there. */
  predicate CountedIn(l: Limiter, p: Priority, weightPerMinute: nat) {
    p == Execution && weightPerMinute > 0 ==> l.waitingExecution > 0
  }

  function Waiting(l: Limiter, p: Priority, change: int): Limiter
    requires p == Execution ==> l.waitingExecution + change >= 0
  {
    if p == Execution then l.(waitingExecution := l.waitingExecution + change) else l
  }

  /** A turn in the local loop; an execution request counts as waiting until it is granted. */
  function LocalTurn(
    b: Budgets, weight: nat, p: Priority, weightPerMinute: nat, entering: bool, now: real): (Budgets, Turn)
    requires entering || CountedIn(b.limiter, p, weightPerMinute)
  {
    if weightPerMinute == 0 then (b, Granted(Grant(weight, p, LocalMode)))
    else
      var l := if entering then Waiting(b.limiter, p, 1) else b.limiter;
      var (l', sleep) := Attempt(l, weight, p, weightPerMinute, now);
      if sleep.Some? then (b.(limiter := l'), SleepFor(sleep.value, OnLocal))
      else (b.(limiter := Waiting(l', p, -1)), Granted(Grant(weight, p, LocalMode)))
  }

  /** One turn of `_take`. `redisAnswers` is what the environment does if Redis is asked. */
  function TurnOf(
    b: Budgets, c: Config, phase: Phase, weight: nat, p: Priority, weightPerMinute: nat, now: real, redisAnswers: bool):
    (Budgets, Turn)
    requires ValidConfig(c) && (phase == OnLocal ==> CountedIn(b.limiter, p, weightPerMinute))
  {
    if phase == OnLocal || (phase == Starting && RetryPending(b, now)) then
      LocalTurn(b, weight, p, weightPerMinute, phase == Starting, now)
    else if p == Background && b.waitingExecution > 0 then (b, SleepFor(YieldSeconds, OnShared))
    else if !redisAnswers then
      LocalTurn(b.(unavailableUntil := Some(now + RetrySeconds)), weight, p, weightPerMinute, true, now)
    else
      var (bucket, ms) := TakeScript(b.bucket, weight, p, c, now);
      if ms > 0 then (b.(bucket := Some(bucket)), SleepFor(MinReal(ms as real / 1000.0, MaxPollSeconds), OnShared))
      else (b.(bucket := Some(bucket), unavailableUntil := None), Granted(Grant(weight, p, SharedMode)))
  }

  /** A turn works on one budget: it takes the weight from the budget its grant names, a local
      turn never touches the bucket, and an acquire that has fallen back stays local. */
  lemma TurnUsesOneBudget(
    b: Budgets, c: Config, phase: Phase, weight: nat, p: Priority, weightPerMinute: nat, now: real, redisAnswers: bool)
    requires ValidConfig(c) && (phase == OnLocal ==> CountedIn(b.limiter, p, weightPerMinute))
    ensures var (b', turn) := TurnOf(b, c, phase, weight, p, weightPerMinute, now, redisAnswers);
            && (turn.Granted? ==> turn.grant.weight == weight && turn.grant.priority == p)
            && (turn.Granted? && turn.grant.mode == SharedMode ==>
                  && b'.limiter == b.limiter && !RetryPending(b', now) && phase != OnLocal
                  && b'.bucket == Some(Bucket(Refilled(b.bucket, c, now) - TakeAmount(weight, c) as real, now)))
            && (turn.Granted? && turn.grant.mode == LocalMode ==>
                  b'.bucket == b.bucket && (weightPerMinute == 0 ==> b'.limiter == b.limiter))
            && (turn.SleepFor? ==> turn.phase != Starting && turn.seconds > 0.0)
            && (turn.SleepFor? && turn.phase == OnShared ==> b'.limiter == b.limiter)
            && (turn.SleepFor? && turn.phase == OnLocal ==>
                  b'.bucket == b.bucket && CountedIn(b'.limiter, p, weightPerMinute))
            // Only requests in the local loop count as waiting there.
            && b'.waitingExecution == b.waitingExecution
            && b'.limiter.waitingExecution == b.limiter.waitingExecution
               - (if phase == OnLocal && p == Execution && weightPerMinute > 0 then 1 else 0)
               + (if turn.SleepFor? && turn.phase == OnLocal && p == Execution then 1 else 0)
            // A sleep at the shared bucket is what the bucket answered, a second at most.
            && (turn.SleepFor? && turn.phase == OnShared && !(p == Background && b.waitingExecution > 0) ==>
                  var ms := TakeScript(b.bucket, weight, p, c, now).1;
                  turn.seconds == if ms > 1000 then 1.0 else ms as real / 1000.0)
            && (phase == OnLocal ==>
                  b'.unavailableUntil == b.unavailableUntil && (turn.SleepFor? ==> turn.phase == OnLocal))
  {
    hide Refilled, TakeFloor;
  }

  /** While an execution request waits in the process, background work leaves the shared
      bucket alone: it sleeps without asking Redis, unless it has fallen back. */
  lemma BackgroundYields(
    b: Budgets, c: Config, phase: Phase, weight: nat, weightPerMinute: nat, now: real, redisAnswers: bool)
    requires ValidConfig(c) && b.waitingExecution > 0
    ensures TurnOf(b, c, phase, weight, Background, weightPerMinute, now, redisAnswers).0.bucket == b.bucket
    ensures phase == OnShared ==>
              TurnOf(b, c, phase, weight, Background, weightPerMinute, now, redisAnswers)
              == (b, SleepFor(0.05, OnShared))
  {
  }

  /** A turn that Redis does not answer sends every acquire of the next thirty seconds to the
      local budget, and none after that. */
  lemma FallbackLasts(
    b: Budgets, c: Config, phase: Phase, weight: nat, p: Priority, weightPerMinute: nat, now: real,
    other: nat, q: Priority, later: real)
    requires ValidConfig(c) && phase == OnShared && !(p == Background && b.waitingExecution > 0)
    ensures var b' := TurnOf(b, c, phase, weight, p, weightPerMinute, now, false).0;
            && (later < now + 30.0 ==>
                  TurnOf(b', c, Starting, other, q, weightPerMinute, later, true).0.bucket == b.bucket)
            && (later >= now + 30.0 && (q == Execution || b'.waitingExecution == 0) ==>
                  TurnOf(b', c, Starting, other, q, weightPerMinute, later, true).0.bucket
                  == Some(TakeScript(b.bucket, other, q, c, later).0))
  {
    hide TakeScript, LimitedAttempt;
  }

  /** This process's budget: the shared bucket, or the local one for thirty seconds after
      Redis last failed to answer. */
  class HyperliquidInfoBudget {
    const shared: SharedInfoBudget
    const limiter: HyperliquidInfoRateLimiter
    var unavailableUntil: Option<real>
    var waitingExecution: nat

    ghost function State(): Budgets
      reads this, shared, limiter
    {
      Budgets(shared.stored, limiter.State(), unavailableUntil, waitingExecution)
    }

    constructor (shared: SharedInfoBudget, limiter: HyperliquidInfoRateLimiter)
      ensures this.shared == shared && this.limiter == limiter && unavailableUntil == None && waitingExecution == 0
    {
      this.shared, this.limiter, unavailableUntil, waitingExecution := shared, limiter, None, 0;
    }

    /** An acquire counts as waiting from its first turn to its grant. */
    method Arrive(p: Priority)
      modifies this
      ensures State() == old(State()).(waitingExecution := old(waitingExecution) + if p == Execution then 1 else 0)
    {
      if p == Execution { waitingExecution := waitingExecution + 1; }
    }

    method Leave(p: Priority)
      requires p == Execution ==> waitingExecution > 0
      modifies this
      ensures State() == old(State()).(waitingExecution := old(waitingExecution) - if p == Execution then 1 else 0)
    {
      if p == Execution { waitingExecution := waitingExecution - 1; }
    }

    method TakeTurn(phase: Phase, weight: nat, p: Priority, weightPerMinute: nat, now: real, redisAnswers: bool)
      returns (turn: Turn)
      requires ValidConfig(shared.config) && (phase == OnLocal ==> CountedIn(limiter.State(), p, weightPerMinute))
      modifies this, shared, limiter
      ensures (State(), turn)
              == TurnOf(old(State()), shared.config, phase, weight, p, weightPerMinute, now, redisAnswers)
    {
      hide TakeScript, Attempt;
      var local, entering := phase == OnLocal, phase == Starting;
      if phase == Starting && unavailableUntil.Some? && now < unavailableUntil.value { local := true; }
      if !local {
        if p == Background && waitingExecution > 0 { return SleepFor(YieldSeconds, OnShared); }
        if redisAnswers {
          var wait := shared.Take(weight, p, now);
          if wait <= 0.0 {
            unavailableUntil := None;
            return Granted(Grant(weight, p, SharedMode));
          }
          return SleepFor(MinReal(wait, MaxPollSeconds), OnShared);
        }
        unavailableUntil := Some(now + RetrySeconds);
        entering := true;
      }
      turn := LocalAcquireTurn(entering, weight, p, weightPerMinute, now);
    }

    method LocalAcquireTurn(entering: bool, weight: nat, p: Priority, weightPerMinute: nat, now: real)
      returns (turn: Turn)
      requires entering || CountedIn(limiter.State(), p, weightPerMinute)
      modifies limiter
      ensures (State(), turn) == LocalTurn(old(State()), weight, p, weightPerMinute, entering, now)
      ensures State().(limiter := old(limiter.State())) == old(State())
    {
      if weightPerMinute == 0 { return Granted(Grant(weight, p, LocalMode)); }
      if entering { limiter.Arrive(p); }
      var sleep := limiter.TryTake(weight, p, weightPerMinute, now);
      if sleep.Some? { return SleepFor(sleep.value, OnLocal); }
      limiter.Leave(p);
      turn := Granted(Grant(weight, p, LocalMode));
    }

    /** A grant is settled against the budget it came from and no other. A settlement
        Redis does not answer is lost, so its reservation stays taken. */
    method Settle(grant: Grant, usedWeight: nat, now: real, redisAnswers: bool)
      requires ValidConfig(shared.config)
      modifies this, shared, limiter
      ensures grant.mode == LocalMode ==>
                shared.stored == old(shared.stored)
                && limiter.State() == SettleLocal(old(limiter.State()), grant.weight - usedWeight)
      ensures grant.mode == SharedMode ==> limiter.State() == old(limiter.State())
      ensures waitingExecution == old(waitingExecution)
      ensures unavailableUntil == if grant.mode == SharedMode && !redisAnswers && grant.weight != usedWeight
                                  then Some(now + RetrySeconds) else old(unavailableUntil)
      ensures grant.mode == SharedMode ==>
                var unused := (grant.weight - usedWeight) as real;
                shared.stored == if !redisAnswers || unused == 0.0 then old(shared.stored)
                                 else Some(Script(old(shared.stored), AdjustOp, unused, shared.config, now).0)
    {
      var unused: int := grant.weight - usedWeight;
      if grant.mode == SharedMode {
        if redisAnswers {
          shared.Adjust(unused, now);
        } else if unused != 0 {
          unavailableUntil := Some(now + RetrySeconds);
        }
      } else if unused > 0 {
        limiter.Refund(unused);
      } else {
        limiter.Charge(-unused);
      }
    }
  }

  // ------------------------------------------------------------- one request

  /** What one attempt of an info request meets. */
  datatype Attempted =
    | TransportError
    | Status(code: int)
    | Unparsable
    | Parsed(items: Option<nat>)

  datatype Settlement = Settlement(reserved: nat, usedWeight: nat)

  datatype InfoResult = Answer(items: Option<nat>) | Raised

  predicate Retryable(a: Attempted) { a.Status? && (a.code == 429 || a.code >= 500) }

  function UsedWeight(kind: string, a: Attempted): nat {
    RequestWeight(kind) + if a.Parsed? then ExtraWeight(kind, a.items) else 0
  }

  /** The attempts made: up to the first that is not worth retrying. */
  function AttemptsMade(met: seq<Attempted>): (n: nat)
    ensures n <= |met| && (met != [] ==> n > 0)
  {
    if met == [] then 0 else if Retryable(met[0]) then 1 + AttemptsMade(met[1..]) else 1
  }

  /** The retry loop of one request, for the attempts the settings allow: whatever each
      attempt meets, it settles its own reservation exactly once, and never above it. */
  method PostInfo(kind: string, met: seq<Attempted>) returns (r: InfoResult, settled: seq<Settlement>)
    requires met != []
    requires forall i :: 0 <= i < |met| && met[i].Status? ==> !(200 <= met[i].code < 300)
    requires forall i :: 0 <= i < |met| && met[i].Parsed? && met[i].items.Some? ==>
               met[i].items.value <= MaxResponseItems
    ensures |settled| == AttemptsMade(met)
    ensures forall i :: 0 <= i < |settled| ==>
              && settled[i].reserved == ReservedWeight(kind)
              && settled[i].usedWeight == UsedWeight(kind, met[i]) <= settled[i].reserved
              && settled[i].usedWeight
                 == RequestWeight(kind) + if met[i].Parsed? then ExtraWeight(kind, met[i].items) else 0
    // Only a rate limit or a server error is tried again, while there are attempts.
    ensures forall i :: 0 <= i < |settled| - 1 ==> met[i].Status? && (met[i].code == 429 || met[i].code >= 500)
    ensures |settled| > 0
    ensures |settled| < |met| ==>
              var last := met[|settled| - 1]; !(last.Status? && (last.code == 429 || last.code >= 500))
    ensures r.Answer? <==> met[|settled| - 1].Parsed?
    ensures r.Answer? ==> r.items == met[|settled| - 1].items
  {
    settled := [];
    for attempt := 0 to |met|
      invariant |settled| == attempt
      invariant AttemptsMade(met) == attempt + AttemptsMade(met[attempt..])
      invariant forall i :: 0 <= i < attempt ==> Retryable(met[i])
      invariant forall i :: 0 <= i < |settled| ==>
                  && settled[i].reserved == ReservedWeight(kind)
                  && settled[i].usedWeight == UsedWeight(kind, met[i]) <= settled[i].reserved
    {
      var a := met[attempt];
      assert met[attempt..][0] == a && met[attempt..][1..] == met[attempt + 1..];
      ReservationCoversUse(kind, if a.Parsed? then a.items else None);
      settled := settled + [Settlement(ReservedWeight(kind), UsedWeight(kind, a))];
      match a {
        case Parsed(items) => return Answer(items), settled;
        case Status(code) =>
          if code != 429 && code < 500 { return Raised, settled; }
        case TransportError => return Raised, settled;
        case Unparsable => return Raised, settled;
      }
    }
    r := Raised;
  }
}
