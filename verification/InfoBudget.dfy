/** The weight budget of info requests: request weights, the shared bucket every process
    draws from, and the local limiter a process falls back to. */
module InfoBudget {
  import opened Numbers
  import opened Options

  datatype Priority = Execution | Background

  // --------------------------------------------------------- request weights

  const MaxReservedWeight: int := 120
  const MaxResponseItems: nat := 2000

  const LightTypes: set<string> :=
    {"l2Book", "allMids", "clearinghouseState", "orderStatus", "spotClearinghouseState", "exchangeStatus"}

  const TwentyItemTypes: set<string> :=
    {"recentTrades", "historicalOrders", "userFills", "userFillsByTime", "fundingHistory", "userFunding",
     "nonUserFundingUpdates", "userNonFundingLedgerUpdates", "twapHistory", "userTwapSliceFills",
     "userTwapSliceFillsByTime"}

  function RequestWeight(kind: string): nat {
    if kind in LightTypes then 2 else if kind == "userRole" then 60 else 20
  }

  function ItemsPerUnit(kind: string): Option<nat> {
    if kind in TwentyItemTypes then Some(20) else if kind == "candleSnapshot" then Some(60) else None
  }

  function MaxExtraWeight(kind: string): nat {
    match ItemsPerUnit(kind)
    case None => 0
    case Some(k) => if k == 0 then 0 else MaxResponseItems / k
  }

  /** `items` is absent where the response is not a list. */
  function ExtraWeight(kind: string, items: Option<nat>): nat {
    match ItemsPerUnit(kind)
    case None => 0
    case Some(k) => if items.None? || k == 0 then 0 else items.value / k
  }

  function ReservedWeight(kind: string): nat { RequestWeight(kind) + MaxExtraWeight(kind) }

  /** No request reserves more than the guard allows for, and a response of at most one
      full page never uses more than was reserved. */
  lemma ReservationCoversUse(kind: string, items: Option<nat>)
    requires items.Some? ==> items.value <= MaxResponseItems
    ensures RequestWeight(kind) + ExtraWeight(kind, items) <= ReservedWeight(kind) <= MaxReservedWeight
  {
    if ItemsPerUnit(kind).Some? && items.Some? {
      assert items.value / 20 <= 100 && items.value / 60 <= 33;
    }
  }

  /** Item-weighted answers cost a unit for every full group of items, and the reservation is
      what a full answer costs; other answers cost nothing beyond the request. */
  lemma ExtraWeightCountsGroups(kind: string, items: nat)
    ensures var extra := ExtraWeight(kind, Some(items));
            match ItemsPerUnit(kind)
            case Some(k) => k * extra <= items < k * extra + k && MaxExtraWeight(kind) == ExtraWeight(kind, Some(2000))
            case None => extra == 0 == MaxExtraWeight(kind)
  {
  }

  /** What each request reserves: light ones two, roles sixty, others twenty, and on top of that
      a full answer's items, by twenties or for candles by sixties. */
  lemma ReservedWeights(kind: string)
    ensures ReservedWeight(kind) ==
            if kind in LightTypes then 2
            else if kind == "userRole" then 60
            else if kind == "candleSnapshot" then 20 + 33
            else if kind in TwentyItemTypes then 20 + 100
            else 20
  {
  }

  // ----------------------------------------------------------- shared bucket

  const KeyTtlSeconds: real := 3600.0
  const MaxPollSeconds: real := 1.0

  datatype Config = Config(weightPerMinute: nat, burst: nat, reserve: nat)

  /** What the settings validator guarantees. */
  predicate ValidConfig(c: Config) { c.weightPerMinute >= 1 && c.burst >= c.reserve + MaxReservedWeight }

  function Rate(c: Config): (r: real)
    ensures ValidConfig(c) ==> r > 0.0
  {
    c.weightPerMinute as real / 60.0
  }

  function Burst(c: Config): real { c.burst as real }

  function MinNat(a: nat, b: nat): nat { if a <= b then a else b }

  /** What a rate supplies in a time. */
  function Supply(seconds: real, rate: real): real { seconds * rate }

  datatype Bucket = Bucket(tokens: real, updatedAt: real)

  datatype Op = TakeOp(floor: real) | AdjustOp

  /** The tokens at `now`; a missing key counts as a full bucket. */
  function Refilled(b: Option<Bucket>, c: Config, now: real): real {
    if b.None? then Burst(c)
    else MinReal(Burst(c), b.value.tokens + Supply(MaxReal(0.0, now - b.value.updatedAt), Rate(c)))
  }

  /** The milliseconds until a deficit is refilled. */
  function WaitMs(deficit: real, rate: real): int
    requires rate > 0.0
  {
    var ms := Ceiling(deficit / rate * 1000.0);
    if ms < 1 then 1 else ms
  }

  /** The Lua script: the bucket it stores and the wait it returns. */
  function Script(b: Option<Bucket>, op: Op, amount: real, c: Config, now: real): (Bucket, int)
    requires ValidConfig(c)
  {
    var tokens := Refilled(b, c, now);
    match op
    case TakeOp(floor) =>
      if tokens - amount >= floor then (Bucket(tokens - amount, now), 0)
      else (Bucket(tokens, now), WaitMs(amount + floor - tokens, Rate(c)))
    case AdjustOp => (Bucket(MinReal(Burst(c), tokens + amount), now), 0)
  }

  function TakeAmount(weight: nat, c: Config): nat { MinNat(weight, c.burst) }

  /** Background work leaves the reserve, as far as the bucket can hold it. */
  function TakeFloor(weight: nat, p: Priority, c: Config): nat {
    MinNat(if p == Execution then 0 else c.reserve, c.burst - TakeAmount(weight, c))
  }

  function TakeScript(b: Option<Bucket>, weight: nat, p: Priority, c: Config, now: real): (Bucket, int)
    requires ValidConfig(c)
  {
    Script(b, TakeOp(TakeFloor(weight, p, c) as real), TakeAmount(weight, c) as real, c, now)
  }

  class SharedInfoBudget {
    const config: Config
    var stored: Option<Bucket>

    constructor (config: Config)
      requires ValidConfig(config)
      ensures this.config == config && stored == None
    {
      this.config := config;
      stored := None;
    }

    method Run(op: Op, amount: real, now: real) returns (waitMs: int)
      requires ValidConfig(config)
      modifies this
      ensures stored == Some(Script(old(stored), op, amount, config, now).0)
      ensures waitMs == Script(old(stored), op, amount, config, now).1
    {
      var tokens, updatedAt := Burst(config), now;
      if stored.Some? {
        tokens, updatedAt := stored.value.tokens, stored.value.updatedAt;
      }
      tokens := MinReal(Burst(config), tokens + Supply(MaxReal(0.0, now - updatedAt), Rate(config)));
      waitMs := 0;
      match op {
        case TakeOp(floor) =>
          if tokens - amount >= floor {
            tokens := tokens - amount;
          } else {
            waitMs := WaitMs(amount + floor - tokens, Rate(config));
          }
        case AdjustOp => tokens := MinReal(Burst(config), tokens + amount);
      }
      stored := Some(Bucket(tokens, now));
    }

    method Take(weight: nat, p: Priority, now: real) returns (wait: real)
      requires ValidConfig(config)
      modifies this
      ensures stored == Some(TakeScript(old(stored), weight, p, config, now).0)
      ensures wait == TakeScript(old(stored), weight, p, config, now).1 as real / 1000.0
    {
      var amount := TakeAmount(weight, config);
      var floor := TakeFloor(weight, p, config);
      var ms := Run(TakeOp(floor as real), amount as real, now);
      wait := ms as real / 1000.0;
    }

    method Adjust(weight: int, now: real)
      requires ValidConfig(config)
      modifies this
      ensures weight != 0 ==> stored == Some(Script(old(stored), AdjustOp, weight as real, config, now).0)
      ensures weight == 0 ==> stored == old(stored)
      ensures weight != 0 ==>
                var tokens := Refilled(old(stored), config, now) + weight as real;
                stored == Some(Bucket(if tokens < config.burst as real then tokens else config.burst as real, now))
    {
      if weight != 0 {
        var _ := Run(AdjustOp, weight as real, now);
      }
    }

    /** The polling loop of a sole waiter: it sleeps what the script says, at most a second
        at a time, and ends with the grant, no later than the first wait it was told. */
    method TakeWhenAlone(weight: nat, p: Priority, start: real) returns (now: real)
      requires ValidConfig(config) && (stored.Some? ==> stored.value.updatedAt <= start)
      modifies this
      ensures stored == Some(Bucket(Refilled(old(stored), config, now) - TakeAmount(weight, config) as real, now))
      ensures stored.value.tokens >= TakeFloor(weight, p, config) as real
      ensures start <= now <= start + TakeScript(old(stored), weight, p, config, start).1 as real / 1000.0
    {
      now := start;
      ghost var limit := TakeScript(stored, weight, p, config, now).1;
      while true
        invariant stored.Some? ==> stored.value.updatedAt <= now
        invariant start <= now
        invariant forall later :: later >= now ==>
                    Refilled(stored, config, later) == Refilled(old(stored), config, later)
        invariant TakeScript(stored, weight, p, config, now).1 >= 0
        invariant now + TakeScript(stored, weight, p, config, now).1 as real / 1000.0
                  <= start + limit as real / 1000.0
        decreases TakeScript(stored, weight, p, config, now).1
      {
        ghost var before := stored;
        var wait := Take(weight, p, now);
        if wait <= 0.0 {
          return;
        }
        WaitShrinks(before, weight, p, config, now);
        forall later | later >= now
          ensures Refilled(stored, config, later) == Refilled(before, config, later)
        {
          RefillComposes(before, config, now, later);
        }
        now := now + MinReal(wait, MaxPollSeconds);
      }
    }
  }

  lemma SupplySplits(a: real, b: real, rate: real)
    ensures Supply(a + b, rate) == Supply(a, rate) + Supply(b, rate)
  {
    assert (a + b) * rate == a * rate + b * rate;
  }

  lemma SupplySign(a: real, rate: real)
    requires rate > 0.0
    ensures a >= 0.0 <==> Supply(a, rate) >= 0.0
    ensures a > 0.0 <==> Supply(a, rate) > 0.0
  {
  }

  lemma SupplyOfQuotient(x: real, rate: real)
    requires rate > 0.0
    ensures Supply(x / rate, rate) == x
  {
  }

  /** Refilling in two steps is refilling once. */
  lemma RefillComposes(b: Option<Bucket>, c: Config, now: real, later: real)
    requires ValidConfig(c) && now <= later && (b.Some? ==> b.value.updatedAt <= now)
    ensures Refilled(Some(Bucket(Refilled(b, c, now), now)), c, later) == Refilled(b, c, later)
  {
    SupplySign(later - now, Rate(c));
    if b.Some? {
      SupplySplits(now - b.value.updatedAt, later - now, Rate(c));
    }
  }

  lemma QuotientIs(a: real, b: real, q: real)
    requires b > 0.0 && Supply(q, b) == a
    ensures a / b == q
  {
    SupplyOfQuotient(a, b);
    SupplySplits(a / b - q, q, b);
    SupplySign(a / b - q, b);
    SupplySplits(q - a / b, a / b, b);
    SupplySign(q - a / b, b);
  }

  /** The wait covers the deficit. */
  lemma WaitCoversDeficit(deficit: real, rate: real)
    requires rate > 0.0 && deficit > 0.0
    ensures Supply(WaitMs(deficit, rate) as real / 1000.0, rate) >= deficit
  {
    var seconds, waited := deficit / rate, WaitMs(deficit, rate) as real / 1000.0;
    assert waited >= seconds;
    SupplyOfQuotient(deficit, rate);
    SupplySplits(waited - seconds, seconds, rate);
    SupplySign(waited - seconds, rate);
  }

  /** A wait of more than a second means more than a second's supply is missing, and one
      second of supply shortens it by a thousand milliseconds. */
  lemma WaitAfterOneSecond(deficit: real, rate: real)
    requires rate > 0.0 && WaitMs(deficit, rate) > 1000
    ensures deficit - Supply(1.0, rate) > 0.0
    ensures WaitMs(deficit - Supply(1.0, rate), rate) == WaitMs(deficit, rate) - 1000
  {
    var x := deficit / rate;
    SupplyOfQuotient(deficit, rate);
    SupplySplits(x - 1.0, 1.0, rate);
    QuotientIs(deficit - rate, rate, x - 1.0);
    SupplySign(x - 1.0, rate);
  }

  /** A refused take stores the refilled bucket; after the sleep the polling loop takes,
      the next answer is a grant or a wait that is shorter by the time slept. */
  lemma WaitShrinks(b: Option<Bucket>, weight: nat, p: Priority, c: Config, now: real)
    requires ValidConfig(c) && TakeScript(b, weight, p, c, now).1 > 0
    requires b.Some? ==> b.value.updatedAt <= now
    ensures var (b', ms) := TakeScript(b, weight, p, c, now);
            var slept := MinReal(ms as real / 1000.0, MaxPollSeconds);
            var next := TakeScript(Some(b'), weight, p, c, now + slept).1;
            && (if ms <= 1000 then next == 0 else next == ms - 1000)
            && b'.updatedAt <= now + slept
  {
    var (b', ms) := TakeScript(b, weight, p, c, now);
    var target := TakeAmount(weight, c) as real + TakeFloor(weight, p, c) as real;
    var deficit := target - b'.tokens;
    assert target <= Burst(c) && deficit > 0.0 && ms == WaitMs(deficit, Rate(c));
    var slept := MinReal(ms as real / 1000.0, MaxPollSeconds);
    assert Refilled(Some(b'), c, now + slept) == MinReal(Burst(c), b'.tokens + Supply(slept, Rate(c)));
    if ms <= 1000 {
      WaitCoversDeficit(deficit, Rate(c));
    } else {
      WaitAfterOneSecond(deficit, Rate(c));
    }
  }

  /** The returned wait is sufficient for a waiter nobody else interferes with. */
  lemma WaitIsSufficient(b: Option<Bucket>, weight: nat, p: Priority, c: Config, now: real)
    requires ValidConfig(c) && (b.Some? ==> b.value.updatedAt <= now)
    ensures var (b', ms) := TakeScript(b, weight, p, c, now);
            TakeScript(Some(b'), weight, p, c, now + ms as real / 1000.0).1 == 0
            || ms == 0
  {
    var (b', ms) := TakeScript(b, weight, p, c, now);
    if ms > 0 {
      var deficit := TakeAmount(weight, c) as real + TakeFloor(weight, p, c) as real - b'.tokens;
      WaitCoversDeficit(deficit, Rate(c));
    }
  }

  /** The wait is no longer than needed: a try a millisecond or more before its end is refused again. */
  lemma WaitIsNeeded(b: Option<Bucket>, weight: nat, p: Priority, c: Config, now: real, later: real)
    requires ValidConfig(c) && (b.Some? ==> b.value.updatedAt <= now)
    requires TakeScript(b, weight, p, c, now).1 > 0
    requires now <= later <= now + (TakeScript(b, weight, p, c, now).1 - 1) as real / 1000.0
    ensures TakeScript(Some(TakeScript(b, weight, p, c, now).0), weight, p, c, later).1 > 0
  {
    var (b', ms) := TakeScript(b, weight, p, c, now);
    var rate := Rate(c);
    var deficit := TakeAmount(weight, c) as real + TakeFloor(weight, p, c) as real - b'.tokens;
    var seconds := later - now;
    SupplyOfQuotient(deficit, rate);
    SupplySplits(deficit / rate - seconds, seconds, rate);
    SupplySign(deficit / rate - seconds, rate);
    if ms == 1 { assert seconds == 0.0; SupplySign(deficit / rate, rate); }
    assert Supply(seconds, rate) < deficit;
  }

  /** A request is granted exactly when the refilled bucket holds its weight, and for background
      work the execution reserve on top; a grant takes its weight and a refusal nothing. */
  lemma GrantedExactly(b: Option<Bucket>, weight: nat, p: Priority, c: Config, now: real)
    requires ValidConfig(c) && weight <= MaxReservedWeight
    ensures var (b', ms) := TakeScript(b, weight, p, c, now);
            var held := Refilled(b, c, now);
            var needed := weight + if p == Background then c.reserve else 0;
            && (ms == 0 <==> held >= needed as real)
            && b' == Bucket(if ms == 0 then held - weight as real else held, now)
  {
  }

  /** A missing key is a full bucket; a stored one gains its rate's sixtieth each second, up to the burst. */
  lemma RefillsAtRate(b: Option<Bucket>, c: Config, now: real)
    requires ValidConfig(c) && (b.Some? ==> b.value.updatedAt <= now)
    ensures b.None? ==> Refilled(b, c, now) == c.burst as real
    ensures b.Some? ==>
              var grown := b.value.tokens + (now - b.value.updatedAt) * (c.weightPerMinute as real / 60.0);
              Refilled(b, c, now) == if grown < c.burst as real then grown else c.burst as real
  {
  }

  /** A background grant leaves at least the whole execution reserve. */
  lemma BackgroundLeavesReserve(b: Option<Bucket>, weight: nat, c: Config, now: real)
    requires ValidConfig(c) && weight <= MaxReservedWeight
    requires TakeScript(b, weight, Background, c, now).1 == 0
    ensures TakeScript(b, weight, Background, c, now).0.tokens >= c.reserve as real
  {
  }
}
