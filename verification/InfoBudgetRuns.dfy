/** Whole runs of the shared bucket: what many callers together can use, whatever the interleaving. */
module InfoBudgetRuns {
  import opened Numbers
  import opened Options
  import opened InfoBudget

  /** The bucket with an account of what was granted from it: reservations not yet settled
      and the weight settled requests really used. */
  datatype Books = Books(stored: Option<Bucket>, outstanding: seq<nat>, used: nat, start: real, now: real)

  /** `Take` is one attempt, refused or granted; `Settle` returns what grant `i` did not
      use; `Expire` is Redis dropping a key left alone for its time to live. */
  datatype Event =
    | Take(weight: nat, priority: Priority, at: real)
    | Settle(i: nat, usedWeight: nat, at: real)
    | Expire(at: real)

  predicate Legal(b: Books, c: Config, e: Event) {
    && b.now <= e.at
    && match e
       case Take(weight, _, _) => weight <= c.burst
       case Settle(i, usedWeight, _) => i < |b.outstanding| && usedWeight <= b.outstanding[i]
       case Expire(at) => b.stored.Some? && b.stored.value.updatedAt + KeyTtlSeconds <= at
  }

  function Step(b: Books, c: Config, e: Event): Books
    requires ValidConfig(c) && Legal(b, c, e)
  {
    match e
    case Take(weight, p, at) =>
      var (bucket, ms) := TakeScript(b.stored, weight, p, c, at);
      b.(stored := Some(bucket), now := at,
         outstanding := if ms == 0 then b.outstanding + [weight] else b.outstanding)
    case Settle(i, usedWeight, at) =>
      var unused := b.outstanding[i] - usedWeight;
      b.(stored := if unused == 0 then b.stored
                   else Some(Script(b.stored, AdjustOp, unused as real, c, at).0),
         now := at, used := b.used + usedWeight,
         outstanding := b.outstanding[..i] + b.outstanding[i + 1..])
    case Expire(at) => b.(stored := None, now := at)
  }

  function Total(s: seq<nat>): nat { if s == [] then 0 else s[0] + Total(s[1..]) }

  predicate LegalRun(b: Books, c: Config, run: seq<Event>)
    requires ValidConfig(c)
    decreases |run|
  {
    run == [] || (Legal(b, c, run[0]) && LegalRun(Step(b, c, run[0]), c, run[1..]))
  }

  function Run(b: Books, c: Config, run: seq<Event>): Books
    requires ValidConfig(c) && LegalRun(b, c, run)
    decreases |run|
  {
    if run == [] then b else Run(Step(b, c, run[0]), c, run[1..])
  }

  function Fresh(start: real): Books { Books(None, [], 0, start, start) }

  /** Everything the bucket has given away, used or reserved. */
  function Given(b: Books): real { (b.used + Total(b.outstanding)) as real }

  /** Within the bound: the burst and what the rate supplied since the start. */
  predicate Bounded(b: Books, c: Config) { Given(b) <= Burst(c) + Supply(b.now - b.start, Rate(c)) }

  /** The invariant: tokens and given weight together never outgrow burst plus supply, and
      a missing key is only ever worth what the rate has supplied. */
  predicate Inv(b: Books, c: Config) {
    && b.start <= b.now
    && match b.stored
       case None => Given(b) <= Supply(b.now - b.start, Rate(c))
       case Some(k) =>
         && 0.0 <= k.tokens <= Burst(c) && b.start <= k.updatedAt <= b.now
         && k.tokens + Given(b) <= Burst(c) + Supply(k.updatedAt - b.start, Rate(c))
  }

  /** An expired key never hands out more than the rate would have. */
  predicate ExpiryIsHarmless(c: Config) { c.burst <= 60 * c.weightPerMinute }

  lemma {:induction false} TotalAppend(s: seq<nat>, w: nat)
    ensures Total(s + [w]) == Total(s) + w
  {
    if s != [] {
      assert (s + [w])[1..] == s[1..] + [w];
      TotalAppend(s[1..], w);
    }
  }

  lemma {:induction false} TotalRemove(s: seq<nat>, i: nat)
    requires i < |s|
    ensures Total(s[..i] + s[i + 1..]) + s[i] == Total(s)
  {
    var rest := s[..i] + s[i + 1..];
    if i == 0 {
      assert rest == s[1..];
    } else {
      assert rest[1..] == s[1..][..i - 1] + s[1..][i..];
      TotalRemove(s[1..], i - 1);
    }
  }

  /** Refilling keeps the invariant's balance at the new time. */
  lemma RefillKeepsBalance(b: Books, c: Config, at: real)
    requires ValidConfig(c) && Inv(b, c) && b.now <= at
    ensures var tokens := Refilled(b.stored, c, at);
            && 0.0 <= tokens <= Burst(c)
            && tokens + Given(b) <= Burst(c) + Supply(at - b.start, Rate(c))
  {
    var rate := Rate(c);
    SupplySign(at - b.now, rate);
    SupplySplits(b.now - b.start, at - b.now, rate);
    if b.stored.Some? {
      var k := b.stored.value;
      SupplySign(at - k.updatedAt, rate);
      SupplySplits(k.updatedAt - b.start, at - k.updatedAt, rate);
    }
  }

  lemma TtlSupply(c: Config)
    ensures Supply(KeyTtlSeconds, Rate(c)) == 60.0 * c.weightPerMinute as real
  {
  }

  /** Every step keeps the invariant. */
  lemma StepKeepsInv(b: Books, c: Config, e: Event)
    requires ValidConfig(c) && ExpiryIsHarmless(c) && Inv(b, c) && Legal(b, c, e)
    ensures Inv(Step(b, c, e), c)
  {
    hide Supply;
    var rate := Rate(c);
    RefillKeepsBalance(b, c, e.at);
    match e {
      case Take(weight, p, at) =>
        TotalAppend(b.outstanding, weight);
      case Settle(i, usedWeight, at) =>
        TotalRemove(b.outstanding, i);
        SupplySign(at - b.now, rate);
        SupplySplits(b.now - b.start, at - b.now, rate);
      case Expire(at) =>
        var k := b.stored.value;
        var idle := at - k.updatedAt;
        SupplySplits(k.updatedAt - b.start, idle, rate);
        SupplySplits(KeyTtlSeconds, idle - KeyTtlSeconds, rate);
        SupplySign(idle - KeyTtlSeconds, rate);
        TtlSupply(c);
    }
  }

  lemma InvIsBounded(b: Books, c: Config)
    requires ValidConfig(c) && Inv(b, c)
    ensures Bounded(b, c)
  {
    if b.stored.Some? {
      SupplySplits(b.stored.value.updatedAt - b.start, b.now - b.stored.value.updatedAt, Rate(c));
      SupplySign(b.now - b.stored.value.updatedAt, Rate(c));
    }
  }

  lemma {:induction false} RunKeepsInv(b: Books, c: Config, run: seq<Event>)
    requires ValidConfig(c) && ExpiryIsHarmless(c) && Inv(b, c) && LegalRun(b, c, run)
    ensures Inv(Run(b, c, run), c)
    decreases |run|
  {
    if run != [] {
      StepKeepsInv(b, c, run[0]);
      RunKeepsInv(Step(b, c, run[0]), c, run[1..]);
    }
  }

  /** For every interleaving of takes, settlements and key expiries, the stored tokens, the
      weight used by settled requests and the weight of outstanding reservations together
      stay within the burst plus the rate, and the tokens stay between zero and the burst. */
  lemma RateBound(c: Config, start: real, run: seq<Event>)
    requires ValidConfig(c) && ExpiryIsHarmless(c) && LegalRun(Fresh(start), c, run)
    ensures var b := Run(Fresh(start), c, run);
            && Bounded(b, c)
            && (b.stored.Some? ==>
                  && 0.0 <= b.stored.value.tokens <= Burst(c)
                  && b.stored.value.tokens + Given(b) <= Burst(c) + Supply(b.now - b.start, Rate(c)))
  {
    assert Supply(0.0, Rate(c)) == 0.0;
    assert Total([]) == 0;
    RunKeepsInv(Fresh(start), c, run);
    InvIsBounded(Run(Fresh(start), c, run), c);
    var b := Run(Fresh(start), c, run);
    if b.stored.Some? {
      SupplySplits(b.stored.value.updatedAt - b.start, b.now - b.stored.value.updatedAt, Rate(c));
      SupplySign(b.now - b.stored.value.updatedAt, Rate(c));
    }
  }

  /** The stored tokens make up the burst with what was given away and never came back. */
  predicate Full(b: Books, c: Config) {
    b.stored.Some? ==> b.stored.value.tokens + Given(b) >= Burst(c)
  }

  lemma StepKeepsFull(b: Books, c: Config, e: Event)
    requires ValidConfig(c) && Full(b, c) && Legal(b, c, e)
    ensures Full(Step(b, c, e), c)
  {
    hide Supply;
    if b.stored.Some? { SupplySign(MaxReal(0.0, e.at - b.stored.value.updatedAt), Rate(c)); }
    match e {
      case Take(weight, p, at) => TotalAppend(b.outstanding, weight);
      case Settle(i, usedWeight, at) => TotalRemove(b.outstanding, i);
      case Expire(at) =>
    }
  }

  lemma {:induction false} RunKeepsFull(b: Books, c: Config, run: seq<Event>)
    requires ValidConfig(c) && Full(b, c) && LegalRun(b, c, run)
    ensures Full(Run(b, c, run), c)
    decreases |run|
  {
    if run != [] {
      StepKeepsFull(b, c, run[0]);
      RunKeepsFull(Step(b, c, run[0]), c, run[1..]);
    }
  }

  /** No weight is ever lost: over every run, while a bucket is stored, its tokens and the
      weight used or still reserved together are at least the burst. */
  lemma NoWeightIsLost(c: Config, start: real, run: seq<Event>)
    requires ValidConfig(c) && LegalRun(Fresh(start), c, run)
    ensures var b := Run(Fresh(start), c, run);
            b.stored.Some? ==> b.stored.value.tokens + (b.used + Total(b.outstanding)) as real >= c.burst as real
  {
    RunKeepsFull(Fresh(start), c, run);
  }

  /** Take the whole burst, let the key expire, and take it again. */
  function ExpiryRun(c: Config): seq<Event> {
    [Take(c.burst, Execution, 0.0), Expire(KeyTtlSeconds), Take(c.burst, Execution, KeyTtlSeconds)]
  }

  lemma ExpiryRunGives(c: Config)
    requires ValidConfig(c)
    ensures LegalRun(Fresh(0.0), c, ExpiryRun(c))
    ensures Given(Run(Fresh(0.0), c, ExpiryRun(c))) == 2.0 * Burst(c)
    ensures Run(Fresh(0.0), c, ExpiryRun(c)).now == KeyTtlSeconds
    ensures Run(Fresh(0.0), c, ExpiryRun(c)).start == 0.0
  {
    var run := ExpiryRun(c);
    var b1 := Step(Fresh(0.0), c, run[0]);
    assert b1 == Books(Some(Bucket(0.0, 0.0)), [c.burst], 0, 0.0, 0.0);
    var b2 := Step(b1, c, run[1]);
    var b3 := Step(b2, c, run[2]);
    assert b3.outstanding == [c.burst, c.burst];
    assert [c.burst, c.burst][1..] == [c.burst];
    assert Total([c.burst]) == c.burst + Total([]);
    assert run[1..] == [run[1], run[2]] && run[1..][1..] == [run[2]] && [run[2]][1..] == [];
    assert Run(b3, c, []) == b3;
    assert Run(b2, c, [run[2]]) == b3;
    assert Run(b1, c, run[1..]) == b3;
  }

  /** The bound holds for every run exactly when an hour's supply fills the bucket: with
      a slower rate the expiring key refills it faster than the rate allows. */
  lemma BoundHoldsExactly(c: Config)
    requires ValidConfig(c)
    ensures (forall start: real, run: seq<Event> ::
               LegalRun(Fresh(start), c, run) ==> Bounded(Run(Fresh(start), c, run), c))
            <==> ExpiryIsHarmless(c)
  {
    if ExpiryIsHarmless(c) {
      forall start: real, run: seq<Event> | LegalRun(Fresh(start), c, run)
        ensures Bounded(Run(Fresh(start), c, run), c)
      {
        RateBound(c, start, run);
      }
    } else {
      ExpiryRunGives(c);
      TtlSupply(c);
      assert !Bounded(Run(Fresh(0.0), c, ExpiryRun(c)), c);
    }
  }

  /** In a run of background takes alone the bucket never falls below the execution reserve. */
  lemma {:induction false} BackgroundRunsLeaveReserve(b: Books, c: Config, run: seq<Event>)
    requires ValidConfig(c) && LegalRun(b, c, run)
    requires forall i :: 0 <= i < |run| ==>
               run[i].Take? && run[i].priority == Background && run[i].weight <= MaxReservedWeight
    requires b.stored.Some? ==> b.stored.value.tokens >= c.reserve as real && b.stored.value.updatedAt <= b.now
    ensures var s := Run(b, c, run).stored; s.Some? ==> s.value.tokens >= c.reserve as real
    decreases |run|
  {
    if run != [] {
      var e := run[0];
      assert e.Take? && e.priority == Background && e.weight <= MaxReservedWeight;
      if b.stored.Some? { SupplySign(e.at - b.stored.value.updatedAt, Rate(c)); }
      assert Step(b, c, e).stored.value.tokens >= c.reserve as real;
      BackgroundRunsLeaveReserve(Step(b, c, e), c, run[1..]);
    }
  }
}
