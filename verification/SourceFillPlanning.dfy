/** Splitting one source fill into ordered parts, and the normaliser that admits a plan. */
module SourceFillPlanning {
  import opened Numbers
  import opened Options

  datatype Action = Open | Add | Reduce | Close | FlipClose | FlipOpen

  datatype Side = Long | Short

  datatype Part = Part(
    action: Action, side: Side, size: real, notional: real, sequenceIndex: int,
    closeRatio: Option<real>, startPosition: Option<real>)

  /** A source fill; an unreadable size or price reads as zero. */
  datatype SourceFill = SourceFill(
    direction: string, size: real, price: real, notional: Option<real>, startPosition: Option<real>)

  predicate IsEntry(a: Action) { a in {Open, Add, FlipOpen} }

  predicate IsExit(a: Action) { a in {Close, Reduce, FlipClose} }

  // ---------------------------------------------------------------- planning

  function Proportional(value: real, part: real, total: real): real {
    if total <= 0.0 then 0.0 else value * part / total
  }

  function CloseRatio(size: real, start: Option<real>): Option<real> {
    if start.None? || Abs(start.value) <= 0.0 then None else Some(MinReal(size / Abs(start.value), 1.0))
  }

  function CloseParts(side: Side, size: real, notional: real, start: Option<real>, action: Action): seq<Part> {
    [Part(action, side, size, notional, 0, CloseRatio(size, start), start)]
  }

  function FlipParts(closeSide: Side, openSide: Side, size: real, notional: real, start: Option<real>): seq<Part> {
    if start.None? then CloseParts(closeSide, size, notional, start, FlipClose)
    else
      var closeSize := MinReal(size, Abs(start.value));
      var openSize := MaxReal(size - closeSize, 0.0);
      (if closeSize > 0.0
       then [Part(FlipClose, closeSide, closeSize, Proportional(notional, closeSize, size), 0,
                  CloseRatio(closeSize, start), start)]
       else [])
      + (if openSize > 0.0
         then [Part(FlipOpen, openSide, openSize, Proportional(notional, openSize, size), 1, None, Some(0.0))]
         else [])
  }

  /** The stated notional, or price times size where it is absent or zero. */
  function SourceNotional(f: SourceFill): real {
    if f.notional.Some? && f.notional.value != 0.0 then f.notional.value else f.price * f.size
  }

  function PlanSourceFill(f: SourceFill): seq<Part> {
    var n := SourceNotional(f);
    if f.size <= 0.0 || f.price <= 0.0 || n <= 0.0 then []
    else match f.direction
      case "Open Long" => [Part(Open, Long, f.size, n, 0, None, f.startPosition)]
      case "Open Short" => [Part(Open, Short, f.size, n, 0, None, f.startPosition)]
      case "Close Long" => CloseParts(Long, f.size, n, f.startPosition, Close)
      case "Close Short" => CloseParts(Short, f.size, n, f.startPosition, Close)
      case "Long > Short" => FlipParts(Long, Short, f.size, n, f.startPosition)
      case "Short > Long" => FlipParts(Short, Long, f.size, n, f.startPosition)
      case _ => []
  }

  // ------------------------------------------------------------ conservation

  function TotalSize(parts: seq<Part>): real {
    if parts == [] then 0.0 else parts[0].size + TotalSize(parts[1..])
  }

  function TotalNotional(parts: seq<Part>): real {
    if parts == [] then 0.0 else parts[0].notional + TotalNotional(parts[1..])
  }

  lemma ProportionsAddUp(value: real, a: real, b: real, total: real)
    requires total > 0.0 && a + b == total
    ensures Proportional(value, a, total) + Proportional(value, b, total) == value
  {
    calc {
      value * a / total + value * b / total;
      (value * a + value * b) / total;
      { assert value * a + value * b == value * total; }
      value;
    }
  }

  lemma TotalsOfPair(p: Part, q: Part)
    ensures TotalSize([p, q]) == p.size + q.size
    ensures TotalNotional([p, q]) == p.notional + q.notional
  {
    assert [p, q][1..] == [q] && [q][1..] == [];
    assert TotalSize([q]) == q.size && TotalNotional([q]) == q.notional;
  }

  /** Every nonempty plan splits the fill: sizes and notionals add up to the fill's own. */
  lemma PlanConserves(f: SourceFill)
    requires PlanSourceFill(f) != []
    ensures TotalSize(PlanSourceFill(f)) == f.size
    ensures TotalNotional(PlanSourceFill(f)) == SourceNotional(f)
  {
    var n := SourceNotional(f);
    if f.direction in {"Long > Short", "Short > Long"} && f.startPosition.Some? {
      var closeSize := MinReal(f.size, Abs(f.startPosition.value));
      ProportionsAddUp(n, closeSize, f.size - closeSize, f.size);
      var plan := PlanSourceFill(f);
      if |plan| == 2 {
        TotalsOfPair(plan[0], plan[1]);
        assert plan == [plan[0], plan[1]];
      } else {
        assert plan == [plan[0]];
      }
    }
  }

  // ------------------------------------------------------------- composition

  /** The signed change a part makes to a position. */
  function SignedSize(p: Part): real {
    if IsEntry(p.action) == (p.side == Long) then p.size else -p.size
  }

  /** A part can be applied to a position: it knows where it starts, an entry never
      reduces an opposite position and an exit never passes through flat. */
  predicate Applies(position: real, p: Part) {
    && p.startPosition == Some(position)
    && p.size > 0.0
    && (if IsEntry(p.action)
        then (if p.side == Long then position >= 0.0 else position <= 0.0)
        else (if p.side == Long then position >= p.size else -position >= p.size))
  }

  /** The position after applying the parts in order, or none where one does not apply. */
  function Walk(position: real, parts: seq<Part>): Option<real>
    decreases |parts|
  {
    if parts == [] then Some(position)
    else if !Applies(position, parts[0]) then None
    else Walk(position + SignedSize(parts[0]), parts[1..])
  }

  /** The signed change the exchange reports for a fill of this direction. */
  function SignedFill(f: SourceFill): real {
    if f.direction in {"Open Long", "Close Short", "Short > Long"} then f.size else -f.size
  }

  /** A fill whose direction, size and known start position fit together. */
  predicate Consistent(f: SourceFill) {
    && f.size > 0.0 && f.price > 0.0 && SourceNotional(f) > 0.0
    && f.startPosition.Some?
    && var start := f.startPosition.value;
       match f.direction
       case "Open Long" => start >= 0.0
       case "Open Short" => start <= 0.0
       case "Close Long" => start >= f.size
       case "Close Short" => -start >= f.size
       case "Long > Short" => start >= 0.0
       case "Short > Long" => start <= 0.0
       case _ => false
  }

  lemma WalkOne(position: real, p: Part)
    ensures Walk(position, [p]) == if Applies(position, p) then Some(position + SignedSize(p)) else None
  {
    if Applies(position, p) {
      assert Walk(position, [p]) == Walk(position + SignedSize(p), []);
    }
  }

  lemma WalkPair(position: real, p: Part, q: Part)
    ensures Walk(position, [p, q]) ==
              if Applies(position, p) then Walk(position + SignedSize(p), [q]) else None
  {
    assert [p, q][1..] == [q];
  }

  /** Applying the parts one after the other, each from where the last one ended, takes
      the start position to the source's own position after the fill. It works exactly
      on fills whose direction fits their start position. */
  lemma PlanComposes(f: SourceFill)
    requires PlanSourceFill(f) != [] && f.startPosition.Some?
    ensures Consistent(f) ==>
              Walk(f.startPosition.value, PlanSourceFill(f)) == Some(f.startPosition.value + SignedFill(f))
    ensures !Consistent(f) ==> Walk(f.startPosition.value, PlanSourceFill(f)) == None
  {
    var plan, start := PlanSourceFill(f), f.startPosition.value;
    WalkOne(start, plan[0]);
    if |plan| == 2 {
      assert plan == [plan[0], plan[1]];
      WalkPair(start, plan[0], plan[1]);
      WalkOne(start + SignedSize(plan[0]), plan[1]);
    } else {
      assert plan == [plan[0]];
    }
  }

  const Directions: set<string> :=
    {"Open Long", "Open Short", "Close Long", "Close Short", "Long > Short", "Short > Long"}

  /** A fill is planned exactly when it has a known direction, a size, a price and a notional. */
  lemma PlannedExactly(f: SourceFill)
    ensures PlanSourceFill(f) != []
            <==> && f.direction in Directions && f.size > 0.0 && f.price > 0.0
                 && (f.notional.Some? && f.notional.value != 0.0 ==> f.notional.value > 0.0)
  {
    if f.size > 0.0 && f.price > 0.0 { assert f.price * f.size > 0.0; }
  }

  /** The side the direction leaves or reduces, and the side it enters or extends. */
  function ExitSide(direction: string): Option<Side> {
    if direction in {"Close Long", "Long > Short"} then Some(Long)
    else if direction in {"Close Short", "Short > Long"} then Some(Short) else None
  }

  function EntrySide(direction: string): Option<Side> {
    if direction in {"Open Long", "Short > Long"} then Some(Long)
    else if direction in {"Open Short", "Long > Short"} then Some(Short) else None
  }

  /** What each part of a plan says: which action, on which side, at which index; an exit closes
      no more than the known start position and carries the share of it that it closes. */
  lemma PartsAreNamed(f: SourceFill, p: Part)
    requires p in PlanSourceFill(f)
    ensures var flip := f.direction in {"Long > Short", "Short > Long"};
            && p.size > 0.0
            && (IsEntry(p.action) ==>
                  && p.action == (if flip then FlipOpen else Open) && EntrySide(f.direction) == Some(p.side)
                  && p.sequenceIndex == (if flip then 1 else 0) && p.closeRatio == None
                  && p.startPosition == if flip then Some(0.0) else f.startPosition)
            && (!IsEntry(p.action) ==>
                  && p.action == (if flip then FlipClose else Close) && ExitSide(f.direction) == Some(p.side)
                  && p.sequenceIndex == 0 && p.startPosition == f.startPosition
                  && (flip && f.startPosition.Some? ==> p.size <= Abs(f.startPosition.value))
                  && (p.closeRatio.None? <==> f.startPosition.None? || f.startPosition == Some(0.0))
                  && (p.closeRatio.Some? ==>
                        p.closeRatio.value == MinReal(p.size / Abs(f.startPosition.value), 1.0)))
  {
    hide Proportional, SourceNotional;
  }

  /** The parts of a plan are priced alike: each carries its size's share of the notional. */
  lemma PartsArePriced(f: SourceFill, p: Part)
    requires p in PlanSourceFill(f)
    ensures p.notional == Proportional(SourceNotional(f), p.size, f.size)
  {
    hide SourceNotional, CloseRatio, Proportional;
    ShareOfAll(SourceNotional(f), f.size);
  }

  lemma ShareOfAll(value: real, total: real)
    ensures total > 0.0 ==> Proportional(value, total, total) == value
  {
  }

  lemma ShareIsProportional(value: real, part: real, total: real)
    requires total > 0.0
    ensures Proportional(value, part, total) * total == value * part
  {
  }

  // ------------------------------------------------------------- normalising

  datatype PlanError = NegativeSequence | DuplicateSequence | EmptyPlan | SequenceGap

  /** The dictionary built while scanning the parts, or the first fault met. */
  function Collect(parts: seq<Part>): Result<map<int, Part>, PlanError> {
    if parts == [] then Ok(map[])
    else
      var n := |parts| - 1;
      match Collect(parts[..n])
      case Err(e) => Err(e)
      case Ok(m) =>
        var k := parts[n].sequenceIndex;
        if k < 0 then Err(NegativeSequence)
        else if k in m then Err(DuplicateSequence)
        else Ok(m[k := parts[n]])
  }

  function Indexes(n: nat): (s: set<int>)
    ensures |s| == n
    ensures forall k :: k in s <==> 0 <= k < n
  {
    if n == 0 then {} else Indexes(n - 1) + {n - 1}
  }

  function Normalize(parts: seq<Part>): Result<seq<Part>, PlanError> {
    match Collect(parts)
    case Err(e) => Err(e)
    case Ok(m) =>
      if m == map[] then Err(EmptyPlan)
      else if m.Keys != Indexes(|m|) then Err(SequenceGap)
      else Ok(seq(|m|, i requires 0 <= i < |m| && m.Keys == Indexes(|m|) => m[i]))
  }

  /** Nonempty, with every index from zero up to the number of parts used exactly once. */
  predicate Contiguous(parts: seq<Part>) {
    && parts != []
    && (forall i :: 0 <= i < |parts| ==> 0 <= parts[i].sequenceIndex < |parts|)
    && Distinct(parts)
  }

  lemma SubsetOfEqualSize(a: set<int>, b: set<int>)
    requires a <= b && |a| == |b|
    ensures a == b
  {
    assert b == a + (b - a);
  }

  predicate Distinct(parts: seq<Part>) {
    forall i, j :: 0 <= i < j < |parts| ==> parts[i].sequenceIndex != parts[j].sequenceIndex
  }

  predicate NonNegative(parts: seq<Part>) {
    forall i :: 0 <= i < |parts| ==> 0 <= parts[i].sequenceIndex
  }

  /** The dictionary holds the parts under their own index and nothing else. */
  predicate Holds(m: map<int, Part>, parts: seq<Part>) {
    && |m| == |parts|
    && (forall i :: 0 <= i < |parts| ==> parts[i].sequenceIndex in m && m[parts[i].sequenceIndex] == parts[i])
    && (forall k :: k in m ==> m[k] in parts && m[k].sequenceIndex == k)
  }

  /** Scanning succeeds exactly on nonnegative, distinct indexes, and keeps every part. */
  lemma {:induction false} CollectedParts(parts: seq<Part>)
    ensures Collect(parts).Ok? <==> NonNegative(parts) && Distinct(parts)
    ensures Collect(parts).Ok? ==> Holds(Collect(parts).value, parts)
  {
    if parts != [] {
      var n := |parts| - 1;
      var front := parts[..n];
      CollectedParts(front);
      assert parts == front + [parts[n]];
      if Collect(front).Ok? {
        CollectOneMore(front, Collect(front).value, parts[n]);
      } else if NonNegative(parts) && Distinct(parts) {
        assert NonNegative(front) && Distinct(front);
        assert false;
      }
    }
  }

  lemma CollectOneMore(front: seq<Part>, m: map<int, Part>, p: Part)
    requires NonNegative(front) && Distinct(front) && Holds(m, front)
    ensures NonNegative(front + [p]) && Distinct(front + [p]) <==> 0 <= p.sequenceIndex && p.sequenceIndex !in m
    ensures p.sequenceIndex !in m ==> Holds(m[p.sequenceIndex := p], front + [p])
  {
    var parts := front + [p];
    var n := |front|;
    assert parts[n] == p && forall i :: 0 <= i < n ==> parts[i] == front[i];
    if p.sequenceIndex in m {
      assert m[p.sequenceIndex] in front;
      var i :| 0 <= i < n && front[i] == m[p.sequenceIndex];
      assert parts[i].sequenceIndex == parts[n].sequenceIndex;
    }
  }

  /** The normaliser admits exactly the contiguous plans, and hands back the same
      parts with the part of index i at place i. */
  lemma NormalizeAdmitsContiguous(parts: seq<Part>)
    ensures Normalize(parts).Ok? <==> Contiguous(parts)
    ensures Normalize(parts).Ok? ==>
              var ordered := Normalize(parts).value;
              && |ordered| == |parts| > 0
              && (forall i :: 0 <= i < |ordered| ==> ordered[i].sequenceIndex == i && ordered[i] in parts)
              && (forall p :: p in parts ==> p in ordered)
  {
    CollectedParts(parts);
    if Collect(parts).Ok? {
      HeldKeys(Collect(parts).value, parts);
      if Normalize(parts).Ok? {
        HeldValues(Collect(parts).value, parts, Normalize(parts).value);
      }
    }
  }

  lemma HeldKeys(m: map<int, Part>, parts: seq<Part>)
    requires Holds(m, parts) && NonNegative(parts) && Distinct(parts)
    ensures m != map[] && m.Keys == Indexes(|m|) <==> Contiguous(parts)
  {
    if Contiguous(parts) {
      assert m.Keys <= Indexes(|m|);
      SubsetOfEqualSize(m.Keys, Indexes(|m|));
      assert parts[0].sequenceIndex in m;
    }
    if m != map[] && m.Keys == Indexes(|m|) {
      forall i | 0 <= i < |parts|
        ensures parts[i].sequenceIndex < |parts|
      {
        assert parts[i].sequenceIndex in m.Keys;
      }
      assert parts != [];
    }
  }

  lemma HeldValues(m: map<int, Part>, parts: seq<Part>, ordered: seq<Part>)
    requires Holds(m, parts) && m.Keys == Indexes(|m|)
    requires |ordered| == |m| && forall i :: 0 <= i < |m| ==> i in m.Keys && ordered[i] == m[i]
    ensures forall i :: 0 <= i < |ordered| ==> ordered[i].sequenceIndex == i && ordered[i] in parts
    ensures forall p :: p in parts ==> p in ordered
  {
    forall p | p in parts
      ensures p in ordered
    {
      var i :| 0 <= i < |parts| && parts[i] == p;
      assert p.sequenceIndex in m.Keys;
      assert ordered[p.sequenceIndex] == p;
    }
  }

  /** The scan as the source runs it, one dictionary filled part by part. */
  method NormalizePlan(parts: seq<Part>) returns (r: Result<seq<Part>, PlanError>)
    ensures r == Normalize(parts)
    ensures r.Ok? <==> Contiguous(parts)
  {
    NormalizeAdmitsContiguous(parts);
    var bySequence: map<int, Part> := map[];
    for i := 0 to |parts|
      invariant Collect(parts[..i]) == Ok(bySequence)
    {
      var k := parts[i].sequenceIndex;
      assert parts[..i + 1][..i] == parts[..i];
      if k < 0 {
        FaultStays(parts, i + 1);
        return Err(NegativeSequence);
      }
      if k in bySequence {
        FaultStays(parts, i + 1);
        return Err(DuplicateSequence);
      }
      bySequence := bySequence[k := parts[i]];
    }
    assert parts[..|parts|] == parts;
    if bySequence == map[] { return Err(EmptyPlan); }
    if bySequence.Keys != Indexes(|bySequence|) { return Err(SequenceGap); }
    var n := |bySequence|;
    r := Ok(seq(n, i requires 0 <= i < n && bySequence.Keys == Indexes(n) => bySequence[i]));
  }

  /** The first fault decides, whatever follows it. */
  lemma {:induction false} FaultStays(parts: seq<Part>, i: nat)
    requires i <= |parts| && Collect(parts[..i]).Err?
    ensures Collect(parts) == Collect(parts[..i])
    decreases |parts| - i
  {
    if i == |parts| {
      assert parts[..i] == parts;
    } else {
      assert parts[..i + 1][..i] == parts[..i];
      FaultStays(parts, i + 1);
    }
  }

  /** A nonempty plan passes the normaliser except for a flip recorded from flat,
      whose only part carries sequence index one. */
  lemma PlanPassesNormalizer(f: SourceFill)
    requires PlanSourceFill(f) != []
    ensures Normalize(PlanSourceFill(f)).Ok? <==>
              !(f.direction in {"Long > Short", "Short > Long"} && f.startPosition == Some(0.0))
  {
    var plan := PlanSourceFill(f);
    NormalizeAdmitsContiguous(plan);
    assert plan[0].sequenceIndex == 1 <==>
           (f.direction in {"Long > Short", "Short > Long"} && f.startPosition == Some(0.0));
  }
}
