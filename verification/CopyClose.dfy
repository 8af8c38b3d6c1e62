/** How much of a copied position one source close part closes, and what whole runs of closes keep. */
module CopyClose {
  import opened Numbers
  import opened Options
  import opened SourceFillPlanning

  const Epsilon: real := 0.00000001

  datatype CloseReason =
    | MatchingPositionMissing | CloseAlreadyPending | ExecutionPriceUnavailable
    | CloseRatioMissing | CloseSizeZero | CloseBelowMinOrder

  datatype CopyPosition = CopyPosition(side: Side, size: real)

  /** `price` is the execution price of the decision's context, absent where there is none. */
  datatype CloseDecision = CloseDecision(
    reason: Option<CloseReason>, price: Option<real>, closeSize: real, notional: real,
    finalClose: bool, needsAggregation: bool, aggregated: bool)

  function Rejected(reason: CloseReason, price: Option<real>): CloseDecision {
    CloseDecision(Some(reason), price, 0.0, 0.0, false, false, false)
  }

  /** The share of a size that a close ratio takes. */
  function Share(size: real, ratio: real): real { size * ratio }

  function CopyCloseSize(positionSize: real, p: Part, finalClose: bool, available: Option<real>): Option<real> {
    var size := if available.Some? then MinReal(positionSize, available.value) else positionSize;
    if finalClose then Some(size)
    else if p.closeRatio.None? || p.closeRatio.value <= 0.0 then None
    else Some(MinReal(size, Share(size, p.closeRatio.value)))
  }

  function DecideClose(
    p: Part, position: Option<CopyPosition>, available: real, finalClose: bool,
    price: Option<real>, minNotional: real): CloseDecision
  {
    if position.None? || position.value.side != p.side then Rejected(MatchingPositionMissing, None)
    else if available <= Epsilon then Rejected(CloseAlreadyPending, None)
    else if price.None? then Rejected(ExecutionPriceUnavailable, None)
    else
      var size := CopyCloseSize(position.value.size, p, finalClose, Some(available));
      if size.None? then Rejected(CloseRatioMissing, price)
      else if size.value <= Epsilon then Rejected(CloseSizeZero, price)
      else
        var notional := size.value * price.value;
        CloseDecision(None, price, size.value, notional, finalClose, !finalClose && notional < minNotional, false)
  }

  function AggregateBelowMin(d: CloseDecision, skipped: real, available: real, minNotional: real): CloseDecision {
    if !d.needsAggregation || d.price.None? then d
    else
      var size := MinReal(MaxReal(d.closeSize + skipped, 0.0), available);
      var notional := size * d.price.value;
      if notional < minNotional then
        CloseDecision(Some(CloseBelowMinOrder), d.price, d.closeSize, d.notional, false, false, false)
      else CloseDecision(None, d.price, size, notional, false, false, skipped > 0.0)
  }

  /** When a close part is refused, and what an accepted one closes: everything available on a
      final close, otherwise the ratio's share, marked for aggregation below the minimum. */
  lemma CloseDecidedExactly(
    p: Part, position: Option<CopyPosition>, available: real, finalClose: bool, price: Option<real>, minNotional: real)
    ensures var d := DecideClose(p, position, available, finalClose, price, minNotional);
            var held := position.Some? && position.value.side == p.side;
            var free := held && available > 0.00000001;
            var unknown := !finalClose && (p.closeRatio.None? || p.closeRatio.value <= 0.0);
            && (d.reason == Some(MatchingPositionMissing) <==> !held)
            && (d.reason == Some(CloseAlreadyPending) <==> held && !free)
            && (d.reason == Some(ExecutionPriceUnavailable) <==> free && price.None?)
            && (d.reason == Some(CloseRatioMissing) <==> free && price.Some? && unknown)
            && (d.reason in {None, Some(CloseSizeZero)} <==> free && price.Some? && !unknown)
            && (d.reason.Some? ==>
                  && d.closeSize == 0.0 && d.notional == 0.0 && !d.finalClose && !d.needsAggregation && !d.aggregated
                  && d.price == if free then price else None)
            && (free && price.Some? && !unknown ==>
                  var most := MinReal(position.value.size, available);
                  var size := if finalClose then most else MinReal(most, Share(most, p.closeRatio.value));
                  && (d.reason == None <==> size > 0.00000001)
                  && (d.reason == None ==>
                        && d.price == price && d.closeSize == size && d.notional == size * price.value
                        && d.finalClose == finalClose && !d.aggregated
                        && (d.needsAggregation <==> !finalClose && size * price.value < minNotional)))
  {
  }

  /** What aggregation makes of a close below the minimum: the earlier closes come on top, up to what
      is available; still below it, the close is put aside as it was. Other closes it leaves alone. */
  lemma AggregatedExactly(d: CloseDecision, skipped: real, available: real, minNotional: real)
    ensures var a := AggregateBelowMin(d, skipped, available, minNotional);
            var total := if d.closeSize + skipped > 0.0 then MinReal(d.closeSize + skipped, available)
                         else MinReal(0.0, available);
            if !d.needsAggregation || d.price.None? then a == d
            else if total * d.price.value < minNotional then
              a == CloseDecision(Some(CloseBelowMinOrder), d.price, d.closeSize, d.notional, false, false, false)
            else
              && a.reason == None && a.price == d.price && a.closeSize == total && a.notional == total * d.price.value
              && !a.finalClose && !a.needsAggregation && (a.aggregated <==> skipped > 0.0)
  {
  }

  // --------------------------------------------------------- runs of closes

  /** A source position and its copy while the source closes. `skipped` sums the close
      sizes put aside below the minimum order, `dust` those too small to send at all. */
  datatype Mirror = Mirror(source: real, copy: real, skipped: real, dust: real)

  /** One source close fill, seen at an execution price. `finalClose` is what the source's
      account state says: it no longer holds the side. */
  datatype CloseEvent = CloseEvent(size: real, price: real, minNotional: real, finalClose: bool)

  predicate Legal(m: Mirror, e: CloseEvent) { 0.0 < e.size <= m.source && e.price > 0.0 }

  function ClosePart(m: Mirror, e: CloseEvent): Part {
    CloseParts(Long, e.size, e.size * e.price, Some(m.source), Close)[0]
  }

  function Decision(m: Mirror, e: CloseEvent): CloseDecision {
    var d := DecideClose(ClosePart(m, e), Some(CopyPosition(Long, m.copy)), m.copy, e.finalClose,
                         Some(e.price), e.minNotional);
    AggregateBelowMin(d, m.skipped, m.copy, e.minNotional)
  }

  /** The close is executed in full, put aside, or too small; the source moves anyway. */
  function Step(m: Mirror, e: CloseEvent): Mirror {
    var d := Decision(m, e);
    var next := m.(source := m.source - e.size);
    if d.reason.None? then
      next.(copy := m.copy - d.closeSize, skipped := if d.aggregated then 0.0 else m.skipped)
    else if d.reason.value == CloseBelowMinOrder then next.(skipped := m.skipped + d.closeSize)
    else if d.reason.value == CloseSizeZero then next.(dust := m.dust + Share(m.copy, e.size / m.source))
    else next.(dust := m.dust + m.copy)
  }

  predicate LegalRun(m: Mirror, run: seq<CloseEvent>)
    decreases |run|
  {
    run == [] || (Legal(m, run[0]) && LegalRun(Step(m, run[0]), run[1..]))
  }

  function Run(m: Mirror, run: seq<CloseEvent>): Mirror
    decreases |run|
  {
    if run == [] then m else Run(Step(m, run[0]), run[1..])
  }

  predicate Sane(m: Mirror) { m.source >= 0.0 && m.copy >= 0.0 && m.skipped >= 0.0 && m.dust >= 0.0 }

  /** The copy, less what was put aside, holds no more of the opening copy than the source
      holds of the opening source. */
  predicate Covered(m: Mirror, source0: real, copy0: real) {
    Share(m.copy - m.skipped - m.dust, source0) <= Share(copy0, m.source)
  }

  /** The share of its own position the source closes. */
  function Ratio(m: Mirror, e: CloseEvent): real
    requires m.source > 0.0
  {
    e.size / m.source
  }

  lemma QuotientBounds(a: real, b: real)
    requires 0.0 < a <= b
    ensures 0.0 < a / b <= 1.0 && Share(a / b, b) == a
  {
    var q := a / b;
    assert q * b == a;
    assert (1.0 - q) * b == b - a;
    SignOfFactor(q, b);
    SignOfFactor(1.0 - q, b);
  }

  lemma SignOfFactor(x: real, b: real)
    requires b > 0.0
    ensures x * b >= 0.0 <==> x >= 0.0
    ensures x * b > 0.0 <==> x > 0.0
  {
  }

  lemma RatioOfClose(m: Mirror, e: CloseEvent)
    requires Legal(m, e)
    ensures ClosePart(m, e).closeRatio == Some(Ratio(m, e))
    ensures 0.0 < Ratio(m, e) <= 1.0 && Share(Ratio(m, e), m.source) == e.size
  {
    QuotientBounds(e.size, m.source);
  }

  lemma ShareBounds(x: real, r: real)
    requires x >= 0.0 && 0.0 <= r <= 1.0
    ensures 0.0 <= x * r == Share(x, r) <= x
  {
  }

  /** Without a final close, the close size is the ratio's share of the copy. */
  lemma CloseSizeIsShare(copy: real, p: Part, r: real)
    requires copy >= 0.0 && p.closeRatio == Some(r) && 0.0 < r <= 1.0
    ensures CopyCloseSize(copy, p, false, Some(copy)) == Some(Share(copy, r))
  {
    ShareBounds(copy, r);
  }

  /** The outcomes of one step, in terms of the share of the copy the source closes. */
  lemma StepOutcome(m: Mirror, e: CloseEvent, share: real)
    requires Sane(m) && Legal(m, e) && share == Share(m.copy, Ratio(m, e))
    ensures var m' := Step(m, e);
            && m'.source == m.source - e.size
            && 0.0 <= share <= m.copy
            && (|| (m'.copy == 0.0 && m'.skipped == m.skipped && m'.dust == m.dust && e.finalClose)
                || (m'.copy == m.copy - share && m'.skipped == m.skipped && m'.dust == m.dust)
                || (m'.copy == MaxReal(m.copy - share - m.skipped, 0.0) && m'.skipped == 0.0 && m'.dust == m.dust)
                || (m'.copy == m.copy && m'.skipped == m.skipped + share && m'.dust == m.dust)
                || (m'.copy == m.copy && m'.skipped == m.skipped && m'.dust == m.dust + share && share <= Epsilon)
                || (m'.copy == m.copy && m'.skipped == m.skipped && m'.dust == m.dust + m.copy && m.copy <= Epsilon))
  {
    RatioOfClose(m, e);
    ShareBounds(m.copy, Ratio(m, e));
    CloseSizeIsShare(m.copy, ClosePart(m, e), Ratio(m, e));
  }

  /** The share is put aside: with what was put aside before it is still below the minimum order. */
  predicate BelowMinimum(m: Mirror, e: CloseEvent, share: real) {
    MinReal(m.copy, share + m.skipped) * e.price < e.minNotional
  }

  /** A step's decision, for a share of the copy: a final close takes all of it; another one is
      executed alone if it meets the minimum order, with the closes put aside before if they
      make it meet that, and is put aside itself otherwise. */
  lemma DecisionExactly(m: Mirror, e: CloseEvent, share: real)
    requires Sane(m) && Legal(m, e) && share == Share(m.copy, Ratio(m, e)) && m.copy > 0.00000001
    ensures var d := Decision(m, e);
            && (e.finalClose ==> d.reason == None && d.closeSize == m.copy && !d.aggregated)
            && (!e.finalClose && share <= 0.00000001 ==> d.reason == Some(CloseSizeZero))
            && (!e.finalClose && share > 0.00000001 ==>
                  && (d.reason == Some(CloseBelowMinOrder) <==> BelowMinimum(m, e, share))
                  && (d.reason == None <==> !BelowMinimum(m, e, share))
                  && (BelowMinimum(m, e, share) ==> d.closeSize == share)
                  && (!BelowMinimum(m, e, share) ==>
                        && d.closeSize == (if share * e.price >= e.minNotional then share
                                           else MinReal(m.copy, share + m.skipped))
                        && (d.aggregated <==> share * e.price < e.minNotional && m.skipped > 0.0)))
  {
    RatioOfClose(m, e);
    ShareBounds(m.copy, Ratio(m, e));
    CloseSizeIsShare(m.copy, ClosePart(m, e), Ratio(m, e));
    ProductSign(MinReal(m.copy, share + m.skipped) - share, e.price);
    TakeApart(MinReal(m.copy, share + m.skipped), share, e.price);
  }

  lemma TakeApart(a: real, b: real, price: real)
    ensures (a - b) * price == a * price - b * price
  {
  }

  /** Over every run, an executed close that is not final meets the minimum order. */
  lemma ExecutedMeetsMinimum(m: Mirror, e: CloseEvent)
    requires Sane(m) && Legal(m, e) && Decision(m, e).reason == None && !e.finalClose
    ensures Decision(m, e).closeSize * e.price >= e.minNotional
    ensures Step(m, e).copy == m.copy - Decision(m, e).closeSize
  {
    hide Share, Decision, Step;
    if m.copy > 0.00000001 {
      DecisionExactly(m, e, Share(m.copy, Ratio(m, e)));
      StepMoves(m, e);
    } else {
      NothingToClose(m, e);
    }
  }

  lemma NothingToClose(m: Mirror, e: CloseEvent)
    requires m.copy <= 0.00000001
    ensures Decision(m, e).reason == Some(CloseAlreadyPending)
  {
  }

  lemma StepMoves(m: Mirror, e: CloseEvent)
    requires Decision(m, e).reason == None
    ensures Step(m, e).copy == m.copy - Decision(m, e).closeSize
  {
  }

  lemma ProductSign(a: real, b: real)
    requires a >= 0.0 && b >= 0.0
    ensures a * b >= 0.0
  {
  }

  lemma RestOfShare(x: real, copy: real, r: real, source: real, source0: real, copy0: real)
    requires x <= copy && 0.0 <= r <= 1.0 && source0 > 0.0 && Share(x, source0) <= Share(copy0, source)
    ensures Share(x - Share(copy, r), source0) <= Share(copy0, source - Share(r, source))
  {
    var y := x * (1.0 - r);
    ProductSign(copy - x, r);
    ProductSign(y - (x - copy * r), source0);
    ProductSign(copy0 * source - x * source0, 1.0 - r);
    calc {
      (x - copy * r) * source0;
    <=
      y * source0;
    == { assert y * source0 == (x * source0) * (1.0 - r); }
      (x * source0) * (1.0 - r);
    <=
      (copy0 * source) * (1.0 - r);
    == { assert (copy0 * source) * (1.0 - r) == copy0 * source - copy0 * source * r;
         assert copy0 * (source - r * source) == copy0 * source - copy0 * (r * source); }
      copy0 * (source - r * source);
    }
  }

  lemma LessIsCovered(x: real, y: real, source: real, source0: real, copy0: real)
    requires source0 > 0.0 && copy0 >= 0.0 && source >= 0.0
    requires y <= 0.0 || (y <= x && Share(x, source0) <= Share(copy0, source))
    ensures Share(y, source0) <= Share(copy0, source)
  {
    if y > 0.0 {
      assert (x - y) * source0 >= 0.0;
    } else {
      assert y * source0 <= 0.0 && copy0 * source >= 0.0;
    }
  }

  /** One close keeps the copy covered, whichever branch the decision takes. */
  lemma StepStaysCovered(m: Mirror, e: CloseEvent, source0: real, copy0: real)
    requires Sane(m) && Legal(m, e) && Covered(m, source0, copy0) && source0 > 0.0 && copy0 >= 0.0
    ensures Sane(Step(m, e)) && Covered(Step(m, e), source0, copy0)
    ensures Step(m, e).dust <= m.dust + Epsilon
  {
    hide Share, Step;
    var r, m' := Ratio(m, e), Step(m, e);
    var share := Share(m.copy, r);
    RatioOfClose(m, e);
    StepOutcome(m, e, share);
    var x := m.copy - m.skipped - m.dust;
    RestOfShare(x, m.copy, r, m.source, source0, copy0);
    LessIsCovered(x - share, m'.copy - m'.skipped - m'.dust, m'.source, source0, copy0);
  }

  /** Over any run of closes the copy never lags behind the source by more than what is
      still put aside plus the dust, and the dust grows by at most one epsilon a close. */
  lemma {:induction false} RunStaysCovered(m: Mirror, run: seq<CloseEvent>, source0: real, copy0: real)
    requires Sane(m) && LegalRun(m, run) && Covered(m, source0, copy0) && source0 > 0.0 && copy0 >= 0.0
    ensures Sane(Run(m, run)) && Covered(Run(m, run), source0, copy0)
    ensures Run(m, run).dust <= m.dust + Epsilon * (|run| as real)
    decreases |run|
  {
    if run != [] {
      StepStaysCovered(m, run[0], source0, copy0);
      RunStaysCovered(Step(m, run[0]), run[1..], source0, copy0);
    }
  }

  /** After any run from a fresh copy nothing is over-closed, and what is left beyond the
      closes still put aside and one epsilon for each close is at most the mirrored share. */
  lemma {:induction false} CopyNeverLagsBehind(source0: real, copy0: real, run: seq<CloseEvent>)
    requires source0 > 0.0 && copy0 >= 0.0
    requires LegalRun(Mirror(source0, copy0, 0.0, 0.0), run)
    ensures var m := Run(Mirror(source0, copy0, 0.0, 0.0), run);
            && 0.0 <= m.copy
            && Share(m.copy - m.skipped - Epsilon * (|run| as real), source0) <= Share(copy0, m.source)
  {
    hide Share, Run, LegalRun;
    RunStaysCovered(Mirror(source0, copy0, 0.0, 0.0), run, source0, copy0);
    var m := Run(Mirror(source0, copy0, 0.0, 0.0), run);
    LessIsCovered(m.copy - m.skipped - m.dust, m.copy - m.skipped - Epsilon * (|run| as real),
                  m.source, source0, copy0);
  }

  // ------------------------------------------------------- exact mirroring

  /** Every close of the run is executed for its own size, and full closes are only
      reported when the source really closes what it has left. */
  predicate ExecutedDirectly(m: Mirror, run: seq<CloseEvent>)
    decreases |run|
  {
    run == [] ||
    (var d := Decision(m, run[0]);
     && d.reason.None? && !d.aggregated
     && (run[0].finalClose ==> run[0].size == m.source)
     && ExecutedDirectly(Step(m, run[0]), run[1..]))
  }

  lemma ExactRest(copy: real, r: real, source: real, source0: real, copy0: real)
    requires Share(copy, source0) == Share(copy0, source)
    ensures Share(copy - Share(copy, r), source0) == Share(copy0, source - Share(r, source))
  {
    calc {
      (copy - copy * r) * source0;
    == { assert (copy - copy * r) * source0 == copy * source0 - copy * r * source0;
         assert copy * r * source0 == (copy * source0) * r; }
      copy * source0 - (copy * source0) * r;
    ==
      copy0 * source - (copy0 * source) * r;
    == { assert (copy0 * source) * r == copy0 * (r * source);
         assert copy0 * (source - r * source) == copy0 * source - copy0 * (r * source); }
      copy0 * (source - r * source);
    }
  }

  /** The copy holds the same share of the source as it did at the start. */
  predicate Mirrors(m: Mirror, source0: real, copy0: real) {
    Sane(m) && m.skipped == 0.0 && Share(m.copy, source0) == Share(copy0, m.source)
  }

  lemma DirectStepIsExact(m: Mirror, e: CloseEvent, source0: real, copy0: real)
    requires Legal(m, e) && Mirrors(m, source0, copy0)
    requires Decision(m, e).reason.None? && !Decision(m, e).aggregated && (e.finalClose ==> e.size == m.source)
    ensures Mirrors(Step(m, e), source0, copy0)
  {
    var r := Ratio(m, e);
    RatioOfClose(m, e);
    ShareBounds(m.copy, r);
    CloseSizeIsShare(m.copy, ClosePart(m, e), r);
    assert Decision(m, e).closeSize == Share(m.copy, r) by {
      if e.finalClose { assert r == 1.0; }
    }
    ExactRest(m.copy, r, m.source, source0, copy0);
  }

  lemma FlatTogether(copy: real, source: real, source0: real, copy0: real)
    requires source0 > 0.0 && copy0 > 0.0 && Share(copy, source0) == Share(copy0, source)
    ensures copy == 0.0 <==> source == 0.0
  {
    assert copy == 0.0 <==> copy * source0 == 0.0;
    assert source == 0.0 <==> copy0 * source == 0.0;
  }

  /** While every close is executed directly the copied share of the source never
      changes, so the copy is flat exactly when the source is. */
  lemma {:induction false} DirectClosesMirrorExactly(m: Mirror, run: seq<CloseEvent>, source0: real, copy0: real)
    requires LegalRun(m, run) && ExecutedDirectly(m, run)
    requires source0 > 0.0 && copy0 > 0.0 && Mirrors(m, source0, copy0)
    ensures Mirrors(Run(m, run), source0, copy0)
    ensures Run(m, run).copy == 0.0 <==> Run(m, run).source == 0.0
    decreases |run|
  {
    hide Share, Step, Decision;
    if run == [] {
      FlatTogether(m.copy, m.source, source0, copy0);
    } else {
      DirectStepIsExact(m, run[0], source0, copy0);
      DirectClosesMirrorExactly(Step(m, run[0]), run[1..], source0, copy0);
    }
  }

  // ------------------------------------------------------------ aggregation

  function Sum(rs: seq<real>): real { if rs == [] then 0.0 else rs[0] + Sum(rs[1..]) }

  /** What is left of the source after closing the given ratios one after the other. */
  function Left(rs: seq<real>): real { if rs == [] then 1.0 else (1.0 - rs[0]) * Left(rs[1..]) }

  predicate Ratios(rs: seq<real>) { forall i :: 0 <= i < |rs| ==> 0.0 <= rs[i] <= 1.0 }

  lemma OneMoreRatio(r: real, sum: real, left: real)
    requires 0.0 <= r <= 1.0 && 0.0 <= left <= 1.0 && sum >= 1.0 - left
    ensures 0.0 <= (1.0 - r) * left <= 1.0 && r + sum >= 1.0 - (1.0 - r) * left
  {
    ShareBounds(left, 1.0 - r);
    ShareBounds(r, left);
    assert (1.0 - r) * left == left - r * left;
    assert r * left <= r;
  }

  lemma {:induction false} SumCoversProduct(rs: seq<real>)
    requires Ratios(rs)
    ensures 0.0 <= Left(rs) <= 1.0 && Sum(rs) >= 1.0 - Left(rs)
  {
    if rs != [] {
      assert Ratios(rs[1..]);
      SumCoversProduct(rs[1..]);
      OneMoreRatio(rs[0], Sum(rs[1..]), Left(rs[1..]));
    }
  }

  /** At most one of the ratios closes anything. */
  predicate AtMostOne(rs: seq<real>) { forall i, j :: 0 <= i < j < |rs| ==> rs[i] == 0.0 || rs[j] == 0.0 }

  lemma {:induction false} LeftIsWhole(rs: seq<real>)
    requires Ratios(rs)
    ensures 0.0 <= Left(rs) <= 1.0
    ensures Left(rs) == 1.0 <==> forall i :: 0 <= i < |rs| ==> rs[i] == 0.0
  {
    if rs != [] {
      var rest := rs[1..];
      LeftIsWhole(rest);
      ProductIsOne(1.0 - rs[0], Left(rest));
      assert forall i :: 0 < i < |rs| ==> rs[i] == rest[i - 1];
      if Left(rest) == 1.0 && rs[0] == 0.0 {
        assert forall i :: 0 <= i < |rs| ==> rs[i] == if i == 0 then 0.0 else rest[i - 1];
      }
    }
  }

  lemma ProductIsOne(a: real, b: real)
    requires 0.0 <= a <= 1.0 && 0.0 <= b <= 1.0
    ensures 0.0 <= a * b <= 1.0
    ensures a * b == 1.0 <==> a == 1.0 && b == 1.0
  {
    ProductSign(a, b);
    ProductSign(a, 1.0 - b);
    assert a * b + a * (1.0 - b) == a;
  }

  /** The sum of close ratios takes exactly what the source closed when at most one of them is
      positive; with two or more it takes more. */
  lemma {:induction false} SumIsExact(rs: seq<real>)
    requires Ratios(rs)
    ensures Sum(rs) == 1.0 - Left(rs) <==> AtMostOne(rs)
  {
    if rs != [] {
      var r, rest := rs[0], rs[1..];
      SumIsExact(rest);
      SumCoversProduct(rest);
      LeftIsWhole(rest);
      assert forall i :: 0 < i < |rs| ==> rs[i] == rest[i - 1];
      assert AtMostOne(rs) <==> AtMostOne(rest) && (r == 0.0 || Left(rest) == 1.0) by { OneMoreAtMostOne(rs); }
      MoreThanExact(r, Sum(rest), Left(rest));
    }
  }

  lemma OneMoreAtMostOne(rs: seq<real>)
    requires rs != []
    ensures AtMostOne(rs) <==>
              AtMostOne(rs[1..]) && (rs[0] == 0.0 || forall i :: 0 <= i < |rs[1..]| ==> rs[1..][i] == 0.0)
  {
    var rest := rs[1..];
    assert forall i :: 0 < i < |rs| ==> rs[i] == rest[i - 1];
    if AtMostOne(rs) {
      forall i, j | 0 <= i < j < |rest|
        ensures rest[i] == 0.0 || rest[j] == 0.0
      {
        assert rs[i + 1] == 0.0 || rs[j + 1] == 0.0;
      }
      forall i | rs[0] != 0.0 && 0 <= i < |rest|
        ensures rest[i] == 0.0
      {
        assert rs[0] == 0.0 || rs[i + 1] == 0.0;
      }
    }
  }

  lemma MoreThanExact(r: real, sum: real, left: real)
    requires r >= 0.0 && 0.0 <= left <= 1.0 && sum >= 1.0 - left
    ensures r + sum == 1.0 - (1.0 - r) * left <==> sum == 1.0 - left && (r == 0.0 || left == 1.0)
  {
    ProductSign(r, 1.0 - left);
    assert 1.0 - (1.0 - r) * left == 1.0 - left + r * left;
    assert r + sum - (1.0 - left + r * left) == (sum - (1.0 - left)) + r * (1.0 - left);
    if r > 0.0 && left < 1.0 { assert r * (1.0 - left) > 0.0; }
  }


  /** The sizes an unchanged copy puts aside for closes of the given ratios. */
  function SkippedSizes(copy: real, rs: seq<real>): real {
    if rs == [] then 0.0 else Share(copy, rs[0]) + SkippedSizes(copy, rs[1..])
  }

  lemma {:induction false} SkippedSizesAreShares(copy: real, rs: seq<real>)
    ensures SkippedSizes(copy, rs) == Share(copy, Sum(rs))
  {
    if rs != [] { SkippedSizesAreShares(copy, rs[1..]); }
  }

  /** A close that is executed after earlier ones were put aside never exceeds what is
      available, and closes at least the exact mirrored amount of them all together. */
  lemma {:induction false} AggregateCoversMirror(
    copy: real, earlier: seq<real>, ratio: real, price: real, minNotional: real)
    requires Ratios(earlier) && 0.0 <= ratio <= 1.0 && copy >= 0.0
    ensures var size := Share(copy, ratio);
            var small := CloseDecision(None, Some(price), size, size * price, false, true, false);
            var d := AggregateBelowMin(small, SkippedSizes(copy, earlier), copy, minNotional);
            d.reason.None? ==> Share(copy, 1.0 - Left(earlier + [ratio])) <= d.closeSize <= copy
  {
    hide Share, Sum, Left;
    var all := earlier + [ratio];
    assert all[..|earlier|] == earlier;
    SumCoversProduct(all);
    SkippedSizesAreShares(copy, earlier);
    SumOfSplit(all, |earlier|);
    ScaleSum(copy, Sum(earlier), ratio, Sum(all), 1.0 - Left(all));
  }

  lemma ScaleSum(copy: real, a: real, b: real, total: real, least: real)
    requires copy >= 0.0 && a + b == total && total >= least && 0.0 <= least <= 1.0
    ensures 0.0 <= Share(copy, least) <= Share(copy, b) + Share(copy, a)
    ensures Share(copy, least) <= copy
  {
    assert copy * (total - least) >= 0.0;
    assert copy * total == copy * a + copy * b;
    ShareBounds(copy, least);
  }

  lemma {:induction false} SumOfSplit(rs: seq<real>, n: nat)
    requires n + 1 == |rs|
    ensures Sum(rs) == Sum(rs[..n]) + rs[n]
  {
    if n > 0 {
      assert rs[..n][1..] == rs[1..][..n - 1];
      SumOfSplit(rs[1..], n - 1);
    } else {
      assert rs[1..] == [];
    }
  }
}
