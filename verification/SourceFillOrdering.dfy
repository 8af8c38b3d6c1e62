/** The canonical order of source fills: the Python key tuple and its four SQL readings. */
module SourceFillOrdering {
  import opened Numbers
  import opened Options
  import opened SqlLogic
  import TextOrder

  /** An external fill id; the two readings of "digits" only agree on ASCII text. */
  type FillId = s: string | forall c :: c in s ==> c < 128 as char witness ""

  /** A raw `startPosition` text, by how the two readers treat it.
      `Plain` matches the SQL pattern; `Extended` is what only Python's Decimal
      accepts (an exponent, a leading plus, surrounding blanks). */
  datatype StartText = Missing | Plain(value: real) | Extended(value: real) | Unreadable

  /** The fields of a stored wallet fill that decide its order. */
  datatype OrderedFill = OrderedFill(
    fillId: FillId, coin: string, timestampMs: int, direction: Option<string>, start: StartText)

  const CloseDirections: set<string> := {"Close Long", "Close Short", "Long > Short", "Short > Long"}

  /** The tuple of `source_fill_order_key`. */
  datatype OrderKey = OrderKey(
    timestampMs: int, coin: string, directionRank: int, position: real,
    numericRank: int, numericId: int, fillId: string)

  /** The order columns a work row, a fill state or an owned position persists. */
  datatype OrderColumns = OrderColumns(
    timestampMs: int, coin: string, directionRank: int, position: real,
    numericId: Option<int>, fillId: FillId)

  // ---------------------------------------------------------------- Python

  predicate IsDigits(s: string) { s != [] && forall i :: 0 <= i < |s| ==> '0' <= s[i] <= '9' }

  function DigitsValue(s: string): nat
    requires forall i :: 0 <= i < |s| ==> '0' <= s[i] <= '9'
  {
    if s == [] then 0 else 10 * DigitsValue(s[..|s| - 1]) + (s[|s| - 1] - '0') as nat
  }

  function NumericId(fillId: FillId): Option<int> {
    if IsDigits(fillId) then Some(DigitsValue(fillId)) else None
  }

  /** Python reads every decimal text; a missing or unreadable one counts as zero. */
  function PythonStart(start: StartText): real {
    match start
    case Plain(v) => v
    case Extended(v) => v
    case Missing => 0.0
    case Unreadable => 0.0
  }

  function FillOrderKey(fill: OrderedFill): OrderKey {
    var size := Abs(PythonStart(fill.start));
    var rank := if fill.direction.GetOr("") in CloseDirections then 0 else 1;
    var numeric := NumericId(fill.fillId);
    OrderKey(fill.timestampMs, fill.coin, rank, if rank == 0 then -size else size,
             if numeric.Some? then 0 else 1, numeric.GetOr(0), fill.fillId)
  }

  /** What `live_copy_work_record` and the fill plan persist for one fill. */
  function ColumnsOf(fill: OrderedFill): OrderColumns {
    var key := FillOrderKey(fill);
    OrderColumns(key.timestampMs, key.coin, key.directionRank, key.position,
                 if key.numericRank == 0 then Some(key.numericId) else None, fill.fillId)
  }

  /** The tuple read back from persisted columns. */
  function KeyOf(c: OrderColumns): OrderKey {
    OrderKey(c.timestampMs, c.coin, c.directionRank, c.position,
             if c.numericId.Some? then 0 else 1, c.numericId.GetOr(0), c.fillId)
  }

  /** Python's comparison of two key tuples. */
  predicate KeyLess(a: OrderKey, b: OrderKey) {
    if a.timestampMs != b.timestampMs then a.timestampMs < b.timestampMs
    else if a.coin != b.coin then TextOrder.Before(a.coin, b.coin)
    else if a.directionRank != b.directionRank then a.directionRank < b.directionRank
    else if a.position != b.position then a.position < b.position
    else if a.numericRank != b.numericRank then a.numericRank < b.numericRank
    else if a.numericId != b.numericId then a.numericId < b.numericId
    else TextOrder.Before(a.fillId, b.fillId)
  }

  lemma PersistedColumnsKeepTheKey(fill: OrderedFill)
    ensures KeyOf(ColumnsOf(fill)) == FillOrderKey(fill)
  {
  }

  /** A fill with the given order columns. */
  function FillOf(c: OrderColumns): OrderedFill {
    OrderedFill(c.fillId, c.coin, c.timestampMs, Some(if c.directionRank == 0 then "Close Long" else "Open Long"),
                Plain(c.position))
  }

  /** Some fill has these order columns. */
  predicate OfSomeFill(c: OrderColumns) { ColumnsOf(FillOf(c)) == c }

  lemma ColumnsAreOfSomeFill(fill: OrderedFill)
    ensures OfSomeFill(ColumnsOf(fill))
  {
  }

  lemma KeyLessIsIrreflexive(a: OrderKey)
    ensures !KeyLess(a, a)
  {
    TextOrder.BeforeIsIrreflexive(a.fillId);
  }

  lemma KeyLessIsTransitive(a: OrderKey, b: OrderKey, c: OrderKey)
    requires KeyLess(a, b) && KeyLess(b, c)
    ensures KeyLess(a, c)
  {
    if a.coin != b.coin && b.coin != c.coin && TextOrder.Before(a.coin, b.coin) && TextOrder.Before(b.coin, c.coin) {
      TextOrder.BeforeIsTransitive(a.coin, b.coin, c.coin);
      TextOrder.BeforeIsIrreflexive(a.coin);
    }
    if TextOrder.Before(a.fillId, b.fillId) && TextOrder.Before(b.fillId, c.fillId) {
      TextOrder.BeforeIsTransitive(a.fillId, b.fillId, c.fillId);
    }
  }

  lemma KeyLessIsTotal(a: OrderKey, b: OrderKey)
    requires a.fillId != b.fillId
    ensures KeyLess(a, b) || KeyLess(b, a)
  {
    if a.coin != b.coin { TextOrder.BeforeIsTotal(a.coin, b.coin); }
    TextOrder.BeforeIsTotal(a.fillId, b.fillId);
  }

  lemma KeyLessIsAsymmetric(a: OrderKey, b: OrderKey)
    requires KeyLess(a, b)
    ensures !KeyLess(b, a)
  {
    if KeyLess(b, a) {
      KeyLessIsTransitive(a, b, a);
      KeyLessIsIrreflexive(a);
    }
  }

  /** The order is a strict total order on fills with distinct ids. */
  lemma OrderIsStrictAndTotal(a: OrderedFill, b: OrderedFill, c: OrderedFill)
    ensures !KeyLess(FillOrderKey(a), FillOrderKey(a))
    ensures a.fillId != b.fillId ==>
              (KeyLess(FillOrderKey(a), FillOrderKey(b)) <==> !KeyLess(FillOrderKey(b), FillOrderKey(a)))
    ensures KeyLess(FillOrderKey(a), FillOrderKey(b)) && KeyLess(FillOrderKey(b), FillOrderKey(c)) ==>
              KeyLess(FillOrderKey(a), FillOrderKey(c))
  {
    var x, y, z := FillOrderKey(a), FillOrderKey(b), FillOrderKey(c);
    KeyLessIsIrreflexive(x);
    if a.fillId != b.fillId {
      KeyLessIsTotal(x, y);
      if KeyLess(x, y) { KeyLessIsAsymmetric(x, y); }
    }
    if KeyLess(x, y) && KeyLess(y, z) { KeyLessIsTransitive(x, y, z); }
  }

  // ------------------------------------------------------ what the order means

  /** Fills of one coin and millisecond, the second starting where the first one ended: an open
      of this size grows the position, a close shrinks it. Numbers of the ids do not matter. */
  predicate Follows(a: OrderedFill, b: OrderedFill, size: real) {
    && a.coin == b.coin && a.timestampMs == b.timestampMs && size > 0.0
    && a.start.Plain? && b.start.Plain?
    && var x, y := Abs(a.start.value), Abs(b.start.value);
       && a.direction.Some? && a.direction == b.direction
       && match a.direction.value
          case "Open Long" => y == x + size
          case "Open Short" => y == x + size
          case "Close Long" => y == x - size
          case "Close Short" => y == x - size
          case _ => false
  }

  /** The order replays a millisecond: fills that build a position up or down sort in the
      order in which each starts where the last one ended. */
  lemma OrderFollowsPosition(a: OrderedFill, b: OrderedFill, size: real)
    requires Follows(a, b, size)
    ensures KeyLess(FillOrderKey(a), FillOrderKey(b))
  {
  }

  /** In one millisecond of a coin, closes and flips come before everything else, and an
      earlier millisecond before both. */
  lemma ClosesComeFirst(a: OrderedFill, b: OrderedFill)
    requires a.coin == b.coin
    ensures a.timestampMs < b.timestampMs ==> KeyLess(FillOrderKey(a), FillOrderKey(b))
    ensures a.timestampMs == b.timestampMs
            && a.direction in {Some("Close Long"), Some("Close Short"), Some("Long > Short"), Some("Short > Long")}
            && b.direction !in {Some("Close Long"), Some("Close Short"), Some("Long > Short"), Some("Short > Long")}
            ==> KeyLess(FillOrderKey(a), FillOrderKey(b))
  {
  }

  predicate Digital(s: string) { forall i :: 0 <= i < |s| ==> '0' <= s[i] <= '9' }

  /** Appending a digit string scales the front by its length. */
  lemma {:induction false} DigitsSplit(s: string)
    requires Digital(s) && s != []
    ensures DigitsValue(s) == (s[0] - '0') as nat * Pow10(|s| - 1) + DigitsValue(s[1..])
  {
    if |s| > 1 {
      var n := |s| - 1;
      var front, rest := s[..n], s[1..];
      DigitsSplit(front);
      assert front[1..] == rest[..n - 1] && rest[n - 1] == s[n];
      TenTimes((s[0] - '0') as nat, Pow10(n - 1));
    } else {
      assert s[..0] == [] && s[1..] == [];
    }
  }

  lemma TenTimes(c: nat, unit: nat)
    ensures c * (10 * unit) == 10 * (c * unit)
  {
  }

  lemma {:induction false} DigitsBound(s: string)
    requires Digital(s)
    ensures DigitsValue(s) < Pow10(|s|)
  {
    if s != [] { DigitsBound(s[..|s| - 1]); }
  }

  /** Equally long digit strings compare as text compares. */
  lemma {:induction false} SameLengthCompares(a: string, b: string)
    requires Digital(a) && Digital(b) && |a| == |b|
    ensures DigitsValue(a) < DigitsValue(b) <==> TextOrder.Before(a, b)
    decreases |a|
  {
    if a != [] {
      var x, y := a[1..], b[1..];
      DigitsSplit(a);
      DigitsSplit(b);
      DigitsBound(x);
      DigitsBound(y);
      if a[0] == b[0] {
        SameLengthCompares(x, y);
      } else {
        StepBetween((a[0] - '0') as nat, (b[0] - '0') as nat, Pow10(|x|), DigitsValue(x), DigitsValue(y));
      }
    }
  }

  lemma StepBetween(c: nat, d: nat, unit: nat, x: nat, y: nat)
    requires c != d && x < unit && y < unit
    ensures c * unit + x < d * unit + y <==> c < d
  {
    if c < d { UnitsApart(c, d, unit); } else { UnitsApart(d, c, unit); }
  }

  lemma UnitsApart(c: nat, d: nat, unit: nat)
    requires c < d
    ensures c * unit + unit <= d * unit
  {
    assert d * unit == c * unit + unit + (d - c - 1) * unit;
    assert (d - c - 1) * unit >= 0;
  }

  /** Numeric ids without leading zeros compare by length first and then as text, so "999" comes before "1000". */
  lemma NumericIdsCompare(a: string, b: string)
    requires Digital(a) && Digital(b) && a != [] && b != [] && a[0] != '0' && b[0] != '0'
    ensures DigitsValue(a) < DigitsValue(b) <==> |a| < |b| || (|a| == |b| && TextOrder.Before(a, b))
  {
    if |a| == |b| {
      SameLengthCompares(a, b);
    } else if |a| < |b| {
      LongerIsLarger(a, b);
    } else {
      LongerIsLarger(b, a);
    }
  }

  lemma {:induction false} Pow10Grows(a: nat, b: nat)
    requires a <= b
    ensures Pow10(a) <= Pow10(b)
    decreases b - a
  {
    if a < b { Pow10Grows(a, b - 1); }
  }

  lemma LongerIsLarger(a: string, b: string)
    requires Digital(a) && Digital(b) && |a| < |b| && b[0] != '0'
    ensures DigitsValue(a) < DigitsValue(b)
  {
    DigitsBound(a);
    DigitsSplit(b);
    Pow10Grows(|a|, |b| - 1);
    UnitsApart(0, (b[0] - '0') as nat, Pow10(|b| - 1));
  }

  /** An id is a number when it is made of decimal digits, and of nothing else. */
  lemma NumbersAreDigits(s: string)
    ensures IsDigits(s)
            <==> s != "" && forall c :: c in s ==> c in {'0', '1', '2', '3', '4', '5', '6', '7', '8', '9'}
  {
    if IsDigits(s) {
      forall c | c in s
        ensures c in {'0', '1', '2', '3', '4', '5', '6', '7', '8', '9'}
      {
        var i :| 0 <= i < |s| && s[i] == c;
      }
    } else if i :| 0 <= i < |s| && !('0' <= s[i] <= '9') {
      assert s[i] in s;
    }
  }

  /** Fills that agree up to their ids sort by the ids' numbers, numbers before other text, which sorts as text. */
  lemma IdsDecideLast(a: OrderedFill, b: OrderedFill)
    requires a.(fillId := b.fillId) == b
    ensures var less := KeyLess(FillOrderKey(a), FillOrderKey(b));
            var x, y := IsDigits(a.fillId), IsDigits(b.fillId);
            && (x && !y ==> less) && (y && !x ==> !less)
            && (!x && !y ==> (less <==> TextOrder.Before(a.fillId, b.fillId)))
            && (x && y && a.fillId[0] != '0' && b.fillId[0] != '0' ==>
                  (less <==> || |a.fillId| < |b.fillId|
                             || (|a.fillId| == |b.fillId| && TextOrder.Before(a.fillId, b.fillId))))
  {
    if IsDigits(a.fillId) && IsDigits(b.fillId) && a.fillId[0] != '0' && b.fillId[0] != '0' {
      NumericIdsCompare(a.fillId, b.fillId);
      NumericIdsCompare(b.fillId, a.fillId);
    }
  }

  // ------------------------------------------------------------------- SQL

  function NumericRank(numericId: Option<int>): int { if numericId.Some? then 0 else 1 }

  /** `earlier_order` of the work claim: an aliased work row against a work row. */
  function WorkEarlier(e: OrderColumns, w: OrderColumns): Truth {
    var ts := Lift(e.timestampMs == w.timestampMs);
    var coin := Lift(e.coin == w.coin);
    var rank := Lift(e.directionRank == w.directionRank);
    var pos := Lift(e.position == w.position);
    var eRank, wRank := NumericRank(e.numericId), NumericRank(w.numericId);
    Or6(
      Lift(e.timestampMs < w.timestampMs),
      And(ts, Lift(TextOrder.Before(e.coin, w.coin))),
      And3(ts, coin, Lift(e.directionRank < w.directionRank)),
      And4(ts, coin, rank, Lift(e.position < w.position)),
      And5(ts, coin, rank, pos, Lift(eRank < wRank)),
      And6(ts, coin, rank, pos, Lift(eRank == wRank),
           Or3(And(Lift(wRank == 0), Less(e.numericId, w.numericId)),
               And(Lift(wRank == 1), Lift(TextOrder.Before(e.fillId, w.fillId))),
               And3(Lift(wRank == 0), Equal(e.numericId, w.numericId),
                    Lift(TextOrder.Before(e.fillId, w.fillId))))))
  }

  /** `earlier_source_order` of the prior-fill blocker: a fill state's columns
      against values bound from Python, where a missing number removes a disjunct. */
  function BlockerEarlier(s: OrderColumns, f: OrderColumns): Truth {
    var ts := Lift(s.timestampMs == f.timestampMs);
    var rank := Lift(s.directionRank == f.directionRank);
    var pos := Lift(s.position == f.position);
    var sRank, fRank := NumericRank(s.numericId), NumericRank(f.numericId);
    Or6(
      Lift(s.timestampMs < f.timestampMs),
      And(ts, Lift(s.directionRank < f.directionRank)),
      And3(ts, rank, Lift(s.position < f.position)),
      And4(ts, rank, pos, Lift(sRank < fRank)),
      if f.numericId.Some? then And5(ts, rank, pos, Lift(sRank == fRank), Less(s.numericId, f.numericId))
      else False,
      And5(ts, rank, pos, Lift(sRank == fRank),
           Or(And(Lift(f.numericId.None?), Lift(TextOrder.Before(s.fillId, f.fillId))),
              And3(Lift(f.numericId.Some?), EqualBound(s.numericId, f.numericId),
                   Lift(TextOrder.Before(s.fillId, f.fillId))))))
  }

  /** The order expressions the recovery query derives from a wallet fill's row. */
  datatype WalletOrder = WalletOrder(
    directionRank: int, position: real, numericRank: int, numericId: Option<int>)

  /** `wallet_fill_source_order_expressions`: CASE with a NULL test falls to its else branch. */
  function WalletExpressions(fill: OrderedFill): WalletOrder {
    var isClose := if fill.direction.None? then Unknown else Lift(fill.direction.value in CloseDirections);
    var rank := if Where(isClose) then 0 else 1;
    var matches := if fill.start.Missing? then Unknown else Lift(fill.start.Plain?);
    var raw := if Where(matches) then fill.start.value else 0.0;
    var numeric := IsDigits(fill.fillId);
    WalletOrder(rank, if rank == 0 then -Abs(raw) else Abs(raw),
                if numeric then 0 else 1, if numeric then Some(DigitsValue(fill.fillId)) else None)
  }

  /** `has_prior_incomplete` and `owned_position_precedes_fill`: persisted columns
      against the wallet fill's expressions, with unguarded nullable comparisons. */
  function PrecedesWalletFill(s: OrderColumns, fill: OrderedFill): Truth {
    var w := WalletExpressions(fill);
    var ts := Lift(s.timestampMs == fill.timestampMs);
    var rank := Lift(s.directionRank == w.directionRank);
    var pos := Lift(s.position == w.position);
    var sRank := NumericRank(s.numericId);
    Or6(
      Lift(s.timestampMs < fill.timestampMs),
      And(ts, Lift(s.directionRank < w.directionRank)),
      And3(ts, rank, Lift(s.position < w.position)),
      And4(ts, rank, pos, Lift(sRank < w.numericRank)),
      And5(ts, rank, pos, Lift(sRank == w.numericRank), Less(s.numericId, w.numericId)),
      And5(ts, rank, pos, Lift(sRank == w.numericRank),
           Or(And(Lift(w.numericRank == 1), Lift(TextOrder.Before(s.fillId, fill.fillId))),
              And3(Lift(w.numericRank == 0), Equal(s.numericId, w.numericId),
                   Lift(TextOrder.Before(s.fillId, fill.fillId))))))
  }

  // ------------------------------------------------ one order, five encodings

  /** The one family of fills on which SQL and Python read a different position. */
  predicate ReadersDisagree(start: StartText) { start.Extended? && start.value != 0.0 }

  lemma WorkClaimOrder(e: OrderColumns, w: OrderColumns)
    ensures Where(WorkEarlier(e, w)) <==> KeyLess(KeyOf(e), KeyOf(w))
  {
    TextOrder.BeforeIsIrreflexive(e.coin);
  }

  lemma BlockerOrder(s: OrderColumns, f: OrderColumns)
    requires s.coin == f.coin
    ensures Where(BlockerEarlier(s, f)) <==> KeyLess(KeyOf(s), KeyOf(f))
  {
  }

  /** The wallet fill's SQL expressions are the Python components exactly off the disagreeing family. */
  lemma WalletExpressionsAgree(fill: OrderedFill)
    ensures var w, c := WalletExpressions(fill), ColumnsOf(fill);
            (w.directionRank == c.directionRank && w.position == c.position
             && w.numericRank == NumericRank(c.numericId) && w.numericId == c.numericId)
            <==> !ReadersDisagree(fill.start)
  {
  }

  lemma RecoveryOrder(s: OrderColumns, fill: OrderedFill)
    requires s.coin == fill.coin && !ReadersDisagree(fill.start)
    ensures Where(PrecedesWalletFill(s, fill)) <==> KeyLess(KeyOf(s), FillOrderKey(fill))
  {
  }

  /** The recovery and owned-position predicates order every persisted row as Python
      does exactly when both readers understand the fill's start position. */
  lemma RecoveryOrderExactly(fill: OrderedFill)
    ensures (forall s: OrderColumns :: s.coin == fill.coin ==>
               (Where(PrecedesWalletFill(s, fill)) <==> KeyLess(KeyOf(s), FillOrderKey(fill))))
            <==> !ReadersDisagree(fill.start)
  {
    if ReadersDisagree(fill.start) {
      // A same-millisecond row halfway between the two readings.
      var c := ColumnsOf(fill);
      var s := OrderColumns(fill.timestampMs, fill.coin, c.directionRank, c.position / 2.0, None, fill.fillId);
      assert !(Where(PrecedesWalletFill(s, fill)) <==> KeyLess(KeyOf(s), FillOrderKey(fill)));
    }
  }

  /** All encodings agree, for fills both readers understand: the work claim, the
      prior-fill blocker, the recovery query and the owned-position test. */
  lemma OneOrderFiveEncodings(a: OrderedFill, b: OrderedFill)
    requires a.coin == b.coin && !ReadersDisagree(b.start)
    ensures var less := KeyLess(FillOrderKey(a), FillOrderKey(b));
            && (Where(WorkEarlier(ColumnsOf(a), ColumnsOf(b))) <==> less)
            && (Where(BlockerEarlier(ColumnsOf(a), ColumnsOf(b))) <==> less)
            && (Where(PrecedesWalletFill(ColumnsOf(a), b)) <==> less)
  {
    PersistedColumnsKeepTheKey(a);
    PersistedColumnsKeepTheKey(b);
    WorkClaimOrder(ColumnsOf(a), ColumnsOf(b));
    BlockerOrder(ColumnsOf(a), ColumnsOf(b));
    RecoveryOrder(ColumnsOf(a), b);
  }
}
