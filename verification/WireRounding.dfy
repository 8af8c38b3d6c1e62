/** Rounding a live order to exchange ticks and lots, with the direction and error bounds it keeps. */
module WireRounding {
  import opened Numbers
  import opened Options

  datatype Rounding = Down | Up

  const SignificantDigits: nat := 5

  /** The number of decimal digits of a positive number. */
  function Digits(x: nat): (d: nat)
    requires x > 0
    ensures d > 0
  {
    if x < 10 then 1 else 1 + Digits(x / 10)
  }

  function Excess(a: nat, b: nat): nat { if a > b then a - b else 0 }

  function RoundTo(x: nat, quantum: nat, rounding: Rounding): nat
    requires quantum > 0
  {
    var below := x - x % quantum;
    if rounding == Down || below == x then below else below + quantum
  }

  // ----------------------------------------------------------------- prices
  // A price is a number of units of ten to the minus `scale`, fine enough to hold it
  // exactly; a quantum finer than one unit then changes nothing.

  function SignificantQuantum(units: nat): nat {
    if units == 0 then 1 else Pow10(Excess(Digits(units), SignificantDigits))
  }

  function RoundSignificant(units: nat, rounding: Rounding): nat {
    if units == 0 then units else RoundTo(units, SignificantQuantum(units), rounding)
  }

  function TickQuantum(scale: nat, decimals: nat): nat { Pow10(Excess(scale, decimals)) }

  function WirePrice(units: nat, scale: nat, isBuy: bool, decimals: nat): nat {
    var rounding := if isBuy then Down else Up;
    RoundTo(RoundSignificant(units, rounding), TickQuantum(scale, decimals), rounding)
  }

  // ------------------------------------------------------ powers and multiples

  function Times(k: nat, q: nat): nat { k * q }

  ghost predicate IsMultiple(y: nat, q: nat) { exists k: nat :: y == Times(k, q) }

  lemma MulApart(j: nat, k: nat, q: nat)
    requires j < k
    ensures Times(j, q) + q <= Times(k, q)
  {
    assert (k - j - 1) * q >= 0;
    assert k * q == j * q + q + (k - j - 1) * q;
  }

  /** Distinct multiples are at least a quantum apart. */
  lemma MultiplesApart(a: nat, b: nat, q: nat)
    requires IsMultiple(a, q) && IsMultiple(b, q) && a < b
    ensures a + q <= b
  {
    var j: nat :| a == Times(j, q);
    var k: nat :| b == Times(k, q);
    if j < k { MulApart(j, k, q); }
    if k < j { MulApart(k, j, q); }
  }

  lemma MultiplesChain(y: nat, p: nat, q: nat)
    requires IsMultiple(y, p) && IsMultiple(p, q)
    ensures IsMultiple(y, q)
  {
    var j: nat :| y == Times(j, p);
    var k: nat :| p == Times(k, q);
    assert j * (k * q) == (j * k) * q;
    assert y == Times(j * k, q);
  }

  lemma TrivialMultiples(y: nat)
    ensures IsMultiple(y, 1) && IsMultiple(y, y) && IsMultiple(0, y)
  {
    assert y == Times(y, 1) && y == Times(1, y) && 0 == Times(0, y);
  }

  lemma {:induction false} Pow10Multiple(a: nat, b: nat)
    requires a <= b
    ensures IsMultiple(Pow10(b), Pow10(a)) && Pow10(a) <= Pow10(b)
    ensures a < b ==> 10 * Pow10(a) <= Pow10(b)
    decreases b - a
  {
    if a == b {
      TrivialMultiples(Pow10(a));
    } else {
      Pow10Multiple(a, b - 1);
      assert Pow10(b) == Times(10, Pow10(b - 1));
      MultiplesChain(Pow10(b), Pow10(b - 1), Pow10(a));
    }
  }

  lemma {:induction false} DigitsBound(x: nat)
    requires x > 0
    ensures Pow10(Digits(x) - 1) <= x < Pow10(Digits(x))
  {
    if x >= 10 { DigitsBound(x / 10); }
  }

  /** The two bounds fix the number of digits. */
  lemma DigitsOf(x: nat, d: nat)
    requires x > 0 && d > 0 && Pow10(d - 1) <= x < Pow10(d)
    ensures Digits(x) == d
  {
    DigitsBound(x);
    if Digits(x) < d { Pow10Multiple(Digits(x), d - 1); }
    if Digits(x) > d { Pow10Multiple(d, Digits(x) - 1); }
  }

  /** Rounding lands on a multiple in its direction, less than a quantum away. */
  lemma RoundToBounds(x: nat, q: nat, rounding: Rounding)
    requires q > 0
    ensures var y := RoundTo(x, q, rounding);
            && IsMultiple(y, q)
            && (if rounding == Down then y <= x < y + q else x <= y < x + q)
  {
    var k := x / q;
    assert x - x % q == Times(k, q);
    assert Times(k + 1, q) == Times(k, q) + q;
  }

  /** A multiple within one quantum in the rounding direction is the rounded value. */
  lemma RoundToUnique(x: nat, q: nat, rounding: Rounding, m: nat)
    requires q > 0 && IsMultiple(m, q)
    requires if rounding == Down then m <= x < m + q else x <= m < x + q
    ensures RoundTo(x, q, rounding) == m
  {
    hide RoundTo;
    var y := RoundTo(x, q, rounding);
    RoundToBounds(x, q, rounding);
    if y < m { MultiplesApart(y, m, q); }
    if m < y { MultiplesApart(m, y, q); }
  }

  lemma MultipleIsFixed(m: nat, q: nat, rounding: Rounding)
    requires q > 0 && IsMultiple(m, q)
    ensures RoundTo(m, q, rounding) == m
  {
    RoundToUnique(m, q, rounding, m);
  }

  /** No multiple of q lies between x and its rounded value. */
  lemma NoMultipleBetween(x: nat, q: nat, rounding: Rounding, m: nat)
    requires q > 0 && IsMultiple(m, q)
    requires if rounding == Down then m <= x else x <= m
    ensures if rounding == Down then m <= RoundTo(x, q, rounding) else RoundTo(x, q, rounding) <= m
  {
    hide RoundTo;
    var y := RoundTo(x, q, rounding);
    RoundToBounds(x, q, rounding);
    if y < m { MultiplesApart(y, m, q); }
    if m < y { MultiplesApart(m, y, q); }
  }

  /** Rounding to a quantum and then to a multiple of it is one rounding to the multiple. */
  lemma RoundCoarser(x: nat, q: nat, coarse: nat, rounding: Rounding)
    requires q > 0 && coarse > 0 && IsMultiple(coarse, q)
    ensures RoundTo(RoundTo(x, q, rounding), coarse, rounding) == RoundTo(x, coarse, rounding)
  {
    hide RoundTo;
    var y, z := RoundTo(x, q, rounding), RoundTo(x, coarse, rounding);
    RoundToBounds(x, q, rounding);
    RoundToBounds(x, coarse, rounding);
    MultiplesChain(z, coarse, q);
    NoMultipleBetween(x, q, rounding, z);
    RoundToUnique(y, coarse, rounding, z);
  }

  // ------------------------------------------------------------ price results

  function SignificantExponent(units: nat): nat {
    if units == 0 then 0 else Excess(Digits(units), SignificantDigits)
  }

  /** The coarser of the five-digit quantum and the tick, as a power of ten. */
  function WireExponent(units: nat, scale: nat, decimals: nat): nat {
    var s, t := SignificantExponent(units), Excess(scale, decimals);
    if s <= t then t else s
  }

  function WireQuantum(units: nat, scale: nat, decimals: nat): nat {
    Pow10(WireExponent(units, scale, decimals))
  }

  /** Five significant digits and then the tick is one rounding to the coarser of the two. */
  lemma WirePriceIsOneRounding(units: nat, scale: nat, isBuy: bool, decimals: nat)
    ensures WirePrice(units, scale, isBuy, decimals) ==
              RoundTo(units, WireQuantum(units, scale, decimals), if isBuy then Down else Up)
  {
    hide RoundTo;
    var rounding := if isBuy then Down else Up;
    var s, t := SignificantExponent(units), Excess(scale, decimals);
    TrivialMultiples(0);
    if units == 0 {
      TrivialMultiples(Pow10(t));
      MultipleIsFixed(0, Pow10(t), rounding);
    } else if s <= t {
      Pow10Multiple(s, t);
      RoundCoarser(units, Pow10(s), Pow10(t), rounding);
    } else {
      Pow10Multiple(t, s);
      RoundToBounds(units, Pow10(s), rounding);
      var y := RoundTo(units, Pow10(s), rounding);
      MultiplesChain(y, Pow10(s), Pow10(t));
      MultipleIsFixed(y, Pow10(t), rounding);
    }
  }

  /** A wire price is a multiple of the wire quantum, never worse than the limit, and
      less than one quantum away from it. */
  lemma WirePriceBounds(units: nat, scale: nat, isBuy: bool, decimals: nat)
    ensures var wire, q := WirePrice(units, scale, isBuy, decimals), WireQuantum(units, scale, decimals);
            && IsMultiple(wire, q)
            && (if isBuy then wire <= units < wire + q else units <= wire < units + q)
  {
    WirePriceIsOneRounding(units, scale, isBuy, decimals);
    RoundToBounds(units, WireQuantum(units, scale, decimals), if isBuy then Down else Up);
  }

  /** Where the tick is not the coarser of the two, the relative error is below one in ten thousand. */
  lemma WirePriceRelativeError(units: nat, scale: nat, isBuy: bool, decimals: nat)
    requires units > 0 && Excess(scale, decimals) <= SignificantExponent(units)
    ensures var wire := WirePrice(units, scale, isBuy, decimals);
            10_000 * (if wire <= units then units - wire else wire - units) < units
  {
    hide RoundTo, WirePrice;
    WirePriceBounds(units, scale, isBuy, decimals);
    DigitsBound(units);
    if Digits(units) > SignificantDigits {
      FourDigitsUp(Digits(units) - SignificantDigits);
    }
  }

  lemma FourDigitsUp(n: nat)
    ensures Pow10(n + 4) == 10_000 * Pow10(n)
  {
    assert Pow10(n + 4) == 10 * Pow10(n + 3);
    assert Pow10(n + 2) == 10 * Pow10(n + 1);
  }

  /** A power of ten is a multiple of its own significant quantum. */
  lemma PowerIsSignificant(d: nat)
    ensures Digits(Pow10(d)) == d + 1
    ensures IsMultiple(Pow10(d), SignificantQuantum(Pow10(d)))
  {
    DigitsOf(Pow10(d), d + 1);
    Pow10Multiple(Excess(d + 1, SignificantDigits), d);
  }

  /** A rounded price is a multiple of its own significant quantum: rounding keeps it
      below its next power of ten or lifts it exactly onto that power. */
  lemma RoundedIsSignificant(units: nat, c: nat, rounding: Rounding)
    requires units > 0 && SignificantExponent(units) <= c
    requires RoundTo(units, Pow10(c), rounding) > 0
    ensures IsMultiple(RoundTo(units, Pow10(c), rounding), SignificantQuantum(RoundTo(units, Pow10(c), rounding)))
  {
    hide RoundTo;
    var q, d := Pow10(c), Digits(units);
    var y := RoundTo(units, q, rounding);
    RoundToBounds(units, q, rounding);
    DigitsBound(units);
    DigitsBound(y);
    var e := SignificantExponent(y);
    if e <= c {
      Pow10Multiple(e, c);
      MultiplesChain(y, q, Pow10(e));
    } else if c <= d {
      // More digits than before: only a lift onto the next power of ten does that.
      Pow10Multiple(d, Digits(y) - 1);
      Pow10Multiple(c, d);
      NoMultipleBetween(units, q, rounding, if rounding == Up then Pow10(d) else y);
      assert y == Pow10(d);
      PowerIsSignificant(d);
    } else {
      Pow10Multiple(d, c);
      TrivialMultiples(q);
      RoundToUnique(units, q, rounding, if rounding == Up then q else 0);
      PowerIsSignificant(c);
    }
  }

  /** Rounding a wire price again changes nothing. */
  lemma WirePriceIsIdempotent(units: nat, scale: nat, isBuy: bool, decimals: nat)
    ensures var wire := WirePrice(units, scale, isBuy, decimals);
            WirePrice(wire, scale, isBuy, decimals) == wire
  {
    hide RoundTo, WirePrice;
    var rounding := if isBuy then Down else Up;
    var wire := WirePrice(units, scale, isBuy, decimals);
    var c, t := WireExponent(units, scale, decimals), Excess(scale, decimals);
    WirePriceIsOneRounding(units, scale, isBuy, decimals);
    WirePriceIsOneRounding(wire, scale, isBuy, decimals);
    RoundToBounds(units, Pow10(c), rounding);
    if wire == 0 {
      TrivialMultiples(WireQuantum(0, scale, decimals));
    } else if SignificantExponent(wire) <= t {
      Pow10Multiple(t, c);
      MultiplesChain(wire, Pow10(c), Pow10(t));
    } else {
      if units == 0 {
        TrivialMultiples(Pow10(c));
        MultipleIsFixed(0, Pow10(c), rounding);
      }
      RoundedIsSignificant(units, c, rounding);
    }
    MultipleIsFixed(wire, WireQuantum(wire, scale, decimals), rounding);
  }

  lemma TenfoldMultiple(y: nat, q: nat)
    requires IsMultiple(y, q)
    ensures IsMultiple(10 * y, 10 * q)
  {
    var k: nat :| y == Times(k, q);
    assert 10 * (k * q) == k * (10 * q);
    assert 10 * y == Times(k, 10 * q);
  }

  /** A finer scale names the same price and gives the same wire price. */
  lemma ScaleDoesNotMatter(units: nat, scale: nat, isBuy: bool, decimals: nat)
    requires scale >= decimals
    ensures WirePrice(10 * units, scale + 1, isBuy, decimals) == 10 * WirePrice(units, scale, isBuy, decimals)
  {
    hide RoundTo, WirePrice;
    var rounding := if isBuy then Down else Up;
    WirePriceIsOneRounding(units, scale, isBuy, decimals);
    WirePriceIsOneRounding(10 * units, scale + 1, isBuy, decimals);
    var c := WireExponent(units, scale, decimals);
    var wire := WirePrice(units, scale, isBuy, decimals);
    RoundToBounds(units, Pow10(c), rounding);
    assert WireExponent(10 * units, scale + 1, decimals) == c + 1;
    TenfoldMultiple(wire, Pow10(c));
    RoundToUnique(10 * units, Pow10(c + 1), rounding, 10 * wire);
  }

  // ----------------------------------------------------------- slippage guard

  /** `validate_account_order`'s guard: the limit is within the allowed distance of the observed price. */
  predicate WithinSlippage(limit: real, observed: real, maxBps: real)
    requires observed > 0.0
  {
    (if limit >= observed then limit - observed else observed - limit) / observed * 10_000.0 <= maxBps
  }

  /** The guard in basis points of the observed price, without the division. */
  lemma GuardExactly(limit: real, observed: real, maxBps: real)
    requires observed > 0.0
    ensures WithinSlippage(limit, observed, maxBps)
            <==> && (limit - observed) * 10_000.0 <= maxBps * observed
                 && (observed - limit) * 10_000.0 <= maxBps * observed
  {
    var distance := if limit >= observed then limit - observed else observed - limit;
    var bps := distance / observed * 10_000.0;
    assert bps * observed == distance * 10_000.0 by { assert distance / observed * observed == distance; }
    SignOf(maxBps - bps, observed);
    assert (maxBps - bps) * observed == maxBps * observed - bps * observed;
  }

  /** How far a price is on the side that costs money. */
  function AdverseBps(price: real, observed: real, isBuy: bool): real
    requires observed > 0.0
  {
    (if isBuy then price - observed else observed - price) / observed * 10_000.0
  }

  function AsReal(units: nat, scale: nat): real { units as real / Pow10(scale) as real }

  lemma QuotientKeepsOrder(a: real, b: real, d: real)
    requires a <= b && d > 0.0
    ensures a / d <= b / d
  {
  }

  /** The guard checked on the intent also bounds the adverse slippage of the wire price. */
  lemma WirePriceKeepsSlippageGuard(
    units: nat, scale: nat, isBuy: bool, decimals: nat, observed: real, maxBps: real)
    requires observed > 0.0 && WithinSlippage(AsReal(units, scale), observed, maxBps)
    ensures AdverseBps(AsReal(WirePrice(units, scale, isBuy, decimals), scale), observed, isBuy) <= maxBps
  {
    WirePriceBounds(units, scale, isBuy, decimals);
    var wire := WirePrice(units, scale, isBuy, decimals);
    var limit, sent := AsReal(units, scale), AsReal(wire, scale);
    if isBuy {
      QuotientKeepsOrder(wire as real, units as real, Pow10(scale) as real);
      QuotientKeepsOrder(sent - observed, if limit >= observed then limit - observed else observed - limit, observed);
    } else {
      QuotientKeepsOrder(units as real, wire as real, Pow10(scale) as real);
      QuotientKeepsOrder(observed - sent, if limit >= observed then limit - observed else observed - limit, observed);
    }
  }

  // ------------------------------------------------------------------ sizes

  function Lot(decimals: nat): real { 1.0 / Pow10(decimals) as real }

  /** A size in whole lots, towards zero or away from it. */
  function Lots(size: real, decimals: nat, rounding: Rounding): int {
    var exact := size * Pow10(decimals) as real;
    if (rounding == Down) == (size >= 0.0) then exact.Floor else Ceiling(exact)
  }

  function WireSize(size: real, decimals: nat, rounding: Rounding): real {
    FromLots(Lots(size, decimals, rounding), decimals)
  }

  function FromLots(lots: int, decimals: nat): real { lots as real / Pow10(decimals) as real }

  function Notional(size: real, price: real): real { size * price }

  function WireMinSize(notional: real, price: real, decimals: nat): real {
    if price <= 0.0 then 0.0 else WireSize(notional / price, decimals, Up)
  }

  datatype WireError = SizeBelowLot | PriceBelowTick | NotionalBelowMinimum

  datatype WireValues = WireValues(size: real, limitPrice: real, notional: real)

  /** What the caller asks for. `minimum` and `buffer` are the exchange minimum and its margin. */
  datatype WireRequest = WireRequest(
    size: real, units: nat, scale: nat, isBuy: bool, reduceOnly: bool,
    sizeDecimals: nat, priceDecimals: nat, minimum: real, buffer: real, adjustToMinimum: bool)

  function AtLeastZero(x: real): real { if x < 0.0 then 0.0 else x }

  function LimitPrice(r: WireRequest): real {
    AsReal(WirePrice(r.units, r.scale, r.isBuy, r.priceDecimals), r.scale)
  }

  /** The notional an order is lifted to: an entry also carries the buffer. */
  function WireMinimum(r: WireRequest): real {
    if r.reduceOnly then AtLeastZero(r.minimum) else AtLeastZero(r.minimum) + AtLeastZero(r.buffer)
  }

  function AdjustedSize(r: WireRequest): real {
    var up := WireSize(r.size, r.sizeDecimals, Up);
    var least := WireMinSize(WireMinimum(r), LimitPrice(r), r.sizeDecimals);
    if up >= least then up else least
  }

  function ChosenSize(r: WireRequest): real {
    var down := WireSize(r.size, r.sizeDecimals, Down);
    var minimum := WireMinimum(r);
    if r.adjustToMinimum && minimum > 0.0 && Notional(down, LimitPrice(r)) < minimum
       && Notional(AdjustedSize(r), LimitPrice(r)) >= minimum
    then AdjustedSize(r) else down
  }

  function WireOrder(r: WireRequest): Result<WireValues, WireError> {
    var price, size := LimitPrice(r), ChosenSize(r);
    var required := if !r.reduceOnly && r.adjustToMinimum then WireMinimum(r) else AtLeastZero(r.minimum);
    if size <= 0.0 then Err(SizeBelowLot)
    else if price <= 0.0 then Err(PriceBelowTick)
    else if required > 0.0 && Notional(size, price) < required then Err(NotionalBelowMinimum)
    else Ok(WireValues(size, price, Notional(size, price)))
  }

  ghost predicate IsLotMultiple(size: real, decimals: nat) {
    exists lots: int :: size == FromLots(lots, decimals)
  }

  lemma DivideLots(lots: int, n: nat, size: real)
    requires n > 0
    ensures lots as real <= size * n as real ==> lots as real / n as real <= size
    ensures lots as real >= size * n as real ==> lots as real / n as real >= size
    ensures (lots as real) - 1.0 < size * n as real ==> lots as real / n as real < size + 1.0 / n as real
    ensures (lots as real) + 1.0 > size * n as real ==> lots as real / n as real > size - 1.0 / n as real
  {
    var d := n as real;
    var a, one := lots as real / d, 1.0 / d;
    assert a * d == lots as real && one * d == 1.0;
    assert (a - size) * d == lots as real - size * d;
    assert (a - size - one) * d == lots as real - size * d - 1.0;
    assert (a - size + one) * d == lots as real - size * d + 1.0;
    SignOf(a - size, d);
    SignOf(size - a, d);
    SignOf(size + one - a, d);
    SignOf(a - size + one, d);
  }

  lemma SignOf(x: real, d: real)
    requires d > 0.0
    ensures x * d >= 0.0 <==> x >= 0.0
    ensures x * d > 0.0 <==> x > 0.0
  {
  }

  /** Rounding a size moves it less than one lot, in the rounding direction. */
  lemma WireSizeBounds(size: real, decimals: nat, rounding: Rounding)
    requires size >= 0.0
    ensures var wire, lot := WireSize(size, decimals, rounding), Lot(decimals);
            && IsLotMultiple(wire, decimals)
            && (if rounding == Down then wire <= size < wire + lot else size <= wire < size + lot)
    ensures WireSize(size, decimals, rounding) >= 0.0
  {
    var n := Pow10(decimals);
    var lots := Lots(size, decimals, rounding);
    DivideLots(lots, n, size);
    assert size * n as real >= 0.0 by { SignOf(size, n as real); }
    DivideLots(lots, n, 0.0);
  }

  lemma LotIsPositive(decimals: nat)
    ensures Lot(decimals) > 0.0
  {
    assert Lot(decimals) * Pow10(decimals) as real == 1.0;
    SignOf(Lot(decimals), Pow10(decimals) as real);
  }

  lemma ProductKeepsOrder(a: real, b: real, price: real)
    requires price > 0.0
    ensures a <= b ==> Notional(a, price) <= Notional(b, price)
    ensures a < b ==> Notional(a, price) < Notional(b, price)
    ensures Notional(a + b, price) == Notional(a, price) + Notional(b, price)
    ensures Notional(a, price) > 0.0 <==> a > 0.0
  {
    SignOf(b - a, price);
    SignOf(a, price);
    assert (b - a) * price == b * price - a * price;
    assert (a + b) * price == a * price + b * price;
  }

  /** The smallest admissible size reaches the notional, by less than one lot. */
  lemma WireMinSizeBounds(notional: real, price: real, decimals: nat)
    requires notional >= 0.0 && price > 0.0
    ensures var size := WireMinSize(notional, price, decimals);
            && IsLotMultiple(size, decimals)
            && notional <= Notional(size, price) < notional + Notional(Lot(decimals), price)
  {
    var exact := notional / price;
    assert Notional(exact, price) == notional;
    SignOf(exact, price);
    WireSizeBounds(exact, decimals, Up);
    var size, lot := WireMinSize(notional, price, decimals), Lot(decimals);
    ProductKeepsOrder(exact, size, price);
    ProductKeepsOrder(size, exact + lot, price);
    ProductKeepsOrder(exact, lot, price);
  }

  /** Lifting an order to its minimum always reaches it, and by less than one lot over
      the larger of the requested notional and the minimum. */
  lemma AdjustedSizeBounds(r: WireRequest)
    requires r.size > 0.0 && LimitPrice(r) > 0.0
    ensures var price, minimum, lot := LimitPrice(r), WireMinimum(r), Lot(r.sizeDecimals);
            var asked := Notional(r.size, price);
            && IsLotMultiple(AdjustedSize(r), r.sizeDecimals)
            && minimum <= Notional(AdjustedSize(r), price)
            && Notional(AdjustedSize(r), price) < (if asked >= minimum then asked else minimum) + Notional(lot, price)
  {
    hide Notional, LimitPrice, WireSize, WireMinSize, Lot;
    var price, lot := LimitPrice(r), Lot(r.sizeDecimals);
    WireSizeBounds(r.size, r.sizeDecimals, Up);
    WireMinSizeBounds(WireMinimum(r), price, r.sizeDecimals);
    var up := WireSize(r.size, r.sizeDecimals, Up);
    ProductKeepsOrder(up, r.size + lot, price);
    ProductKeepsOrder(r.size, lot, price);
    ProductKeepsOrder(WireMinSize(WireMinimum(r), price, r.sizeDecimals), AdjustedSize(r), price);
  }

  /** Every accepted order is a whole number of lots at the wire price and meets the
      minimum it must meet; it exceeds the larger of the asked notional and that minimum
      by less than one lot. */
  lemma WireOrderIsSound(r: WireRequest)
    requires r.size > 0.0 && WireOrder(r).Ok?
    ensures var v, lot := WireOrder(r).value, Lot(r.sizeDecimals);
            var asked := Notional(r.size, v.limitPrice);
            && v.limitPrice == LimitPrice(r) > 0.0
            && IsLotMultiple(v.size, r.sizeDecimals) && v.notional == Notional(v.size, v.limitPrice)
            && v.notional >= AtLeastZero(r.minimum)
            && v.notional < (if asked >= WireMinimum(r) then asked else WireMinimum(r)) + Notional(lot, v.limitPrice)
  {
    LotIsPositive(r.sizeDecimals);
    hide Notional, LimitPrice, WireSize, WireMinSize, Lot, AdjustedSize;
    var price, lot := LimitPrice(r), Lot(r.sizeDecimals);
    WireSizeBounds(r.size, r.sizeDecimals, Down);
    AdjustedSizeBounds(r);
    ProductKeepsOrder(WireSize(r.size, r.sizeDecimals, Down), r.size, price);
    ProductKeepsOrder(lot, lot, price);
  }

  /** With minimum adjustment on and a positive wire price an entry is never refused for
      its notional: it is accepted, at no less than the minimum plus the buffer, unless
      there is no minimum at all and the size is below one lot. */
  lemma AdjustedEntryReachesMinimum(r: WireRequest)
    requires !r.reduceOnly && r.adjustToMinimum && r.size > 0.0 && LimitPrice(r) > 0.0
    ensures WireOrder(r).Ok? <==> WireMinimum(r) > 0.0 || r.size >= Lot(r.sizeDecimals)
    ensures WireOrder(r).Ok? ==> WireOrder(r).value.notional >= WireMinimum(r)
    ensures WireOrder(r).Err? ==> WireOrder(r).error == SizeBelowLot
  {
    hide Notional, LimitPrice, WireSize, WireMinSize, Lot, AdjustedSize;
    var price := LimitPrice(r);
    AdjustedSizeBounds(r);
    WireSizeBounds(r.size, r.sizeDecimals, Down);
    ProductKeepsOrder(ChosenSize(r), ChosenSize(r), price);
    OneLot(r.size, r.sizeDecimals);
  }

  /** A size rounds down to something exactly when it holds a whole lot. */
  lemma OneLot(size: real, decimals: nat)
    requires size >= 0.0
    ensures WireSize(size, decimals, Down) > 0.0 <==> size >= Lot(decimals)
  {
    var n := Pow10(decimals) as real;
    var lots := Lots(size, decimals, Down);
    var lot := Lot(decimals);
    assert lot * n == 1.0;
    SignOf(size - lot, n);
    assert (size - lot) * n == size * n - 1.0;
    var wire := lots as real / n;
    assert wire * n == lots as real;
    SignOf(wire, n);
  }

  /** The minimum an order is lifted to: the exchange's, and for an entry the buffer on top. */
  function LiftedTo(r: WireRequest): real {
    (if r.minimum > 0.0 then r.minimum else 0.0) + (if !r.reduceOnly && r.buffer > 0.0 then r.buffer else 0.0)
  }

  /** The order is too small as asked, and may be lifted. */
  predicate Lifted(r: WireRequest) {
    && r.adjustToMinimum && LimitPrice(r) > 0.0
    && Notional(WireSize(r.size, r.sizeDecimals, Down), LimitPrice(r)) < LiftedTo(r)
  }

  /** When an order is refused, and why: below a lot, below a tick, or, if it may not be lifted,
      below the exchange's minimum. An accepted order is sent at the asked size rounded down to
      lots, or lifted. */
  lemma WireOrderExactly(r: WireRequest)
    requires r.size > 0.0
    ensures var down, price := WireSize(r.size, r.sizeDecimals, Down), LimitPrice(r);
            var whole := r.size >= Lot(r.sizeDecimals);
            var floor := if r.minimum > 0.0 then r.minimum else 0.0;
            && (WireOrder(r) == Err(SizeBelowLot) <==> !Lifted(r) && !whole)
            && (WireOrder(r) == Err(PriceBelowTick) <==> whole && price <= 0.0)
            && (WireOrder(r) == Err(NotionalBelowMinimum) <==>
                  whole && price > 0.0 && !r.adjustToMinimum && Notional(down, price) < floor)
            && (WireOrder(r).Ok? ==> WireOrder(r).value.size == if Lifted(r) then AdjustedSize(r) else down)
  {
    hide LimitPrice, WireSize, WireMinSize, Lot, AdjustedSize, Notional;
    var down, price := WireSize(r.size, r.sizeDecimals, Down), LimitPrice(r);
    PriceIsNotNegative(r);
    OneLot(r.size, r.sizeDecimals);
    NothingAtNoPrice(down);
    NothingAtNoPrice(AdjustedSize(r));
    WireSizeBounds(r.size, r.sizeDecimals, Down);
    if price > 0.0 {
      AdjustedSizeBounds(r);
      NotionalSign(AdjustedSize(r), price);
      NotionalSign(down, price);
    }
    assert WireMinimum(r) == LiftedTo(r);
  }

  lemma NotionalSign(size: real, price: real)
    requires price > 0.0
    ensures Notional(size, price) > 0.0 <==> size > 0.0
    ensures Notional(size, price) >= 0.0 <==> size >= 0.0
  {
    SignOf(size, price);
  }

  lemma NothingAtNoPrice(size: real)
    ensures Notional(size, 0.0) == 0.0
  {
  }

  lemma PriceIsNotNegative(r: WireRequest)
    ensures LimitPrice(r) >= 0.0
  {
    var units := WirePrice(r.units, r.scale, r.isBuy, r.priceDecimals) as real;
    var d := Pow10(r.scale) as real;
    assert units / d * d == units;
    SignOf(units / d, d);
  }

  /** Lots are as fine as they can be told apart: a multiple below another is a lot below. */
  lemma LotsApart(a: real, b: real, decimals: nat)
    requires IsLotMultiple(a, decimals) && IsLotMultiple(b, decimals) && a < b
    ensures a + Lot(decimals) <= b
  {
    var i: int :| a == FromLots(i, decimals);
    var j: int :| b == FromLots(j, decimals);
    OneLotApart(i, j, Pow10(decimals) as real);
  }

  lemma OneLotApart(i: int, j: int, d: real)
    requires d > 0.0 && i as real / d < j as real / d
    ensures i as real / d + 1.0 / d <= j as real / d
  {
    if j <= i {
      QuotientKeepsOrder(j as real, i as real, d);
    } else {
      QuotientKeepsOrder(i as real + 1.0, j as real, d);
      QuotientSplits(i as real, d);
    }
  }

  lemma QuotientSplits(a: real, d: real)
    requires d > 0.0
    ensures (a + 1.0) / d == a / d + 1.0 / d
  {
  }

  /** A lifted order is the smallest number of lots that is at least the asked size and reaches the minimum. */
  lemma LiftedIsLeast(r: WireRequest, other: real)
    requires r.size > 0.0 && LimitPrice(r) > 0.0
    requires IsLotMultiple(other, r.sizeDecimals) && other >= r.size && Notional(other, LimitPrice(r)) >= LiftedTo(r)
    ensures AdjustedSize(r) <= other && AdjustedSize(r) >= r.size
  {
    hide LimitPrice, WireSize, WireMinSize, Lot, Notional;
    var price, lot := LimitPrice(r), Lot(r.sizeDecimals);
    WireSizeBounds(r.size, r.sizeDecimals, Up);
    WireMinSizeBounds(WireMinimum(r), price, r.sizeDecimals);
    var up, least := WireSize(r.size, r.sizeDecimals, Up), WireMinSize(WireMinimum(r), price, r.sizeDecimals);
    if other < up { LotsApart(other, up, r.sizeDecimals); }
    if other < least {
      LotsApart(other, least, r.sizeDecimals);
      ProductKeepsOrder(other, lot, price);
      ProductKeepsOrder(other + lot, least, price);
    }
  }

  /** A wire price has at most five significant digits and at most the tick's decimals. */
  lemma WirePriceFitsExchange(units: nat, scale: nat, isBuy: bool, decimals: nat)
    ensures var wire := WirePrice(units, scale, isBuy, decimals);
            && (wire > 0 ==> IsMultiple(wire, Pow10(if Digits(wire) > 5 then Digits(wire) - 5 else 0)))
            && IsMultiple(wire, Pow10(if scale > decimals then scale - decimals else 0))
  {
    hide RoundTo, WirePrice, Pow10, Digits, IsMultiple;
    var wire, c := WirePrice(units, scale, isBuy, decimals), WireExponent(units, scale, decimals);
    WirePriceIsOneRounding(units, scale, isBuy, decimals);
    WirePriceBounds(units, scale, isBuy, decimals);
    Pow10Multiple(Excess(scale, decimals), c);
    MultiplesChain(wire, Pow10(c), Pow10(Excess(scale, decimals)));
    if wire > 0 && units > 0 { RoundedIsSignificant(units, c, if isBuy then Down else Up); }
    if units == 0 { ZeroStaysZero(scale, isBuy, decimals); }
  }

  lemma ZeroStaysZero(scale: nat, isBuy: bool, decimals: nat)
    ensures WirePrice(0, scale, isBuy, decimals) == 0
  {
  }
}
