/** The compact marker of source exposure that predates copying, folded over source fills. */
module PreexistingMarkets {
  import opened Numbers
  import opened Options
  import opened SourceFillPlanning

  datatype Marker = Marker(
    side: Side, openedAt: int, lastTimestampMs: int, lastFillId: string, ignoredFills: int)

  type Markets = map<string, Marker>

  predicate IsFinalClose(p: Part) {
    IsExit(p.action) && p.closeRatio.Some? && p.closeRatio.value >= 1.0
  }

  function Lookup(markets: Markets, coin: string): Option<Marker> {
    if coin in markets then Some(markets[coin]) else None
  }

  /** `update_preexisting_markets_for_part`: entries open or extend the marker of their
      side, exits of the marked side extend it, a final close drops it. */
  function UpdateForPart(markets: Markets, coin: string, p: Part, fillId: string, timestampMs: int): Markets {
    var existing := Lookup(markets, coin);
    var sameSide := existing.Some? && existing.value.side == p.side;
    if IsEntry(p.action) then
      markets[coin := Marker(p.side, if sameSide then existing.value.openedAt else timestampMs, timestampMs, fillId,
                             if sameSide then existing.value.ignoredFills + 1 else 1)]
    else if IsExit(p.action) && sameSide then
      if IsFinalClose(p) then markets - {coin}
      else markets[coin := existing.value.(lastTimestampMs := timestampMs, lastFillId := fillId,
                                           ignoredFills := existing.value.ignoredFills + 1)]
    else markets
  }

  /** One source fill of a coin, with the identity the marker records. */
  datatype Recorded = Recorded(fillId: string, timestampMs: int, fill: SourceFill)

  function UpdateForParts(markets: Markets, coin: string, parts: seq<Part>, r: Recorded): Markets
    decreases |parts|
  {
    if parts == [] then markets
    else UpdateForParts(UpdateForPart(markets, coin, parts[0], r.fillId, r.timestampMs), coin, parts[1..], r)
  }

  function UpdateForFill(markets: Markets, coin: string, r: Recorded): Markets {
    UpdateForParts(markets, coin, PlanSourceFill(r.fill), r)
  }

  /** The markers after the first n fills of one coin's history. */
  function Fold(markets: Markets, coin: string, history: seq<Recorded>, n: nat): Markets
    requires n <= |history|
  {
    if n == 0 then markets
    else UpdateForFill(Fold(markets, coin, history, n - 1), coin, history[n - 1])
  }

  // ------------------------------------------------- the position it stands for

  /** The source's signed position after the first k fills, from flat. */
  function Position(history: seq<Recorded>, k: nat): real
    requires k <= |history|
  {
    if k == 0 then 0.0 else Position(history, k - 1) + SignedFill(history[k - 1].fill)
  }

  /** Fill k is consistent and starts where the earlier fills left the position. */
  predicate Continues(history: seq<Recorded>, k: nat)
    requires k < |history|
  {
    Consistent(history[k].fill) && history[k].fill.startPosition == Some(Position(history, k))
  }

  predicate ConsistentHistory(history: seq<Recorded>) {
    forall k :: 0 <= k < |history| ==> Continues(history, k)
  }

  function SideOf(position: real): Option<Side> {
    if position > 0.0 then Some(Long) else if position < 0.0 then Some(Short) else None
  }

  function SideAt(history: seq<Recorded>, k: nat): Option<Side>
    requires k <= |history|
  {
    SideOf(Position(history, k))
  }

  /** Fill k opened the side held after n fills: the side before it was another one (or
      none), and every position from then on is on that side. */
  predicate OpenedBy(history: seq<Recorded>, n: nat, k: nat)
    requires n <= |history|
  {
    && k < n && SideAt(history, n).Some? && SideAt(history, k) != SideAt(history, n)
    && (forall j :: k < j <= n ==> SideAt(history, j) == SideAt(history, n))
  }

  /** The marker that the fills since number k leave behind. */
  function MarkerSince(history: seq<Recorded>, n: nat, k: nat, side: Side): Marker
    requires k < n <= |history|
  {
    Marker(side, history[k].timestampMs, history[n - 1].timestampMs, history[n - 1].fillId, n - k)
  }

  /** The marker a history stands for, read off its positions alone. */
  ghost predicate Describes(marker: Option<Marker>, history: seq<Recorded>, n: nat)
    requires n <= |history|
  {
    if SideAt(history, n).None? then marker == None
    else exists k: nat ::
           OpenedBy(history, n, k) && marker == Some(MarkerSince(history, n, k, SideAt(history, n).value))
  }

  /** One consistent fill moves the marker exactly as it moves the side of the position. */
  lemma FillMovesMarker(markets: Markets, coin: string, r: Recorded)
    requires Consistent(r.fill)
    requires var side := SideOf(r.fill.startPosition.value); var m := Lookup(markets, coin);
             if side.None? then m.None? else m.Some? && m.value.side == side.value
    ensures var before := SideOf(r.fill.startPosition.value);
            var after := SideOf(r.fill.startPosition.value + SignedFill(r.fill));
            var m, m' := Lookup(markets, coin), Lookup(UpdateForFill(markets, coin, r), coin);
            if after.None? then m'.None?
            else if before == after then
              m' == Some(m.value.(lastTimestampMs := r.timestampMs, lastFillId := r.fillId,
                                  ignoredFills := m.value.ignoredFills + 1))
            else m' == Some(Marker(after.value, r.timestampMs, r.timestampMs, r.fillId, 1))
  {
    var plan := PlanSourceFill(r.fill);
    var first := UpdateForPart(markets, coin, plan[0], r.fillId, r.timestampMs);
    assert UpdateForParts(first, coin, [], r) == first;
    if r.fill.direction in {"Close Long", "Close Short", "Long > Short", "Short > Long"} {
      ExactRatio(r.fill.size, r.fill.startPosition.value);
    }
    if |plan| == 2 {
      assert plan == [plan[0], plan[1]] && plan[1..] == [plan[1]] && plan[1..][1..] == [];
      var second := UpdateForPart(first, coin, plan[1], r.fillId, r.timestampMs);
      assert UpdateForParts(first, coin, [plan[1]], r) == UpdateForParts(second, coin, [], r);
    } else {
      assert plan == [plan[0]] && plan[1..] == [];
    }
  }

  /** A close is final exactly when it takes the whole start position. */
  lemma ExactRatio(size: real, start: real)
    requires size > 0.0
    ensures start != 0.0 ==>
              (CloseRatio(size, Some(start)).value >= 1.0 <==> size >= Abs(start))
    ensures start != 0.0 && size > Abs(start) ==> CloseRatio(Abs(start), Some(start)).value >= 1.0
  {
    if start != 0.0 {
      var a := Abs(start);
      assert size / a * a == size;
      if size / a >= 1.0 { assert size >= a; }
      if size >= a && size / a < 1.0 { assert size / a * a < 1.0 * a; }
    }
  }

  lemma DescribesOneMore(history: seq<Recorded>, n: nat, m: Option<Marker>, m': Option<Marker>)
    requires 0 < n <= |history| && Describes(m, history, n - 1)
    requires var before, after, r := SideAt(history, n - 1), SideAt(history, n), history[n - 1];
             if after.None? then m'.None?
             else if before == after then
               m.Some? && m' == Some(m.value.(lastTimestampMs := r.timestampMs, lastFillId := r.fillId,
                                              ignoredFills := m.value.ignoredFills + 1))
             else m' == Some(Marker(after.value, r.timestampMs, r.timestampMs, r.fillId, 1))
    ensures Describes(m', history, n)
  {
    var before, after := SideAt(history, n - 1), SideAt(history, n);
    if after.Some? {
      if before == after {
        var k: nat :| OpenedBy(history, n - 1, k) && m == Some(MarkerSince(history, n - 1, k, before.value));
        assert OpenedBy(history, n, k) && m' == Some(MarkerSince(history, n, k, after.value));
      } else {
        assert OpenedBy(history, n, n - 1) && m' == Some(MarkerSince(history, n, n - 1, after.value));
      }
    }
  }

  /** One more fill of a consistent history keeps the marker descriptive. */
  lemma FillKeepsDescription(markets: Markets, coin: string, history: seq<Recorded>, n: nat)
    requires n < |history| && Continues(history, n)
    requires Describes(Lookup(markets, coin), history, n)
    ensures Describes(Lookup(UpdateForFill(markets, coin, history[n]), coin), history, n + 1)
  {
    var r := history[n];
    FillMovesMarker(markets, coin, r);
    assert SideAt(history, n + 1) == SideOf(Position(history, n) + SignedFill(r.fill));
    DescribesOneMore(history, n + 1, Lookup(markets, coin), Lookup(UpdateForFill(markets, coin, r), coin));
  }

  /** Folding any consistent history from flat leaves a marker exactly when the source
      holds a position, with its side, its opening time, its last fill and the number of
      fills since it was opened. */
  lemma {:induction false} MarkerRefinesPosition(coin: string, history: seq<Recorded>, n: nat)
    requires n <= |history| && ConsistentHistory(history)
    ensures Describes(Lookup(Fold(map[], coin, history, n), coin), history, n)
  {
    if n > 0 {
      MarkerRefinesPosition(coin, history, n - 1);
      assert Continues(history, n - 1);
      FillKeepsDescription(Fold(map[], coin, history, n - 1), coin, history, n - 1);
    }
  }

  /** The markers of every other coin are left alone. */
  lemma {:induction false} OtherCoinsKeepMarkers(
    markets: Markets, coin: string, history: seq<Recorded>, n: nat, other: string)
    requires n <= |history| && other != coin
    ensures Lookup(Fold(markets, coin, history, n), other) == Lookup(markets, other)
  {
    if n > 0 {
      OtherCoinsKeepMarkers(markets, coin, history, n - 1, other);
      var r := history[n - 1];
      PartsKeepOthers(Fold(markets, coin, history, n - 1), coin, PlanSourceFill(r.fill), r, other);
    }
  }

  lemma {:induction false} PartsKeepOthers(markets: Markets, coin: string, parts: seq<Part>, r: Recorded, other: string)
    requires other != coin
    ensures Lookup(UpdateForParts(markets, coin, parts, r), other) == Lookup(markets, other)
    decreases |parts|
  {
    if parts != [] {
      PartsKeepOthers(UpdateForPart(markets, coin, parts[0], r.fillId, r.timestampMs), coin, parts[1..], r, other);
    }
  }
}
