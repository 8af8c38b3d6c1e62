/** Which requests a window read makes of the exchange, what they return, and which window it reports. */
module FillReading {
  import opened Numbers
  import opened Options
  import opened FillHistory
  import opened FillRecords

  const WindowTargetRows: real := 1600.0
  const MinWindowMs: int := 60_000

  // ---------------------------------------------------------------- requests

  datatype Request = ByTime(startMs: int, endMs: int) | Newest

  function PageOf(h: seq<RawFill>, r: Request): seq<RawFill> {
    match r
    case ByTime(s, e) => OldestPage(h, s, e)
    case Newest => NewestPage(h)
  }

  /** The request returns the fill at place i of the history. */
  predicate Returns(h: seq<RawFill>, r: Request, i: int) {
    match r
    case ByTime(s, e) => PageStart(h, s) <= i < PageEnd(h, s, e)
    case Newest => NewestStart(h) <= i < |h|
  }

  /** The time at which a request's page ends inside a burst of fills, if it does. */
  function CutOf(h: seq<RawFill>, r: Request): set<int> {
    match r
    case ByTime(s, e) => OldestCut(h, s, e)
    case Newest => NewestCut(h)
  }

  predicate Seen(h: seq<RawFill>, made: seq<Request>, i: int) { exists r :: r in made && Returns(h, r, i) }

  predicate CutBy(h: seq<RawFill>, made: seq<Request>, t: int) { exists r :: r in made && t in CutOf(h, r) }

  // ----------------------------------------------------------------- records

  /** What a reader was asked for. */
  datatype Scope = Scope(startMs: int, endMs: int, perpOnly: bool)

  /** A fill of the requested time that is worth a record. */
  predicate Kept(f: RawFill, scope: Scope) {
    scope.startMs <= f.timeMs <= scope.endMs && Recordable(f, scope.perpOnly)
  }

  /** The records after one more page; the first record of an id stays. */
  function StoredPage(records: map<string, Record>, page: seq<RawFill>, scope: Scope): map<string, Record> {
    if page == [] then records
    else
      var stored, f := StoredPage(records, page[..|page| - 1], scope), page[|page| - 1];
      if Kept(f, scope) && f.id !in stored then stored[f.id := Record(f.id, f.timeMs)] else stored
  }

  function RecordsBy(h: seq<RawFill>, scope: Scope, made: seq<Request>): map<string, Record> {
    if made == [] then map[]
    else StoredPage(RecordsBy(h, scope, made[..|made| - 1]), PageOf(h, made[|made| - 1]), scope)
  }

  function CountBetween(records: map<string, Record>, startMs: int, endMs: int): nat {
    |IdsBetween(records, startMs, endMs)|
  }

  // ------------------------------------------------------------ forward reads

  datatype ForwardRead = ForwardRead(complete: bool, rows: nat, firstMs: Option<int>, lastMs: Option<int>)

  const NothingRead: ForwardRead := ForwardRead(false, 0, None, None)

  /** What one page adds to a forward read. */
  function WithPage(r: ForwardRead, page: seq<RawFill>): ForwardRead {
    if page == [] then r
    else
      ForwardRead(r.complete, r.rows + |page|,
                  if r.firstMs.None? then Some(MinTime(page)) else r.firstMs, Some(MaxTime(page)))
  }

  predicate EndsRead(r: ForwardRead, page: seq<RawFill>, end: int) {
    |page| < PageSize || r.lastMs.None? || r.lastMs.value >= end
  }

  function NextCursor(cursor: int, last: int): int { if last > cursor then last else last + 1 }

  /** A forward read from a cursor on, with what it has read so far and the pages it may
      still read: the requests it makes and its result. */
  function ForwardOn(h: seq<RawFill>, cursor: int, end: int, limit: nat, r: ForwardRead): (seq<Request>, ForwardRead)
    decreases limit
  {
    if limit == 0 then ([], r)
    else
      var page := OldestPage(h, cursor, end);
      var now := WithPage(r, page);
      if EndsRead(now, page, end) then ([ByTime(cursor, end)], now.(complete := true))
      else
        var (more, result) := ForwardOn(h, NextCursor(cursor, now.lastMs.value), end, limit - 1, now);
        ([ByTime(cursor, end)] + more, result)
  }

  function Forward(h: seq<RawFill>, start: int, end: int, limit: nat): (seq<Request>, ForwardRead) {
    ForwardOn(h, start, end, limit, NothingRead)
  }

  // ------------------------------------------------------------ window reads

  /** The stretch of time whose fills are all stored. */
  datatype FillWindow = FillWindow(complete: bool, startMs: int, endMs: int)

  datatype Call = Call(scope: Scope, maxPages: nat, target: nat, newestPageAvailable: bool)

  /** A window read before trimming: the requests it makes and the window it reports. */
  datatype Reading = Reading(made: seq<Request>, window: FillWindow)

  function WholeScope(scope: Scope): FillWindow { FillWindow(true, scope.startMs, scope.endMs) }

  function FirstPage(h: seq<RawFill>, c: Call): (seq<Request>, ForwardRead) {
    Forward(h, c.scope.startMs, c.scope.endMs, if c.maxPages == 0 then 0 else 1)
  }

  function Untrimmed(h: seq<RawFill>, c: Call): Reading {
    var (made, first) := FirstPage(h, c);
    if first.complete || first.lastMs.None? then Reading(made, WholeScope(c.scope))
    else if !c.newestPageAvailable || |made| >= c.maxPages then OldestFirst(h, c, made, first)
    else FromNewest(h, c, made, first.lastMs.value)
  }

  /** Without the newest page, reading goes on oldest first and reports where it stopped. */
  function OldestFirst(h: seq<RawFill>, c: Call, made: seq<Request>, first: ForwardRead): Reading
    requires first.lastMs.Some?
  {
    var reached := first.lastMs.value;
    var (more, rest) :=
      if |made| < c.maxPages then Forward(h, reached, c.scope.endMs, c.maxPages - |made|) else ([], first);
    if rest.complete then Reading(made + more, WholeScope(c.scope))
    else
      var last := if rest.lastMs.Some? && rest.lastMs.value != 0 then rest.lastMs.value else reached;
      Reading(made + more, FillWindow(false, c.scope.startMs, last))
  }

  /** The time from which the newest page covers the scope. */
  function CoveredFrom(h: seq<RawFill>, scope: Scope): int
    requires NewestPage(h) != []
  {
    MinInt(MaxInt(MinTime(NewestPage(h)), scope.startMs), scope.endMs)
  }

  function RowsPerMs(page: seq<RawFill>): real
    requires page != []
  {
    |page| as real / MaxInt(MaxTime(page) - MinTime(page), 1) as real
  }

  /** With the newest page as an anchor, reading goes back from it. */
  function FromNewest(h: seq<RawFill>, c: Call, made: seq<Request>, reached: int): Reading {
    var newest := NewestPage(h);
    if |newest| < PageSize then Reading(made + [Newest], WholeScope(c.scope))
    else BackOn(h, c, reached, CoveredFrom(h, c.scope), RowsPerMs(newest), made + [Newest])
  }

  /** The span of the next window, sized by the fill rate. */
  function SpanMs(rowsPerMs: real, most: int): int {
    MinInt(MaxInt((WindowTargetRows / MaxReal(rowsPerMs, 0.000000001)).Floor, MinWindowMs), most)
  }

  /** The windows read back from a covered time, until they reach the first page, the
      budget or the target. */
  function BackOn(h: seq<RawFill>, c: Call, reached: int, covered: int, rowsPerMs: real, made: seq<Request>): Reading
    decreases covered - reached
  {
    if covered <= reached then Reading(made, WholeScope(c.scope))
    else if |made| >= c.maxPages || CountBetween(RecordsBy(h, c.scope, made), covered, c.scope.endMs) >= c.target then
      Reading(made, FillWindow(false, covered, c.scope.endMs))
    else
      var span := SpanMs(rowsPerMs, covered - reached);
      var (more, window) := Forward(h, covered - span, covered, c.maxPages - |made|);
      if !window.complete then Reading(made + more, FillWindow(false, covered, c.scope.endMs))
      else BackOn(h, c, reached, covered - span, MaxInt(window.rows, 1) as real / span as real, made + more)
  }

  /** What trimming makes of a window: the newest fills stay, and at least the target of them. */
  predicate IsTrimmed(w: FillWindow, records: map<string, Record>, target: nat, trimmed: FillWindow) {
    if CountBetween(records, w.startMs, w.endMs) <= target then trimmed == w
    else
      && trimmed.endMs == w.endMs && !trimmed.complete && w.startMs <= trimmed.startMs <= w.endMs
      && CountBetween(records, trimmed.startMs, w.endMs) >= target
      && CountBetween(records, trimmed.startMs + 1, w.endMs) < target
  }

  // ------------------------------------------------- records are what was seen

  /** The records are exactly the fills worth a record among those the requests returned, one for each id. */
  ghost predicate RecordsMatch(h: seq<RawFill>, scope: Scope, made: seq<Request>, records: map<string, Record>) {
    && (forall i :: 0 <= i < |h| && Seen(h, made, i) && Kept(h[i], scope) ==> h[i].id in records)
    && (forall id :: id in records ==> records[id].id == id && Stems(h, scope, made, records[id]))
  }

  /** A record stems from a fill that some request returned. */
  ghost predicate Stems(h: seq<RawFill>, scope: Scope, made: seq<Request>, r: Record) {
    exists i :: 0 <= i < |h| && Seen(h, made, i) && Kept(h[i], scope) && Record(h[i].id, h[i].timeMs) == r
  }

  /** One page adds a record for each new id among its fills, and replaces none. */
  lemma {:induction false} StoredPageAdds(records: map<string, Record>, page: seq<RawFill>, scope: Scope)
    ensures var stored := StoredPage(records, page, scope);
            && (forall id :: id in records ==> id in stored && stored[id] == records[id])
            && (forall f :: f in page && Kept(f, scope) ==> f.id in stored)
            && (forall id :: id in stored && id !in records ==>
                  exists f :: f in page && Kept(f, scope) && f.id == id && stored[id] == Record(id, f.timeMs))
  {
    hide Kept;
    if page != [] {
      var n := |page| - 1;
      StoredPageAdds(records, page[..n], scope);
      assert page == page[..n] + [page[n]];
    }
  }

  /** A page holds the fills at the places its request returns. */
  lemma PageHoldsPlaces(h: seq<RawFill>, r: Request)
    ensures forall i :: 0 <= i < |h| && Returns(h, r, i) ==> h[i] in PageOf(h, r)
    ensures forall f :: f in PageOf(h, r) ==> exists i :: 0 <= i < |h| && Returns(h, r, i) && h[i] == f
  {
    var page := PageOf(h, r);
    var places := if r.Newest? then seq(|page|, k => |h| - 1 - k) else seq(|page|, k => PageStart(h, r.startMs) + k);
    assert forall k :: 0 <= k < |page| ==> Returns(h, r, places[k]) && h[places[k]] == page[k];
    forall i | 0 <= i < |h| && Returns(h, r, i)
      ensures h[i] in page
    {
      assert page[if r.Newest? then |h| - 1 - i else i - PageStart(h, r.startMs)] == h[i];
    }
  }

  lemma {:induction false} RecordsByMatch(h: seq<RawFill>, scope: Scope, made: seq<Request>)
    ensures RecordsMatch(h, scope, made, RecordsBy(h, scope, made))
  {
    assert made == [] ==> forall i :: !Seen(h, made, i);
    if made != [] {
      hide RecordsMatch, StoredPage, PageOf;
      var n := |made| - 1;
      RecordsByMatch(h, scope, made[..n]);
      OneMoreRequest(h, scope, made[..n], made[n]);
      assert made == made[..n] + [made[n]];
    }
  }

  lemma OneMoreRequest(h: seq<RawFill>, scope: Scope, made: seq<Request>, r: Request)
    requires RecordsMatch(h, scope, made, RecordsBy(h, scope, made))
    ensures RecordsMatch(h, scope, made + [r], StoredPage(RecordsBy(h, scope, made), PageOf(h, r), scope))
  {
    hide Returns, PageOf, Kept, RecordsBy;
    var records, all := RecordsBy(h, scope, made), made + [r];
    var stored := StoredPage(records, PageOf(h, r), scope);
    StoredPageAdds(records, PageOf(h, r), scope);
    PageHoldsPlaces(h, r);
    forall i | Seen(h, made, i)
      ensures Seen(h, all, i)
    {
      var x :| x in made && Returns(h, x, i);
      assert x in all;
    }
    assert r in all;
    forall id | id in stored
      ensures stored[id].id == id && Stems(h, scope, all, stored[id])
    {
      if id in records {
        var i :| 0 <= i < |h| && Seen(h, made, i) && Kept(h[i], scope) && Record(h[i].id, h[i].timeMs) == records[id];
        assert Seen(h, all, i);
      } else {
        var f :| f in PageOf(h, r) && Kept(f, scope) && f.id == id && stored[id] == Record(id, f.timeMs);
        var i :| 0 <= i < |h| && Returns(h, r, i) && h[i] == f;
        assert Seen(h, all, i);
      }
    }
    forall i | 0 <= i < |h| && Seen(h, all, i) && Kept(h[i], scope)
      ensures h[i].id in stored
    {
      var x :| x in all && Returns(h, x, i);
      if x != r { assert x in made && Seen(h, made, i); }
    }
  }

  /** The fill is of the asked time and market, and says what was traded, on which side and when. */
  predicate WorthARecord(f: RawFill, scope: Scope) {
    && f.timeMs >= scope.startMs && f.timeMs <= scope.endMs && f.timeMs >= 1
    && f.coin != [] && f.sideKnown && (f.perp || !scope.perpOnly)
  }

  /** There is a record of an id exactly when some request returned a fill of that id worth a record,
      and it is a record of such a fill. */
  lemma RecordedExactly(h: seq<RawFill>, scope: Scope, made: seq<Request>, id: string)
    ensures var records := RecordsBy(h, scope, made);
            && (id in records <==>
                  exists i :: 0 <= i < |h| && Seen(h, made, i) && h[i].id == id && WorthARecord(h[i], scope))
            && (id in records ==>
                  && records[id].id == id
                  && exists i :: 0 <= i < |h| && Seen(h, made, i) && h[i].id == id && WorthARecord(h[i], scope)
                                 && records[id].timeMs == h[i].timeMs)
  {
    hide Seen, RecordsBy;
    RecordsByMatch(h, scope, made);
    var records := RecordsBy(h, scope, made);
    assert forall f :: Kept(f, scope) <==> WorthARecord(f, scope);
    if id in records {
      assert Stems(h, scope, made, records[id]);
    }
  }
}
