/** Exactly when a window read has every fill of the window it reports. */
module FillGaps {
  import opened Numbers
  import opened Options
  import opened FillHistory
  import opened FillRecords
  import opened FillReading
  import opened FillCoverage

  /** Every fill of the reported window was returned by some request. */
  ghost predicate WindowWhole(h: seq<RawFill>, c: Call) {
    var u := Untrimmed(h, c);
    Whole(h, u.made, u.window.startMs, u.window.endMs)
  }

  /** The same of the window after trimming. */
  ghost predicate ReportsWhole(h: seq<RawFill>, c: Call) {
    var u := Untrimmed(h, c);
    forall w :: IsTrimmed(u.window, RecordsBy(h, c.scope, u.made), c.target, w) ==> Whole(h, u.made, w.startMs, w.endMs)
  }

  /** Trimming only cuts the window, and cuts nothing where the target exceeds what was stored. */
  lemma TrimmedIsWhole(h: seq<RawFill>, c: Call)
    ensures WindowWhole(h, c) ==> ReportsWhole(h, c)
    ensures c.target >= |RecordsBy(h, c.scope, Untrimmed(h, c).made)| ==> (ReportsWhole(h, c) <==> WindowWhole(h, c))
  {
    hide Untrimmed, RecordsBy, Seen;
    var u := Untrimmed(h, c);
    var records := RecordsBy(h, c.scope, u.made);
    SubsetSize(IdsBetween(records, u.window.startMs, u.window.endMs), records.Keys);
    if c.target >= |records| { assert IsTrimmed(u.window, records, c.target, u.window); }
  }

  // -------------------------------------------------------------- cuts and bursts

  /** Two fills share the millisecond. */
  ghost predicate Burst(h: seq<RawFill>, t: int) {
    exists n :: 0 < n < |h| && Neighbours(h, n, t)
  }

  predicate Neighbours(h: seq<RawFill>, n: int, t: int)
    requires 0 < n < |h|
  {
    h[n - 1].timeMs == t == h[n].timeMs
  }

  /** A full page from s ends inside the burst at t. */
  predicate Splits(h: seq<RawFill>, s: int, t: int) {
    Before(h, t) < Before(h, s) + PageSize < Before(h, t + 1)
  }

  /** No page, wherever it starts, ends inside a burst. */
  ghost predicate PagesFit(h: seq<RawFill>) { forall s, t :: !Splits(h, s, t) }

  lemma OldestCutSplits(h: seq<RawFill>, s: int, e: int, t: int)
    requires Sorted(h) && t in OldestCut(h, s, e)
    ensures Splits(h, s, t)
  {
    BeforeSplits(h, t);
    BeforeSplits(h, t + 1);
  }

  lemma SplitBurst(h: seq<RawFill>, s: int, t: int)
    requires Sorted(h) && Splits(h, s, t)
    ensures Burst(h, t)
  {
    BeforeSplits(h, t);
    BeforeSplits(h, t + 1);
    assert Neighbours(h, Before(h, s) + PageSize, t);
  }

  /** A time at which some request was cut is the time of a burst. */
  lemma CutIsBurst(h: seq<RawFill>, made: seq<Request>, t: int)
    requires Sorted(h) && CutBy(h, made, t)
    ensures Burst(h, t)
  {
    var r :| r in made && t in CutOf(h, r);
    match r
    case ByTime(s, e) =>
      OldestCutSplits(h, s, e, t);
      SplitBurst(h, s, t);
    case Newest =>
      assert Neighbours(h, NewestStart(h), t);
  }

  /** If no request was cut, or no two fills share a millisecond, nothing is missing but
      what no request looked for. */
  lemma NoCutNoGap(h: seq<RawFill>, c: Call)
    requires Sorted(h) && c.maxPages > 0
    requires (forall t :: !CutBy(h, Untrimmed(h, c).made, t)) || (forall t :: !Burst(h, t))
    requires !Late(h, c, Untrimmed(h, c).window)
    ensures WindowWhole(h, c)
  {
    hide Late, Untrimmed, Seen, CutBy, Burst;
    UntrimmedCovers(h, c);
    var u := Untrimmed(h, c);
    forall i | 0 <= i < |h| && u.window.startMs <= h[i].timeMs <= u.window.endMs
      ensures Seen(h, u.made, i)
    {
      if CutBy(h, u.made, h[i].timeMs) { CutIsBurst(h, u.made, h[i].timeMs); }
    }
  }

  // ---------------------------------------------------------------- one page

  lemma SeenInOne(h: seq<RawFill>, r: Request, i: int)
    ensures Seen(h, [r], i) <==> Returns(h, r, i)
  {
    assert r in [r];
  }

  /** A read that ends with its first page has its window exactly when the asked time holds
      at most a page of fills. */
  lemma OnePageExactly(h: seq<RawFill>, c: Call)
    requires Sorted(h) && c.maxPages > 0 && FirstPage(h, c).1.complete
    ensures Untrimmed(h, c).window == WholeScope(c.scope)
    ensures WindowWhole(h, c) <==> Before(h, c.scope.endMs + 1) - Before(h, c.scope.startMs) <= PageSize
  {
    var s, e := c.scope.startMs, c.scope.endMs;
    hide OldestPage, WithPage, EndsRead, BackOn;
    FullFirstPage(h, c);
    var made := FirstPage(h, c).0;
    assert Untrimmed(h, c) == Reading(made, WholeScope(c.scope));
    BeforeSplits(h, s);
    BeforeSplits(h, e + 1);
    forall i
      ensures Seen(h, made, i) <==> PageStart(h, s) <= i < PageEnd(h, s, e)
    {
      SeenInOne(h, ByTime(s, e), i);
    }
    if Before(h, e + 1) - Before(h, s) > PageSize {
      var i := Before(h, s) + PageSize;
      assert s <= h[i].timeMs <= e && !Seen(h, made, i);
    }
  }

  // ------------------------------------------------------------ oldest first

  /** Requests by time that start no later than a time. */
  predicate StartBy(made: seq<Request>, t: int) { forall r :: r in made ==> r.ByTime? && r.startMs <= t }

  /** Where a page from the last start splits a burst, no request returns the fill after the split. */
  lemma SplitIsMissed(h: seq<RawFill>, made: seq<Request>, last: int, t: int)
    requires Sorted(h) && StartBy(made, last) && Splits(h, last, t)
    ensures var i := Before(h, last) + PageSize; i < |h| && h[i].timeMs == t && !Seen(h, made, i)
  {
    var i := Before(h, last) + PageSize;
    BeforeSplits(h, t);
    BeforeSplits(h, t + 1);
    forall r | r in made
      ensures !Returns(h, r, i)
    {
      BeforeIsMonotone(h, r.startMs, last);
    }
  }

  /** No requests by time return an overfull millisecond whole. */
  lemma OverfullIsMissed(h: seq<RawFill>, made: seq<Request>, t: int)
    requires Sorted(h) && (forall r :: r in made ==> r.ByTime?) && Overfull(h, t)
    ensures var i := Before(h, t) + PageSize; i < |h| && h[i].timeMs == t && !Seen(h, made, i)
  {
    hide Sorted, PageStart, PageEnd, Before;
    var i := Before(h, t) + PageSize;
    BeforeSplits(h, t);
    BeforeSplits(h, t + 1);
    forall r | r in made
      ensures !Returns(h, r, i)
    {
      if Returns(h, r, i) { PageEndsWithinReach(h, r.startMs, r.endMs, i); }
    }
  }

  /** A last page that splits no burst where it ends holds every fill there. */
  lemma LastPageHoldsEnd(h: seq<RawFill>, last: Request, r: ForwardRead, end: int, i: nat)
    requires Sorted(h) && EndsWith(h, last, r, end) && last.endMs == end && last.startMs <= end
    requires (r.complete || r.lastMs.Some?) && i < |h|
    requires h[i].timeMs == if r.complete then end else r.lastMs.value
    requires !Splits(h, last.startMs, h[i].timeMs)
    ensures Returns(h, last, i)
  {
    var s := last.startMs;
    if |OldestPage(h, s, end)| < PageSize {
      ShortPageHoldsRange(h, s, end, i);
    } else {
      LastTimeInRange(h, s, end);
      PageExtremes(h, s, end);
      BeforeSplits(h, s);
      BeforeSplits(h, h[i].timeMs);
      BeforeSplits(h, h[i].timeMs + 1);
      assert h[PageEnd(h, s, end) - 1].timeMs == h[i].timeMs;
    }
  }

  /** The requests of an oldest-first reading, and how its last one relates to where it stopped. */
  ghost predicate OldestFirstShape(h: seq<RawFill>, c: Call, made: seq<Request>, rest: ForwardRead, reached: int) {
    var end := c.scope.endMs;
    && made != [] && StartBy(made, LastStart(made)) && LastStart(made) <= end
    && (forall r :: r in made ==> r.endMs == end)
    && made[|made| - 1].endMs == end && EndsWith(h, made[|made| - 1], rest, end)
    && c.scope.startMs <= reached < end && (rest.complete || rest.lastMs.Some?)
    && (!rest.complete ==> reached <= rest.lastMs.value)
    && Reads(h, made, c.scope.startMs, reached, reached)
    && Reads(h, made, reached, RestReach(rest, end), RestReach(rest, end))
  }

  function RestReach(rest: ForwardRead, end: int): int {
    if rest.complete then end else rest.lastMs.GetOr(end)
  }

  /** The start of the last request by time. */
  function LastStart(made: seq<Request>): int {
    if made == [] || made[|made| - 1].Newest? then 0 else made[|made| - 1].startMs
  }

  lemma OldestFirstWhole(h: seq<RawFill>, c: Call, made: seq<Request>, rest: ForwardRead, reached: int, hi: int)
    requires Sorted(h) && OldestFirstShape(h, c, made, rest, reached)
    requires hi == RestEnd(rest, reached, c.scope.endMs)
    ensures Whole(h, made, c.scope.startMs, hi)
            <==> !Splits(h, LastStart(made), hi) && forall t :: c.scope.startMs <= t <= hi ==> !Overfull(h, t)
  {
    hide Seen, CutBy, Overfull, Splits, EndsWith;
    if Splits(h, LastStart(made), hi) { SplitIsMissed(h, made, LastStart(made), hi); }
    if t :| c.scope.startMs <= t <= hi && Overfull(h, t) { OverfullIsMissed(h, made, t); }
    if !Splits(h, LastStart(made), hi) && forall t :: c.scope.startMs <= t <= hi ==> !Overfull(h, t) {
      forall i | 0 <= i < |h| && c.scope.startMs <= h[i].timeMs <= hi
        ensures Seen(h, made, i)
      {
        if !Seen(h, made, i) {
          assert h[i].timeMs == RestReach(rest, c.scope.endMs);
          LastPageHoldsEnd(h, made[|made| - 1], rest, c.scope.endMs, i);
          LastIsSeen(h, made, i);
        }
      }
    }
  }

  lemma LastIsSeen(h: seq<RawFill>, made: seq<Request>, i: int)
    requires made != [] && Returns(h, made[|made| - 1], i)
    ensures Seen(h, made, i)
  {
  }

  /** The read that an oldest-first reading ends with. */
  function RestOf(h: seq<RawFill>, c: Call): ForwardRead {
    var (made, first) := FirstPage(h, c);
    if first.lastMs.Some? && |made| < c.maxPages
    then Forward(h, first.lastMs.value, c.scope.endMs, c.maxPages - |made|).1 else first
  }

  lemma FirstPageReads(h: seq<RawFill>, c: Call)
    requires Sorted(h) && c.maxPages > 0 && !FirstPage(h, c).1.complete
    ensures var (made, first) := FirstPage(h, c);
            && made == [ByTime(c.scope.startMs, c.scope.endMs)] && first.lastMs.Some?
            && EndsWith(h, made[0], first, c.scope.endMs)
            && c.scope.startMs <= first.lastMs.value < c.scope.endMs
            && Reads(h, made, c.scope.startMs, first.lastMs.value, first.lastMs.value)
            && first.lastMs.value == h[PageEnd(h, c.scope.startMs, c.scope.endMs) - 1].timeMs
            && |OldestPage(h, c.scope.startMs, c.scope.endMs)| == PageSize == |NewestPage(h)|
  {
    hide Reads, ForwardOn;
    FullFirstPage(h, c);
    ForwardReads(h, c.scope.startMs, c.scope.endMs, 1);
    PageExtremes(h, c.scope.startMs, c.scope.endMs);
  }

  lemma OldestFirstHasShape(h: seq<RawFill>, c: Call)
    requires Sorted(h) && c.maxPages > 0 && !FirstPage(h, c).1.complete
    requires !c.newestPageAvailable || c.maxPages == 1
    ensures var reached := FirstPage(h, c).1.lastMs;
            && reached.Some? && OldestFirstShape(h, c, Untrimmed(h, c).made, RestOf(h, c), reached.value)
            && Untrimmed(h, c).window.startMs == c.scope.startMs
            && Untrimmed(h, c).window.endMs == RestEnd(RestOf(h, c), reached.value, c.scope.endMs)
  {
    hide Reads, ForwardOn, OldestPage, EndsWith;
    FirstPageReads(h, c);
    var (made, first) := FirstPage(h, c);
    var reached, end := first.lastMs.value, c.scope.endMs;
    if |made| < c.maxPages {
      var limit := c.maxPages - |made|;
      var (more, rest) := Forward(h, reached, end, limit);
      ForwardReads(h, reached, end, limit);
      ForwardAdvances(h, reached, end, limit, NothingRead);
      var hi := RestReach(rest, end);
      ReadsStay(h, made, made + more, c.scope.startMs, reached, reached);
      ReadsStay(h, more, made + more, reached, hi, hi);
      StartsInOrder(h, made[0], more, reached, end, rest);
    } else {
      assert made + [] == made;
      EmptyReads(h, made, c.scope.startMs, reached);
    }
  }

  lemma StartsInOrder(h: seq<RawFill>, first: Request, more: seq<Request>, reached: int, end: int, rest: ForwardRead)
    requires first.ByTime? && first.startMs <= reached <= end && more != [] && Advances(h, more, reached, end, rest)
    ensures var all := [first] + more;
            && all[|all| - 1] == more[|more| - 1] && StartBy(all, LastStart(all)) && LastStart(all) <= end
            && (first.endMs == end ==> forall r :: r in all ==> r.endMs == end)
  {
    hide EndsWith;
    var all := [first] + more;
    var n := |more| - 1;
    assert all[|all| - 1] == more[n];
    forall r | r in all
      ensures r.ByTime? && r.startMs <= more[n].startMs && (first.endMs == end ==> r.endMs == end)
    {
      if r != first {
        var k :| 0 <= k < |more| && more[k] == r;
        assert k == n || more[k].startMs < more[n].startMs;
      }
    }
  }

  /** What is read up to a time is read at that time. */
  lemma EmptyReads(h: seq<RawFill>, made: seq<Request>, lo: int, hi: int)
    requires Reads(h, made, lo, hi, hi) && lo <= hi
    ensures Reads(h, made, hi, hi, hi)
  {
    hide Seen, CutAway;
  }

  /** A read oldest first has its window exactly when its last page splits no burst at the
      window's end and no millisecond of the window is overfull. */
  lemma OldestFirstExactly(h: seq<RawFill>, c: Call)
    requires Sorted(h) && c.maxPages > 0 && !FirstPage(h, c).1.complete
    requires !c.newestPageAvailable || c.maxPages == 1
    ensures var u := Untrimmed(h, c);
            WindowWhole(h, c)
            <==> && !Splits(h, LastStart(u.made), u.window.endMs)
                 && forall t :: u.window.startMs <= t <= u.window.endMs ==> !Overfull(h, t)
  {
    hide Splits, Overfull, Untrimmed, OldestFirstShape, RestEnd, FirstPage, RestOf, Whole;
    OldestFirstHasShape(h, c);
    var u, reached := Untrimmed(h, c), FirstPage(h, c).1.lastMs.value;
    OldestFirstWhole(h, c, u.made, RestOf(h, c), reached, u.window.endMs);
  }

  // ------------------------------------------------------------- from newest

  /** A read whose newest page already reaches back to the first page makes no further
      request, and has its window exactly when at most two pages of fills follow its start. */
  lemma {:induction false} MeetExactly(h: seq<RawFill>, c: Call)
    requires Sorted(h) && c.maxPages > 1 && c.newestPageAvailable && !FirstPage(h, c).1.complete
    requires FirstPage(h, c).1.lastMs.Some? && NewestPage(h) != []
    requires CoveredFrom(h, c.scope) <= FirstPage(h, c).1.lastMs.value
    ensures Untrimmed(h, c) == Reading([ByTime(c.scope.startMs, c.scope.endMs), Newest], WholeScope(c.scope))
    ensures WindowWhole(h, c) <==> |h| - Before(h, c.scope.startMs) <= 2 * PageSize
  {
    var s, e := c.scope.startMs, c.scope.endMs;
    hide OldestPage, NewestPage, MinTime, MaxTime, Reads, EndsWith, ForwardOn;
    FirstPageReads(h, c);
    NewestExtremes(h);
    var made := [ByTime(s, e), Newest];
    assert Untrimmed(h, c) == Reading(made, WholeScope(c.scope));
    FirstAndNewestMeetExactly(h, s, e);
    forall i | 0 <= i < |h|
      ensures Seen(h, made, i) <==> (PageStart(h, s) <= i < PageEnd(h, s, e)) || NewestStart(h) <= i
    {
      assert ByTime(s, e) in made && Newest in made;
    }
  }

  // ------------------------------------------------------------ every call

  /** What the import asks of a read: a page and a fill at least, and the newest page only
      for a read up to now. */
  predicate Proper(h: seq<RawFill>, c: Call) {
    && c.maxPages > 0 && c.target > 0
    && (c.newestPageAvailable ==> forall i :: 0 <= i < |h| ==> h[i].timeMs <= c.scope.endMs)
  }

  /** Pages fit the history's bursts: none by time ends inside one, and the newest page does
      not start inside one unless two pages hold the whole history. */
  ghost predicate Fitting(h: seq<RawFill>) {
    PagesFit(h) && (NewestCut(h) == {} || |h| <= 2 * PageSize)
  }

  /** Where pages fit, only the newest page cuts a burst. */
  lemma OnlyNewestCuts(h: seq<RawFill>, made: seq<Request>, t: int)
    requires Sorted(h) && PagesFit(h) && CutBy(h, made, t)
    ensures Newest in made && t in NewestCut(h)
  {
    hide Splits;
    var r :| r in made && t in CutOf(h, r);
    if r.ByTime? { OldestCutSplits(h, r.startMs, r.endMs, t); }
  }

  /** A reading that asks for the newest page had asked for the first page before. */
  lemma {:induction false} BackOnKeeps(
    h: seq<RawFill>, c: Call, reached: int, covered: int, rowsPerMs: real, made: seq<Request>)
    ensures Among(made, BackOn(h, c, reached, covered, rowsPerMs, made).made)
    decreases covered - reached
  {
    hide Forward, RecordsBy, CountBetween;
    var end := c.scope.endMs;
    if covered > reached && |made| < c.maxPages && CountBetween(RecordsBy(h, c.scope, made), covered, end) < c.target {
      var span := SpanMs(rowsPerMs, covered - reached);
      var (more, window) := Forward(h, covered - span, covered, c.maxPages - |made|);
      if window.complete {
        BackOnKeeps(h, c, reached, covered - span, MaxInt(window.rows, 1) as real / span as real, made + more);
      }
    }
  }

  lemma OldestFirstByTime(h: seq<RawFill>, c: Call, made: seq<Request>, first: ForwardRead)
    requires Sorted(h) && first.lastMs.Some? && Newest !in made
    ensures Newest !in OldestFirst(h, c, made, first).made
  {
    hide ForwardOn, OldestPage;
    if |made| < c.maxPages {
      ForwardAdvances(h, first.lastMs.value, c.scope.endMs, c.maxPages - |made|, NothingRead);
    }
  }

  lemma FromNewestKeeps(h: seq<RawFill>, c: Call, made: seq<Request>, reached: int)
    ensures Among(made, FromNewest(h, c, made, reached).made)
  {
    hide BackOn, NewestPage, MinTime, MaxTime;
    if |NewestPage(h)| >= PageSize {
      BackOnKeeps(h, c, reached, CoveredFrom(h, c.scope), RowsPerMs(NewestPage(h)), made + [Newest]);
    }
  }

  lemma NewestFollowsFirst(h: seq<RawFill>, c: Call)
    requires Sorted(h) && c.maxPages > 0 && Newest in Untrimmed(h, c).made
    ensures !FirstPage(h, c).1.complete && ByTime(c.scope.startMs, c.scope.endMs) in Untrimmed(h, c).made
  {
    hide ForwardOn, OldestPage, NewestPage, FromNewest, OldestFirst, EndsWith;
    FullFirstPage(h, c);
    var (made, first) := FirstPage(h, c);
    if !first.complete && first.lastMs.Some? {
      if !c.newestPageAvailable || |made| >= c.maxPages {
        OldestFirstByTime(h, c, made, first);
      } else {
        FromNewestKeeps(h, c, made, first.lastMs.value);
      }
    }
  }

  /** A full first page and the newest page hold a history of two pages from its start on. */
  lemma TwoPagesHoldAll(h: seq<RawFill>, made: seq<Request>, s: int, e: int, i: nat)
    requires Sorted(h) && |h| <= 2 * PageSize && ByTime(s, e) in made && Newest in made
    requires |OldestPage(h, s, e)| == PageSize && i < |h| && s <= h[i].timeMs
    ensures Seen(h, made, i)
  {
    BeforeSplits(h, s);
    assert Returns(h, ByTime(s, e), i) || Returns(h, Newest, i);
  }

  lemma ProperIsNotLate(h: seq<RawFill>, c: Call, w: FillWindow)
    requires Proper(h, c)
    ensures !Late(h, c, w)
  {
    if c.newestPageAvailable && NewestPage(h) != [] {
      var page := NewestPage(h);
      var k :| 0 <= k < |page| && page[k].timeMs == MinTime(page);
      assert page[k] == h[|h| - 1 - k];
    }
  }

  lemma FittingHasNoGap(h: seq<RawFill>, c: Call)
    requires Sorted(h) && Fitting(h) && Proper(h, c)
    ensures WindowWhole(h, c)
  {
    hide Late, Untrimmed, Seen, CutBy, PagesFit, FirstPage, OldestPage;
    UntrimmedCovers(h, c);
    var u := Untrimmed(h, c);
    ProperIsNotLate(h, c, u.window);
    forall i | 0 <= i < |h| && u.window.startMs <= h[i].timeMs <= u.window.endMs
      ensures Seen(h, u.made, i)
    {
      if CutBy(h, u.made, h[i].timeMs) {
        OnlyNewestCuts(h, u.made, h[i].timeMs);
        NewestFollowsFirst(h, c);
        FullFirstPage(h, c);
        LastTimeInRange(h, c.scope.startMs, c.scope.endMs);
        TwoPagesHoldAll(h, u.made, c.scope.startMs, c.scope.endMs, i);
      }
    }
  }

  /** A page that splits a burst: asking for that burst's time as the end ends the read there. */
  function CutCall(h: seq<RawFill>, s: int, t: int): Call {
    var scope := Scope(s, t, false);
    Call(scope, 1, |RecordsBy(h, scope, [ByTime(s, t)])| + 1, false)
  }

  lemma SplitLeavesGap(h: seq<RawFill>, s: int, t: int)
    requires Sorted(h) && Splits(h, s, t)
    ensures Proper(h, CutCall(h, s, t)) && !ReportsWhole(h, CutCall(h, s, t))
  {
    var c := CutCall(h, s, t);
    hide WindowWhole, ReportsWhole, RecordsBy;
    BeforeSplits(h, s);
    BeforeSplits(h, t);
    BeforeSplits(h, t + 1);
    PageExtremes(h, s, t);
    FullFirstPage(h, c);
    OnePageExactly(h, c);
    TrimmedIsWhole(h, c);
  }

  /** A newest page that starts inside a burst: two pages do not reach back past it. */
  function NewestCutCall(h: seq<RawFill>): Call
    requires h != []
  {
    var scope := Scope(h[0].timeMs, h[|h| - 1].timeMs + 1, false);
    Call(scope, 2, |RecordsBy(h, scope, [ByTime(scope.startMs, scope.endMs), Newest])| + 1, true)
  }

  lemma NewestCutLeavesGap(h: seq<RawFill>)
    requires Sorted(h) && NewestCut(h) != {} && |h| > 2 * PageSize
    ensures Proper(h, NewestCutCall(h)) && !ReportsWhole(h, NewestCutCall(h))
  {
    hide RecordsBy, ReportsWhole, Untrimmed, Seen, NewestCut;
    var c := NewestCutCall(h);
    NewestCutReading(h);
    NewestCutMisses(h);
    assert !WindowWhole(h, c);
    TrimmedIsWhole(h, c);
  }

  /** Neither of the two pages holds the fill before the newest page. */
  lemma NewestCutMisses(h: seq<RawFill>)
    requires Sorted(h) && NewestCut(h) != {} && |h| > 2 * PageSize
    ensures var i, scope := |h| - PageSize - 1, NewestCutCall(h).scope;
            && h[i].timeMs == h[|h| - PageSize].timeMs
            && !Seen(h, [ByTime(scope.startMs, scope.endMs), Newest], i)
  {
    hide Sorted, RecordsBy;
    NewestCutFirstPage(h);
  }

  lemma PageOfAll(h: seq<RawFill>, s: int, e: int)
    requires Sorted(h) && |h| > PageSize && s == h[0].timeMs && e > h[|h| - 1].timeMs
    ensures Before(h, s) == 0 && PageEnd(h, s, e) == PageSize && |OldestPage(h, s, e)| == PageSize
    ensures MaxTime(OldestPage(h, s, e)) < e
  {
    hide Before, MaxTime;
    BeforeSplits(h, s);
    BeforeSplits(h, e + 1);
    assert Before(h, e + 1) == |h|;
    PageExtremes(h, s, e);
  }

  lemma NewestCutFirstPage(h: seq<RawFill>)
    requires Sorted(h) && |h| > 2 * PageSize
    ensures var c := NewestCutCall(h);
            && Before(h, c.scope.startMs) == 0 && PageEnd(h, c.scope.startMs, c.scope.endMs) == PageSize
            && !FirstPage(h, c).1.complete
  {
    hide ForwardOn, MaxTime, MinTime, RecordsBy, Before, PageEnd, OldestPage;
    var c := NewestCutCall(h);
    PageOfAll(h, c.scope.startMs, c.scope.endMs);
    FullFirstPage(h, c);
  }

  /** A budget of two pages ends with the newest page. */
  lemma TwoPageReading(h: seq<RawFill>, c: Call)
    requires Sorted(h) && c.maxPages == 2 && c.newestPageAvailable && !FirstPage(h, c).1.complete && NewestPage(h) != []
    ensures var u, from := Untrimmed(h, c), CoveredFrom(h, c.scope);
            && u.made == [ByTime(c.scope.startMs, c.scope.endMs), Newest]
            && u.window.startMs in {c.scope.startMs, from} && u.window.endMs == c.scope.endMs
  {
    hide ForwardOn, NewestPage, OldestPage, MaxTime, MinTime, Reads, EndsWith, CoveredFrom, RowsPerMs, RecordsBy;
    FirstPageReads(h, c);
    var reached := FirstPage(h, c).1.lastMs.value;
    assert Untrimmed(h, c) == FromNewest(h, c, [ByTime(c.scope.startMs, c.scope.endMs)], reached);
    assert [ByTime(c.scope.startMs, c.scope.endMs)] + [Newest] == [ByTime(c.scope.startMs, c.scope.endMs), Newest];
  }

  /** The window starts no later than the newest page. */
  lemma NewestCutReading(h: seq<RawFill>)
    requires Sorted(h) && |h| > 2 * PageSize
    ensures var c, u := NewestCutCall(h), Untrimmed(h, NewestCutCall(h));
            && u.made == [ByTime(c.scope.startMs, c.scope.endMs), Newest]
            && u.window.startMs <= h[|h| - PageSize].timeMs <= u.window.endMs
  {
    hide FirstPage, Untrimmed, RecordsBy, MinTime;
    NewestCutFirstPage(h);
    TwoPageReading(h, NewestCutCall(h));
    NewestExtremes(h);
  }

  /** Every call reports a window it has read whole exactly when pages fit the history's bursts. */
  lemma GapFreeExactly(h: seq<RawFill>)
    requires Sorted(h)
    ensures (forall c :: Proper(h, c) ==> ReportsWhole(h, c)) <==> Fitting(h)
  {
    hide Splits, WindowWhole, ReportsWhole, Proper, NewestCut;
    if Fitting(h) {
      forall c | Proper(h, c)
        ensures ReportsWhole(h, c)
      {
        FittingHasNoGap(h, c);
        TrimmedIsWhole(h, c);
      }
    } else if s, t :| Splits(h, s, t) {
      SplitLeavesGap(h, s, t);
    } else {
      NewestCutLeavesGap(h);
    }
  }

  // ------------------------------------------------------------ how far it goes

  /** A read that does not reach back to its start has used its pages, or has its target of records. */
  predicate WentFar(h: seq<RawFill>, c: Call, u: Reading) {
    || u.window.complete || |u.made| == c.maxPages
    || CountBetween(RecordsBy(h, c.scope, u.made), u.window.startMs, u.window.endMs) >= c.target
  }

  /** An incomplete forward read has used up its pages. */
  lemma {:induction false} IncompleteUsesLimit(h: seq<RawFill>, cursor: int, end: int, limit: nat, r: ForwardRead)
    requires !ForwardOn(h, cursor, end, limit, r).1.complete
    ensures |ForwardOn(h, cursor, end, limit, r).0| == limit
    decreases limit
  {
    hide OldestPage, MaxTime, MinTime;
    if limit > 0 {
      var page := OldestPage(h, cursor, end);
      var now := WithPage(r, page);
      if !EndsRead(now, page, end) {
        IncompleteUsesLimit(h, NextCursor(cursor, now.lastMs.value), end, limit - 1, now);
      }
    }
  }

  lemma {:induction false} BackOnGoesFar(
    h: seq<RawFill>, c: Call, reached: int, covered: int, rowsPerMs: real, made: seq<Request>)
    requires Sorted(h) && |made| <= c.maxPages
    ensures WentFar(h, c, BackOn(h, c, reached, covered, rowsPerMs, made))
    decreases covered - reached
  {
    hide Sorted, ForwardOn, Advances, RecordsBy, CountBetween;
    var end := c.scope.endMs;
    if covered > reached && |made| < c.maxPages && CountBetween(RecordsBy(h, c.scope, made), covered, end) < c.target {
      var span, limit := SpanMs(rowsPerMs, covered - reached), c.maxPages - |made|;
      var (more, window) := Forward(h, covered - span, covered, limit);
      ForwardAdvances(h, covered - span, covered, limit, NothingRead);
      if window.complete {
        BackOnGoesFar(h, c, reached, covered - span, MaxInt(window.rows, 1) as real / span as real, made + more);
      } else {
        IncompleteUsesLimit(h, covered - span, covered, limit, NothingRead);
      }
    }
  }

  lemma UntrimmedGoesFar(h: seq<RawFill>, c: Call)
    requires Sorted(h) && c.maxPages > 0
    ensures WentFar(h, c, Untrimmed(h, c))
  {
    hide ForwardOn, BackOn, OldestPage, NewestPage, EndsWith, RecordsBy, CountBetween, Reads;
    FullFirstPage(h, c);
    var (made, first) := FirstPage(h, c);
    if !first.complete {
      FirstPageReads(h, c);
      var reached := first.lastMs.value;
      if !c.newestPageAvailable || |made| >= c.maxPages {
        if |made| < c.maxPages {
          var limit := c.maxPages - |made|;
          if !Forward(h, reached, c.scope.endMs, limit).1.complete {
            IncompleteUsesLimit(h, reached, c.scope.endMs, limit, NothingRead);
          }
        }
      } else {
        BackOnGoesFar(h, c, reached, CoveredFrom(h, c.scope), RowsPerMs(NewestPage(h)), made + [Newest]);
      }
    }
  }

  /** What was read back from the newest page is in the window: it starts no later than that
      page covers, and than every request read back from there but those of a read the budget
      broke off, which ends where the window starts. */
  predicate ReachesBack(h: seq<RawFill>, c: Call, u: Reading) {
    && u.window.endMs == c.scope.endMs && (NewestPage(h) != [] ==> u.window.startMs <= CoveredFrom(h, c.scope))
    && forall k :: 2 <= k < |u.made| ==>
         u.made[k].ByTime? && (u.window.startMs <= u.made[k].startMs || u.made[k].endMs == u.window.startMs)
  }

  /** The rows a rate brings in a time. */
  function Rows(ms: real, rate: real): real { ms * rate }

  /** The span of the next window is the longest that stays within the wanted rows at the last
      rate, but no shorter than a minute, and never past the first page. */
  lemma SpanIsLongest(rowsPerMs: real, most: int)
    requires rowsPerMs >= 0.000000001 && most > 0
    ensures var span := SpanMs(rowsPerMs, most);
            && 1 <= span <= most
            && (span > 60_000 ==> Rows(span as real, rowsPerMs) <= 1600.0)
            && (span < most ==> span >= 60_000 && Rows((span + 1) as real, rowsPerMs) > 1600.0)
  {
    hide Rows;
    var exact, span := 1600.0 / rowsPerMs, SpanMs(rowsPerMs, most);
    assert span > 60_000 ==> span as real <= exact;
    assert span < most ==> span >= 60_000 && exact < (span + 1) as real;
    RowsOfQuotient(1600.0, rowsPerMs);
    if span > 60_000 { RowsGrow(span as real, exact, rowsPerMs); }
    if span < most { RowsGrow(exact, (span + 1) as real, rowsPerMs); }
  }

  lemma RowsOfQuotient(rows: real, rate: real)
    requires rate > 0.0
    ensures Rows(rows / rate, rate) == rows
  {
  }

  lemma PositiveProduct(a: real, b: real)
    requires a > 0.0 && b > 0.0
    ensures a * b > 0.0
  {
  }

  lemma RowsGrow(a: real, b: real, rate: real)
    requires a <= b && rate > 0.0
    ensures Rows(a, rate) <= Rows(b, rate) && (a < b ==> Rows(a, rate) < Rows(b, rate))
  {
    if a < b {
      PositiveProduct(b - a, rate);
      assert (b - a) * rate == b * rate - a * rate;
    }
  }

  /** The requests read back so far start no earlier than the covered time. */
  predicate BackFrom(made: seq<Request>, covered: int) {
    |made| >= 2 && forall k :: 2 <= k < |made| ==> made[k].ByTime? && covered <= made[k].startMs
  }

  lemma {:induction false} BackOnReachesBack(
    h: seq<RawFill>, c: Call, reached: int, covered: int, rowsPerMs: real, made: seq<Request>)
    requires Sorted(h) && BackFrom(made, covered) && c.scope.startMs <= covered
    requires c.scope.startMs <= reached && NewestPage(h) != [] && covered <= CoveredFrom(h, c.scope)
    ensures ReachesBack(h, c, BackOn(h, c, reached, covered, rowsPerMs, made))
    decreases covered - reached
  {
    hide Sorted, ForwardOn, RecordsBy, CountBetween, CoveredFrom, NewestPage, EndsWith;
    var end := c.scope.endMs;
    if covered > reached && |made| < c.maxPages && CountBetween(RecordsBy(h, c.scope, made), covered, end) < c.target {
      var span, limit := SpanMs(rowsPerMs, covered - reached), c.maxPages - |made|;
      var (more, window) := Forward(h, covered - span, covered, limit);
      ForwardAdvances(h, covered - span, covered, limit, NothingRead);
      var all := made + more;
      assert forall k :: |made| <= k < |all| ==> all[k] == more[k - |made|];
      if window.complete {
        BackOnReachesBack(h, c, reached, covered - span, MaxInt(window.rows, 1) as real / span as real, all);
      }
    }
  }

  /** A read that asks for the newest page keeps what it reads back from there. */
  lemma UntrimmedReachesBack(h: seq<RawFill>, c: Call)
    requires Sorted(h) && c.maxPages > 1 && c.newestPageAvailable && !FirstPage(h, c).1.complete
    ensures ReachesBack(h, c, Untrimmed(h, c))
  {
    hide ForwardOn, BackOn, OldestPage, NewestPage, EndsWith, RecordsBy, CountBetween, Reads, ReachesBack;
    FirstPageReads(h, c);
    var (made, first) := FirstPage(h, c);
    var from, rate := CoveredFrom(h, c.scope), RowsPerMs(NewestPage(h));
    BackOnReachesBack(h, c, first.lastMs.value, from, rate, made + [Newest]);
  }

  /** A read oldest first keeps all it reads: no request returned a fill after the window's end,
      unless the last time it reached is the epoch itself. */
  lemma OldestFirstKeepsAll(h: seq<RawFill>, c: Call, i: nat)
    requires Sorted(h) && c.maxPages > 0 && !FirstPage(h, c).1.complete && (!c.newestPageAvailable || c.maxPages == 1)
    requires i < |h| && Seen(h, Untrimmed(h, c).made, i) && RestOf(h, c).lastMs != Some(0)
    ensures h[i].timeMs <= Untrimmed(h, c).window.endMs
  {
    hide Splits, Overfull, Untrimmed, FirstPage, RestOf, Reads, Seen;
    OldestFirstHasShape(h, c);
    var u, rest, end := Untrimmed(h, c), RestOf(h, c), c.scope.endMs;
    SeenByLast(h, u.made, end, rest, i);
  }

  /** Requests by time return nothing after the last page of the latest of them. */
  lemma SeenByLast(h: seq<RawFill>, made: seq<Request>, end: int, rest: ForwardRead, i: nat)
    requires Sorted(h) && made != [] && i < |h| && Seen(h, made, i)
    requires StartBy(made, LastStart(made)) && (forall r :: r in made ==> r.endMs == end)
    requires EndsWith(h, made[|made| - 1], rest, end) && (rest.complete || rest.lastMs.Some?)
    ensures h[i].timeMs <= RestReach(rest, end)
  {
    var last := LastStart(made);
    var r :| r in made && Returns(h, r, i);
    BeforeIsMonotone(h, r.startMs, last);
    BeforeSplits(h, end + 1);
    assert i < PageEnd(h, last, end) || i < Before(h, last);
    if |OldestPage(h, last, end)| == PageSize {
      PageExtremes(h, last, end);
      assert h[i].timeMs <= h[PageEnd(h, last, end) - 1].timeMs;
    }
  }

  // ------------------------------------------------------------- window sizes

  /** The request reads back from a time, over the longest span in which rows that came at a density
      stay within the wanted ones, but no shorter than a minute, and not past the first page. */
  predicate ReadsBackFrom(r: Request, end: int, reached: int, rows: nat, spanMs: nat) {
    && r.ByTime? && r.endMs == end && reached <= r.startMs < end
    && (r.startMs == reached || end - r.startMs >= 60_000)
    && (end - r.startMs > 60_000 ==> (end - r.startMs) * rows <= 1600 * spanMs)
    && (r.startMs > reached ==> (end - r.startMs + 1) * rows > 1600 * spanMs)
  }

  lemma SpanOfDensity(rows: nat, spanMs: nat, most: int)
    requires rows > 0 && spanMs > 0 && most > 0 && rows as real / spanMs as real >= 0.000000001
    ensures var span := SpanMs(rows as real / spanMs as real, most);
            && 1 <= span <= most && (span == most || span >= 60_000)
            && (span > 60_000 ==> span * rows <= 1600 * spanMs)
            && (span < most ==> (span + 1) * rows > 1600 * spanMs)
  {
    hide Rows;
    var rate := rows as real / spanMs as real;
    var span := SpanMs(rate, most);
    SpanIsLongest(rate, most);
    if span > 60_000 { RowsInSpan(span, rows, spanMs); }
    if span < most { RowsInSpan(span + 1, rows, spanMs); }
  }

  lemma RowsInSpan(span: nat, rows: nat, spanMs: nat)
    requires spanMs > 0
    ensures Rows(span as real, rows as real / spanMs as real) <= 1600.0 <==> span * rows <= 1600 * spanMs
  {
    var rate, d := rows as real / spanMs as real, spanMs as real;
    assert rate * d == rows as real;
    var x := span as real * rate;
    assert x * d == span as real * rows as real;
    assert span as real * rows as real == (span * rows) as real;
    if x <= 1600.0 { RowsGrow(x, 1600.0, d); }
    if x > 1600.0 { RowsGrow(1600.0, x, d); }
    assert Rows(x, d) == (span * rows) as real && Rows(1600.0, d) == (1600 * spanMs) as real;
  }

  function Density(rows: nat, spanMs: nat): real
    requires spanMs > 0
  {
    rows as real / spanMs as real
  }

  lemma DensityIsNotTooSmall(rows: nat, spanMs: nat)
    requires spanMs > 0 && rows * 1_000_000_000 >= spanMs
    ensures Density(rows, spanMs) >= 0.000000001
  {
    var d := spanMs as real;
    assert Density(rows, spanMs) * d == rows as real;
    if Density(rows, spanMs) < 0.000000001 { RowsGrow(Density(rows, spanMs), 0.000000001, d); }
  }

  /** Each window read back is sized by the density of the one before: a reading that has come to a
      covered time by rows at a density makes no more requests, or reads the longest window that fits
      it, and goes on from there, with that window's rows over its span, if it got it whole. */
  lemma WindowsFollowDensity(
    h: seq<RawFill>, c: Call, reached: int, covered: int, rows: nat, spanMs: nat, made: seq<Request>)
    requires Sorted(h) && rows > 0 && spanMs > 0 && rows * 1_000_000_000 >= spanMs
    ensures var u := BackOn(h, c, reached, covered, Density(rows, spanMs), made);
            || u.made == made
            || (&& |made| < |u.made| && ReadsBackFrom(u.made[|made|], covered, reached, rows, spanMs)
                && |made| < c.maxPages && covered > reached
                && var start := u.made[|made|].startMs;
                   var (more, window) := Forward(h, start, covered, c.maxPages - |made|);
                   if !window.complete then u.made == made + more
                   else
                     var density := Density(MaxInt(window.rows, 1), covered - start);
                     u == BackOn(h, c, reached, start, density, made + more))
  {
    hide Sorted, ForwardOn, RecordsBy, CountBetween, EndsWith, SpanMs;
    DensityIsNotTooSmall(rows, spanMs);
    var rate, end := Density(rows, spanMs), c.scope.endMs;
    if covered > reached && |made| < c.maxPages && CountBetween(RecordsBy(h, c.scope, made), covered, end) < c.target {
      SpanOfDensity(rows, spanMs, covered - reached);
      var start, limit := covered - SpanMs(rate, covered - reached), c.maxPages - |made|;
      var (more, window) := Forward(h, start, covered, limit);
      ForwardAdvances(h, start, covered, limit, NothingRead);
      if window.complete {
        BackOnExtends(h, c, reached, start, Density(MaxInt(window.rows, 1), covered - start), made + more);
      }
    }
  }

  lemma {:induction false} BackOnExtends(
    h: seq<RawFill>, c: Call, reached: int, covered: int, rowsPerMs: real, made: seq<Request>)
    ensures made <= BackOn(h, c, reached, covered, rowsPerMs, made).made
    decreases covered - reached
  {
    hide Forward, RecordsBy, CountBetween;
    var end := c.scope.endMs;
    if covered > reached && |made| < c.maxPages && CountBetween(RecordsBy(h, c.scope, made), covered, end) < c.target {
      var span := SpanMs(rowsPerMs, covered - reached);
      var (more, window) := Forward(h, covered - span, covered, c.maxPages - |made|);
      if window.complete {
        BackOnExtends(h, c, reached, covered - span, MaxInt(window.rows, 1) as real / span as real, made + more);
      }
    }
  }

  /** The first window is sized by the newest page, from its oldest fill to its newest. */
  lemma NewestDensity(h: seq<RawFill>)
    requires Sorted(h) && NewestPage(h) != []
    ensures var span := h[|h| - 1].timeMs - h[NewestStart(h)].timeMs;
            RowsPerMs(NewestPage(h)) == Density(|NewestPage(h)|, if span > 1 then span else 1)
  {
    hide MaxTime, MinTime;
    NewestExtremes(h);
    NewestIsLast(h);
  }

  lemma NewestIsLast(h: seq<RawFill>)
    requires Sorted(h) && NewestPage(h) != []
    ensures MaxTime(NewestPage(h)) == h[|h| - 1].timeMs
  {
    hide MaxTime;
    var page := NewestPage(h);
    assert page[0] == h[|h| - 1];
    var k :| 0 <= k < |page| && page[k].timeMs == MaxTime(page);
    assert page[k] == h[|h| - 1 - k];
  }
}
