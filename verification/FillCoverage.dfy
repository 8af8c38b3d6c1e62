/** What a window read covers: everything but one seam, and for which histories it covers all. */
module FillCoverage {
  import opened Numbers
  import opened Options
  import opened FillHistory
  import opened FillReading

  /** Every fill of [lo, hi] was returned. */
  ghost predicate Whole(h: seq<RawFill>, made: seq<Request>, lo: int, hi: int) {
    forall i :: 0 <= i < |h| && lo <= h[i].timeMs <= hi ==> Seen(h, made, i)
  }

  /** Every fill of [lo, hi] was returned, except where a page of these requests cut a burst:
      at the seam, or in a millisecond that holds more than a page. */
  ghost predicate Reads(h: seq<RawFill>, made: seq<Request>, lo: int, hi: int, seam: int) {
    forall i :: 0 <= i < |h| && lo <= h[i].timeMs <= hi ==> Seen(h, made, i) || CutAway(h, made, seam, h[i].timeMs)
  }

  predicate CutAway(h: seq<RawFill>, made: seq<Request>, seam: int, t: int) {
    CutBy(h, made, t) && (t == seam || Overfull(h, t))
  }

  predicate Among(made: seq<Request>, all: seq<Request>) { forall r :: r in made ==> r in all }

  lemma SeenStays(h: seq<RawFill>, made: seq<Request>, all: seq<Request>)
    requires Among(made, all)
    ensures forall i :: Seen(h, made, i) ==> Seen(h, all, i)
    ensures forall t :: CutBy(h, made, t) ==> CutBy(h, all, t)
  {
    forall i | Seen(h, made, i)
      ensures Seen(h, all, i)
    {
      var r :| r in made && Returns(h, r, i);
      assert r in all;
    }
    forall t | CutBy(h, made, t)
      ensures CutBy(h, all, t)
    {
      var r :| r in made && t in CutOf(h, r);
      assert r in all;
    }
  }

  lemma ReadsStay(h: seq<RawFill>, made: seq<Request>, all: seq<Request>, lo: int, hi: int, seam: int)
    requires Reads(h, made, lo, hi, seam) && Among(made, all)
    ensures Reads(h, all, lo, hi, seam)
  {
    hide Seen, CutBy, Overfull;
    SeenStays(h, made, all);
  }

  // ------------------------------------------------------------ forward reads

  lemma ShortPageReads(h: seq<RawFill>, made: seq<Request>, start: int, s: int, e: int)
    requires Sorted(h) && Reads(h, made, start, s - 1, s) && |OldestPage(h, s, e)| < PageSize
    ensures Reads(h, made + [ByTime(s, e)], start, e, e)
  {
    var all := made + [ByTime(s, e)];
    ReadsStay(h, made, all, start, s - 1, s);
    assert ByTime(s, e) in all;
    hide OldestPage, CutBy, Overfull;
    forall i | 0 <= i < |h| && s <= h[i].timeMs <= e
      ensures Seen(h, all, i)
    {
      ShortPageHoldsRange(h, s, e, i);
      assert Returns(h, ByTime(s, e), i);
    }
  }

  lemma FullPageReads(h: seq<RawFill>, made: seq<Request>, start: int, s: int, e: int)
    requires Sorted(h) && start <= s && Reads(h, made, start, s - 1, s) && |OldestPage(h, s, e)| == PageSize
    ensures var all, last := made + [ByTime(s, e)], MaxTime(OldestPage(h, s, e));
            && s <= last <= e && Reads(h, all, start, last, last)
            && Reads(h, all, start, NextCursor(s, last) - 1, NextCursor(s, last))
  {
    var all := made + [ByTime(s, e)];
    ReadsStay(h, made, all, start, s - 1, s);
    assert ByTime(s, e) in all;
    PageExtremes(h, s, e);
    PageTimesInRange(h, s, e);
    hide OldestCut, Overfull, MaxTime, MinTime;
    var n := PageEnd(h, s, e);
    var last := h[n - 1].timeMs;
    forall i | 0 <= i < |h| && s <= h[i].timeMs <= last
      ensures Seen(h, all, i) || (h[i].timeMs == last && CutBy(h, all, last) && (last == s ==> Overfull(h, s)))
    {
      FullPageHoldsBelowLast(h, s, e, i);
      if i < n {
        assert Returns(h, ByTime(s, e), i);
      } else {
        assert last in CutOf(h, ByTime(s, e));
        if last == s { FullPageOfOneTime(h, s, e, i); }
      }
    }
  }

  /** What has been read so far fits a cursor. */
  ghost predicate ReadUpTo(h: seq<RawFill>, made: seq<Request>, start: int, cursor: int, end: int, r: ForwardRead) {
    && start <= cursor && !r.complete && Reads(h, made, start, cursor - 1, cursor)
    && (r.lastMs.Some? ==> start <= r.lastMs.value < end && Reads(h, made, start, r.lastMs.value, r.lastMs.value))
  }

  /** A complete forward read has its range but for a cut at the end; an incomplete one has
      everything up to the last time it reached but for a cut there. */
  ghost predicate ForwardCovers(h: seq<RawFill>, all: seq<Request>, start: int, end: int, r: ForwardRead) {
    && (r.complete ==> Reads(h, all, start, end, end))
    && (!r.complete && r.lastMs.Some? ==>
          start <= r.lastMs.value < end && Reads(h, all, start, r.lastMs.value, r.lastMs.value))
  }

  lemma {:induction false} ForwardOnCovers(
    h: seq<RawFill>, start: int, cursor: int, end: int, limit: nat, r: ForwardRead, prior: seq<Request>)
    requires Sorted(h) && ReadUpTo(h, prior, start, cursor, end, r)
    ensures var (made, out) := ForwardOn(h, cursor, end, limit, r);
            && ForwardCovers(h, prior + made, start, end, out)
            && (limit > 0 && !out.complete ==> out.lastMs.Some?)
    decreases limit
  {
    hide Reads, OldestPage, MaxTime, MinTime;
    if limit == 0 {
      assert prior + [] == prior;
    } else {
      var page := OldestPage(h, cursor, end);
      var now := WithPage(r, page);
      if |page| < PageSize {
        ShortPageReads(h, prior, start, cursor, end);
      } else {
        FullPageReads(h, prior, start, cursor, end);
        if now.lastMs.value < end {
          var next := NextCursor(cursor, now.lastMs.value);
          ForwardOnCovers(h, start, next, end, limit - 1, now, prior + [ByTime(cursor, end)]);
          var more := ForwardOn(h, next, end, limit - 1, now).0;
          assert prior + [ByTime(cursor, end)] + more == prior + ([ByTime(cursor, end)] + more);
        }
      }
    }
  }

  lemma ForwardReads(h: seq<RawFill>, start: int, end: int, limit: nat)
    requires Sorted(h)
    ensures var (made, out) := Forward(h, start, end, limit);
            && ForwardCovers(h, made, start, end, out)
            && (limit > 0 && !out.complete ==> out.lastMs.Some?)
  {
    hide ForwardOn, ForwardCovers;
    ForwardOnCovers(h, start, start, end, limit, NothingRead, []);
    var made := Forward(h, start, end, limit).0;
    assert [] + made == made;
  }

  /** The requests of a forward read: their starts strictly advance, and the last page is
      short, or full up to the last time reached. */
  ghost predicate Advances(h: seq<RawFill>, made: seq<Request>, cursor: int, end: int, r: ForwardRead) {
    && (forall k :: 0 <= k < |made| ==> made[k].ByTime? && made[k].endMs == end && cursor <= made[k].startMs)
    && (cursor <= end ==> forall k :: 0 <= k < |made| ==> made[k].startMs <= end)
    && (forall j, k :: 0 <= j < k < |made| ==> made[j].startMs < made[k].startMs)
    && (made != [] ==> EndsWith(h, made[|made| - 1], r, end))
  }

  predicate EndsWith(h: seq<RawFill>, last: Request, r: ForwardRead, end: int) {
    last.ByTime? &&
    var page := OldestPage(h, last.startMs, end);
    if |page| < PageSize then r.complete
    else r.lastMs == Some(MaxTime(page)) && (r.complete <==> MaxTime(page) >= end)
  }

  lemma LastTimeInRange(h: seq<RawFill>, s: int, e: int)
    requires Sorted(h) && |OldestPage(h, s, e)| == PageSize
    ensures s <= MaxTime(OldestPage(h, s, e)) <= e
  {
    PageExtremes(h, s, e);
    PageTimesInRange(h, s, e);
  }

  lemma {:induction false} ForwardAdvances(h: seq<RawFill>, cursor: int, end: int, limit: nat, r: ForwardRead)
    requires Sorted(h) && !r.complete
    ensures var (made, out) := ForwardOn(h, cursor, end, limit, r);
            && Advances(h, made, cursor, end, out) && |made| <= limit
            && (limit > 0 ==> made != [] && made[0] == ByTime(cursor, end))
            && (limit == 0 ==> out == r)
    decreases limit
  {
    hide OldestPage, MaxTime, MinTime;
    if limit > 0 {
      var page := OldestPage(h, cursor, end);
      var now := WithPage(r, page);
      if !EndsRead(now, page, end) {
        var next := NextCursor(cursor, now.lastMs.value);
        LastTimeInRange(h, cursor, end);
        ForwardAdvances(h, next, end, limit - 1, now);
        var (more, out) := ForwardOn(h, next, end, limit - 1, now);
        var made := [ByTime(cursor, end)] + more;
        assert forall k :: 0 < k < |made| ==> made[k] == more[k - 1];
      }
    }
  }

  // ------------------------------------------------------------ window reads

  /** As `Reads`, but at the end of the window nothing is known where no request looked there. */
  ghost predicate WindowRead(h: seq<RawFill>, made: seq<Request>, w: FillWindow, seam: int, late: bool) {
    forall i :: 0 <= i < |h| && w.startMs <= h[i].timeMs <= w.endMs ==>
      Seen(h, made, i) || CutAway(h, made, seam, h[i].timeMs) || (late && h[i].timeMs == w.endMs)
  }

  /** The one time at which the reported window may have a gap: where a read oldest first
      stopped, or where the newest page starts. */
  function Seam(h: seq<RawFill>, c: Call): int {
    var (made, first) := FirstPage(h, c);
    if first.complete || first.lastMs.None? then c.scope.endMs
    else if !c.newestPageAvailable || |made| >= c.maxPages then OldestFirst(h, c, made, first).window.endMs
    else if NewestPage(h) == [] then c.scope.endMs
    else CoveredFrom(h, c.scope)
  }

  /** The newest page lies wholly after the asked time, and the budget ended with it: the
      window is the end of that time alone, where no request looked. */
  predicate Late(h: seq<RawFill>, c: Call, w: FillWindow) {
    && c.newestPageAvailable && w.startMs == w.endMs == c.scope.endMs
    && NewestPage(h) != [] && MinTime(NewestPage(h)) > c.scope.endMs
  }

  /** The window lies in the asked time, and is all of it when it claims to be complete. */
  predicate Fits(scope: Scope, w: FillWindow) {
    && (w.complete ==> w == WholeScope(scope))
    && (scope.startMs <= scope.endMs ==> scope.startMs <= w.startMs <= w.endMs <= scope.endMs)
  }

  lemma JoinReads(h: seq<RawFill>, made: seq<Request>, lo: int, mid: int, hi: int, seam: int)
    requires Reads(h, made, lo, mid, mid) && Reads(h, made, mid, hi, seam)
    ensures Reads(h, made, lo, hi, seam)
  {
    hide Seen, CutBy, Overfull;
  }

  lemma PlainWindow(h: seq<RawFill>, made: seq<Request>, w: FillWindow, hi: int, seam: int, late: bool)
    requires Reads(h, made, w.startMs, hi, seam) && w.endMs <= hi && (w.endMs < hi ==> hi == seam)
    ensures WindowRead(h, made, w, if w.endMs < hi then w.endMs else seam, late)
  {
    hide Seen, CutBy, Overfull;
  }

  /** Where the second read of an oldest-first reading leaves off. */
  function RestEnd(rest: ForwardRead, reached: int, end: int): int {
    if rest.complete then end
    else if rest.lastMs.Some? && rest.lastMs.value != 0 then rest.lastMs.value else reached
  }

  lemma RestCovers(
    h: seq<RawFill>, made: seq<Request>, more: seq<Request>, start: int, reached: int, end: int,
    rest: ForwardRead, w: FillWindow, late: bool)
    requires start <= reached < end && Reads(h, made, start, reached, reached)
    requires ForwardCovers(h, more, reached, end, rest) && (rest.complete || rest.lastMs.Some?)
    requires w.startMs == start && w.endMs == RestEnd(rest, reached, end)
    ensures WindowRead(h, made + more, w, w.endMs, late) && start <= w.endMs <= end
  {
    hide Reads, WindowRead;
    var hi := if rest.complete then end else rest.lastMs.value;
    ReadsStay(h, made, made + more, start, reached, reached);
    ReadsStay(h, more, made + more, reached, hi, hi);
    JoinReads(h, made + more, start, reached, hi, hi);
    PlainWindow(h, made + more, w, hi, hi, late);
  }

  lemma OldestFirstCovers(h: seq<RawFill>, c: Call, made: seq<Request>, first: ForwardRead)
    requires Sorted(h) && first.lastMs.Some? && !first.complete
    requires ForwardCovers(h, made, c.scope.startMs, c.scope.endMs, first)
    ensures var u := OldestFirst(h, c, made, first);
            && WindowRead(h, u.made, u.window, u.window.endMs, Late(h, c, u.window))
            && Fits(c.scope, u.window)
  {
    hide Late, Reads, WindowRead, Forward, ForwardCovers;
    var start, reached, end := c.scope.startMs, first.lastMs.value, c.scope.endMs;
    var u := OldestFirst(h, c, made, first);
    FirstReads(h, made, start, end, first);
    if |made| < c.maxPages {
      var (more, rest) := Forward(h, reached, end, c.maxPages - |made|);
      ForwardReads(h, reached, end, c.maxPages - |made|);
      RestCovers(h, made, more, start, reached, end, rest, u.window, Late(h, c, u.window));
    } else {
      assert made + [] == made;
      PlainWindow(h, made, u.window, reached, reached, Late(h, c, u.window));
    }
  }

  lemma FirstReads(h: seq<RawFill>, made: seq<Request>, start: int, end: int, first: ForwardRead)
    requires ForwardCovers(h, made, start, end, first) && !first.complete && first.lastMs.Some?
    ensures start <= first.lastMs.value < end && Reads(h, made, start, first.lastMs.value, first.lastMs.value)
  {
  }

  /** What the newest page leaves out of the time it covers. */
  lemma NewestCovers(h: seq<RawFill>, made: seq<Request>, c: Call)
    requires Sorted(h) && c.scope.startMs <= c.scope.endMs && NewestPage(h) != []
    ensures var from := CoveredFrom(h, c.scope);
            var w := FillWindow(false, from, c.scope.endMs);
            WindowRead(h, made + [Newest], w, from, MinTime(NewestPage(h)) > c.scope.endMs)
  {
    NewestExtremes(h);
    hide MinTime, Overfull;
    assert Newest in made + [Newest];
    forall i | 0 <= i < |h| && MinTime(NewestPage(h)) <= h[i].timeMs
      ensures Seen(h, made + [Newest], i)
              || (h[i].timeMs == MinTime(NewestPage(h)) && CutBy(h, made + [Newest], h[i].timeMs))
    {
      if i < NewestStart(h) {
        NewestLeavesAtMostItsOldest(h, i);
        assert h[i].timeMs in CutOf(h, Newest);
      } else {
        assert Returns(h, Newest, i);
      }
    }
  }

  lemma ExtendWindow(
    h: seq<RawFill>, made: seq<Request>, more: seq<Request>, from: int, covered: int, end: int, seam: int, late: bool)
    requires Reads(h, more, from, covered, covered) && (late ==> covered == end == seam)
    requires WindowRead(h, made, FillWindow(false, covered, end), seam, late)
    ensures WindowRead(h, made + more, FillWindow(false, from, end), seam, false)
  {
    SeenStays(h, made, made + more);
    SeenStays(h, more, made + more);
    hide Seen, CutBy, Overfull;
  }

  lemma WindowReadStays(
    h: seq<RawFill>, made: seq<Request>, more: seq<Request>, w: FillWindow, seam: int, late: bool)
    requires WindowRead(h, made, w, seam, late)
    ensures WindowRead(h, made + more, w, seam, late)
  {
    SeenStays(h, made, made + more);
    hide Seen, CutBy, Overfull;
  }

  /** The windows read back meet the first page. */
  lemma ReachBack(
    h: seq<RawFill>, made: seq<Request>, scope: Scope, reached: int, covered: int, seam: int)
    requires Reads(h, made, scope.startMs, reached, reached) && covered <= reached
    requires WindowRead(h, made, FillWindow(false, covered, scope.endMs), seam, false)
    ensures WindowRead(h, made, WholeScope(scope), seam, false)
  {
    hide Seen, CutBy, Overfull;
  }

  lemma {:induction false} BackOnCovers(
    h: seq<RawFill>, c: Call, reached: int, covered: int, rowsPerMs: real, made: seq<Request>, seam: int, late: bool)
    requires Sorted(h) && c.scope.startMs <= reached < c.scope.endMs && c.scope.startMs <= covered <= c.scope.endMs
    requires Reads(h, made, c.scope.startMs, reached, reached) && (late ==> covered == c.scope.endMs == seam)
    requires WindowRead(h, made, FillWindow(false, covered, c.scope.endMs), seam, late)
    ensures var u := BackOn(h, c, reached, covered, rowsPerMs, made);
            && WindowRead(h, u.made, u.window, seam, late && u.window.startMs == u.window.endMs)
            && Fits(c.scope, u.window) && u.window.endMs == c.scope.endMs
    decreases covered - reached
  {
    hide Reads, WindowRead, Forward, ForwardCovers, RecordsBy, CountBetween;
    var end := c.scope.endMs;
    if covered <= reached {
      ReachBack(h, made, c.scope, reached, covered, seam);
    } else if |made| < c.maxPages && CountBetween(RecordsBy(h, c.scope, made), covered, end) < c.target {
      var span := SpanMs(rowsPerMs, covered - reached);
      var (more, window) := Forward(h, covered - span, covered, c.maxPages - |made|);
      ForwardReads(h, covered - span, covered, c.maxPages - |made|);
      if window.complete {
        CompleteReads(h, more, covered - span, covered, window);
        ExtendWindow(h, made, more, covered - span, covered, end, seam, late);
        ReadsStay(h, made, made + more, c.scope.startMs, reached, reached);
        var rate := MaxInt(window.rows, 1) as real / span as real;
        BackOnCovers(h, c, reached, covered - span, rate, made + more, seam, false);
        var u := BackOn(h, c, reached, covered - span, rate, made + more);
        LateOnlyExcuses(h, u.made, u.window, seam, late && u.window.startMs == u.window.endMs);
      } else {
        WindowReadStays(h, made, more, FillWindow(false, covered, end), seam, late);
      }
    }
  }

  lemma LateOnlyExcuses(h: seq<RawFill>, made: seq<Request>, w: FillWindow, seam: int, late: bool)
    requires WindowRead(h, made, w, seam, false)
    ensures WindowRead(h, made, w, seam, late)
  {
    hide Seen, CutBy, Overfull;
  }

  lemma CompleteReads(h: seq<RawFill>, made: seq<Request>, start: int, end: int, r: ForwardRead)
    requires ForwardCovers(h, made, start, end, r) && r.complete
    ensures Reads(h, made, start, end, end)
  {
  }

  /** A newest page that is not full is the whole history. */
  lemma ShortNewestIsAll(h: seq<RawFill>, made: seq<Request>, w: FillWindow, seam: int, late: bool)
    requires |NewestPage(h)| < PageSize
    ensures WindowRead(h, made + [Newest], w, seam, late)
  {
    assert Newest in made + [Newest];
    forall i | 0 <= i < |h|
      ensures Seen(h, made + [Newest], i)
    {
      assert Returns(h, Newest, i);
    }
    hide Seen, CutBy, Overfull;
  }

  lemma FromNewestCovers(h: seq<RawFill>, c: Call, made: seq<Request>, reached: int)
    requires Sorted(h) && c.newestPageAvailable && c.scope.startMs <= reached < c.scope.endMs
    requires Reads(h, made, c.scope.startMs, reached, reached) && NewestPage(h) != []
    ensures var u := FromNewest(h, c, made, reached);
            && WindowRead(h, u.made, u.window, CoveredFrom(h, c.scope), Late(h, c, u.window))
            && Fits(c.scope, u.window) && u.window.endMs == c.scope.endMs
  {
    hide Reads, WindowRead, BackOn, NewestPage, MinTime, MaxTime;
    var newest, from := NewestPage(h), CoveredFrom(h, c.scope);
    var late := MinTime(newest) > c.scope.endMs;
    if |newest| < PageSize {
      ShortNewestIsAll(h, made, WholeScope(c.scope), from, Late(h, c, WholeScope(c.scope)));
    } else {
      NewestCovers(h, made, c);
      ReadsStay(h, made, made + [Newest], c.scope.startMs, reached, reached);
      BackOnCovers(h, c, reached, from, RowsPerMs(newest), made + [Newest], from, late);
    }
  }

  /** Every branch of a window read covers the window it reports, except at its one seam,
      in overfull milliseconds, and at the end of the asked time where no request looked. */
  lemma UntrimmedCovers(h: seq<RawFill>, c: Call)
    requires Sorted(h) && c.maxPages > 0
    ensures var u := Untrimmed(h, c);
            && WindowRead(h, u.made, u.window, Seam(h, c), Late(h, c, u.window))
            && Fits(c.scope, u.window)
  {
    hide WindowRead, Reads, ForwardOn, ForwardCovers, OldestFirst, FromNewest, Late, CoveredFrom;
    hide NewestPage, OldestPage;
    var (made, first) := FirstPage(h, c);
    var start, end := c.scope.startMs, c.scope.endMs;
    ForwardReads(h, start, end, 1);
    if first.complete {
      CompleteReads(h, made, start, end, first);
      PlainWindow(h, made, WholeScope(c.scope), end, end, Late(h, c, WholeScope(c.scope)));
    } else if !c.newestPageAvailable || |made| >= c.maxPages {
      OldestFirstCovers(h, c, made, first);
    } else {
      FirstReads(h, made, start, end, first);
      FullFirstPage(h, c);
      FromNewestCovers(h, c, made, first.lastMs.value);
    }
  }

  /** An incomplete first page is full, so the history holds at least a page. */
  lemma FullFirstPage(h: seq<RawFill>, c: Call)
    requires Sorted(h) && c.maxPages > 0
    ensures var (made, first) := FirstPage(h, c);
            && made == [ByTime(c.scope.startMs, c.scope.endMs)]
            && EndsWith(h, made[0], first, c.scope.endMs)
            && (!first.complete ==> |OldestPage(h, c.scope.startMs, c.scope.endMs)| == PageSize == |NewestPage(h)|)
  {
    ForwardAdvances(h, c.scope.startMs, c.scope.endMs, 1, NothingRead);
  }

  lemma {:induction false} BackOnBudget(
    h: seq<RawFill>, c: Call, reached: int, covered: int, rowsPerMs: real, made: seq<Request>)
    requires Sorted(h) && |made| <= c.maxPages
    ensures |BackOn(h, c, reached, covered, rowsPerMs, made).made| <= c.maxPages
    decreases covered - reached
  {
    hide Sorted, ForwardOn, Advances, RecordsBy, CountBetween;
    var end := c.scope.endMs;
    if covered > reached && |made| < c.maxPages && CountBetween(RecordsBy(h, c.scope, made), covered, end) < c.target {
      var span, limit := SpanMs(rowsPerMs, covered - reached), c.maxPages - |made|;
      var (more, window) := Forward(h, covered - span, covered, limit);
      ForwardAdvances(h, covered - span, covered, limit, NothingRead);
      if window.complete {
        BackOnBudget(h, c, reached, covered - span, MaxInt(window.rows, 1) as real / span as real, made + more);
      }
    }
  }

  /** The requests of a reading stay within the page budget. */
  lemma UntrimmedBudget(h: seq<RawFill>, c: Call)
    requires Sorted(h)
    ensures |Untrimmed(h, c).made| <= c.maxPages
  {
    hide Sorted, ForwardOn, Advances, BackOn, NewestPage;
    ForwardAdvances(h, c.scope.startMs, c.scope.endMs, if c.maxPages == 0 then 0 else 1, NothingRead);
    var (made, first) := FirstPage(h, c);
    if !first.complete && first.lastMs.Some? {
      var reached := first.lastMs.value;
      if !c.newestPageAvailable || |made| >= c.maxPages {
        if |made| < c.maxPages { ForwardAdvances(h, reached, c.scope.endMs, c.maxPages - |made|, NothingRead); }
      } else if |NewestPage(h)| >= PageSize {
        BackOnBudget(h, c, reached, CoveredFrom(h, c.scope), RowsPerMs(NewestPage(h)), made + [Newest]);
      }
    }
  }

  /** The time of the oldest fill of [s, e], if there is one. */
  function OldestTime(h: seq<RawFill>, s: int, e: int): Option<int> {
    if Before(h, s) < Before(h, e + 1) then Some(h[Before(h, s)].timeMs) else None
  }

  /** A forward read reports the first fill of its range, and counts the rows of its pages. */
  lemma {:induction false} ForwardReports(h: seq<RawFill>, cursor: int, end: int, limit: nat, r: ForwardRead)
    requires Sorted(h) && limit > 0
    ensures var (made, out) := ForwardOn(h, cursor, end, limit, r);
            && out.firstMs == (if r.firstMs.Some? then r.firstMs else OldestTime(h, cursor, end))
            && out.rows == r.rows + RowsOf(h, made)
    decreases limit
  {
    hide MaxTime, MinTime, Before, Sorted;
    var page := OldestPage(h, cursor, end);
    var now := WithPage(r, page);
    if page != [] { PageExtremes(h, cursor, end); }
    if !EndsRead(now, page, end) {
      var next := NextCursor(cursor, now.lastMs.value);
      if limit > 1 {
        ForwardReports(h, next, end, limit - 1, now);
      }
      var (more, out) := ForwardOn(h, next, end, limit - 1, now);
      assert ([ByTime(cursor, end)] + more)[1..] == more;
    }
  }

  /** The rows of the pages that requests return. */
  function RowsOf(h: seq<RawFill>, made: seq<Request>): nat {
    if made == [] then 0 else |PageOf(h, made[0])| + RowsOf(h, made[1..])
  }
}
