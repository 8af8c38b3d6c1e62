/** Reads one wallet's fill pages within a page budget and reports a contiguous window. */
module FillImport {
  import opened Numbers
  import opened Options
  import opened FillHistory
  import opened FillRecords
  import opened FillReading
  import opened FillCoverage
  import opened FillGaps

  class FillPageReader {
    /** The wallet's whole history on the exchange, oldest first; it does not change during a read. */
    const history: seq<RawFill>
    const startMs: int
    const endMs: int
    const maxPages: nat
    const perpOnly: bool
    var pages: nat
    var rawRows: nat
    var records: map<string, Record>
    /** The requests made so far. */
    ghost var made: seq<Request>

    constructor (history: seq<RawFill>, startMs: int, endMs: int, maxPages: nat, perpOnly: bool)
      requires Sorted(history)
      ensures Valid() && made == [] && rawRows == 0
      ensures this.history == history && this.startMs == startMs && this.endMs == endMs
      ensures this.maxPages == maxPages && this.perpOnly == perpOnly
    {
      this.history, this.startMs, this.endMs := history, startMs, endMs;
      this.maxPages, this.perpOnly := maxPages, perpOnly;
      pages, rawRows, records, made := 0, 0, map[], [];
    }

    function Wanted(): Scope { Scope(startMs, endMs, perpOnly) }

    /** Pages and records are those of the requests made. */
    ghost predicate Valid()
      reads this
    {
      Sorted(history) && pages == |made| && records == RecordsBy(history, Wanted(), made)
    }

    function Budget(): nat
      reads this
    {
      if pages < maxPages then maxPages - pages else 0
    }

    /** Takes in the answer to a request: keeps each fill of the asked time once. */
    method Fetch(page: seq<RawFill>, ghost r: Request)
      requires Valid() && page == PageOf(history, r)
      modifies this
      ensures Valid() && made == old(made) + [r] && rawRows == old(rawRows) + |page|
    {
      hide Sorted, PageOf, Recordable;
      pages := pages + 1;
      rawRows := rawRows + |page|;
      for k := 0 to |page|
        invariant pages == old(pages) + 1 && rawRows == old(rawRows) + |page| && made == old(made)
        invariant records == StoredPage(old(records), page[..k], Wanted())
      {
        var fill := page[k];
        assert page[..k + 1][..k] == page[..k];
        if startMs <= fill.timeMs <= endMs && Recordable(fill, perpOnly) && fill.id !in records {
          records := records[fill.id := Record(fill.id, fill.timeMs)];
        }
      }
      assert page[..|page|] == page;
      made := made + [r];
      assert made[..|made| - 1] == old(made);
    }

    /** Reads [start, end] oldest first: it makes the requests of a forward read and gives its result. */
    method ReadForward(start: int, end: int, pageLimit: Option<nat>) returns (r: ForwardRead)
      requires Valid()
      modifies this
      ensures Valid()
      ensures var (more, result) := Forward(history, start, end, MinInt(old(Budget()), pageLimit.GetOr(maxPages)));
              made == old(made) + more && r == result
      ensures rawRows == old(rawRows) + r.rows
      ensures made != old(made) ==> r.firstMs == OldestTime(history, start, end)
      ensures ForwardCovers(history, made[|old(made)|..], start, end, r)
      ensures Advances(history, made[|old(made)|..], start, end, r)
    {
      hide Sorted, RecordsBy, MaxTime, MinTime, ForwardCovers, Advances, ForwardOn, OldestPage;
      var cursor := start;
      r := NothingRead;
      var pagesLeft := pageLimit.GetOr(maxPages);
      ghost var limit := MinInt(Budget(), pagesLeft);
      ForwardReads(history, start, end, limit);
      ForwardAdvances(history, start, end, limit, NothingRead);
      if limit > 0 { ForwardReports(history, start, end, limit, NothingRead); }
      ghost var whole := ForwardOn(history, start, end, limit, NothingRead);
      ghost var before := made;
      while pages < maxPages && pagesLeft > 0
        invariant Valid() && |made| >= |before| && rawRows == old(rawRows) + r.rows && !r.complete
        invariant Continues(before, whole, made, ForwardOn(history, cursor, end, MinInt(Budget(), pagesLeft), r))
        decreases pagesLeft
      {
        ForwardStep(history, cursor, end, MinInt(Budget(), pagesLeft), r, before, whole, made);
        pagesLeft := pagesLeft - 1;
        var page := OldestPage(history, cursor, end);
        Fetch(page, ByTime(cursor, end));
        var firstMs, lastMs := r.firstMs, r.lastMs;
        if page != [] {
          if firstMs.None? { firstMs := Some(MinTime(page)); }
          lastMs := Some(MaxTime(page));
        }
        r := ForwardRead(false, r.rows + |page|, firstMs, lastMs);
        if |page| < PageSize || lastMs.None? || lastMs.value >= end {
          r := r.(complete := true);
          assert made[|before|..] == whole.0;
          return;
        }
        cursor := if lastMs.value > cursor then lastMs.value else lastMs.value + 1;
      }
      ForwardStops(history, cursor, end, r);
      assert made == made + [] == before + whole.0;
      assert made[|before|..] == whole.0;
    }

    /** The wallet's newest page, newest first. */
    method ReadNewest() returns (page: seq<RawFill>)
      requires Valid()
      modifies this
      ensures Valid() && made == old(made) + [Newest] && rawRows == old(rawRows) + |page|
      ensures page == NewestPage(history)
    {
      page := NewestPage(history);
      Fetch(page, Newest);
    }

    method RecordsBetween(start: int, end: int) returns (rs: seq<Record>)
      requires Valid()
      ensures ListsWindow(rs, records, start, end)
    {
      RecordsByMatch(history, Wanted(), made);
      rs := SortedRecords(records, start, end);
    }

    /** Keeps the newest fills, cutting the oldest history. */
    method TrimToTarget(window: FillWindow, target: nat) returns (w: FillWindow)
      requires Valid() && target > 0
      ensures IsTrimmed(window, records, target, w)
      ensures |IdsBetween(records, window.startMs, window.endMs)| <= target ==> w == window
      ensures |IdsBetween(records, window.startMs, window.endMs)| > target ==>
                && w == FillWindow(false, w.startMs, window.endMs) && window.startMs <= w.startMs <= w.endMs
                && |IdsBetween(records, w.startMs, w.endMs)| >= target
                && |IdsBetween(records, w.startMs + 1, w.endMs)| < target
    {
      RecordsByMatch(history, Wanted(), made);
      assert KeyedById(records);
      hide RecordsBy, RecordsMatch, ListsWindow, Sorted;
      var rs := RecordsBetween(window.startMs, window.endMs);
      ListedCount(rs, records, window.startMs, window.endMs);
      if |rs| <= target { return window; }
      CutKeepsTarget(rs, records, window.startMs, window.endMs, target);
      w := FillWindow(false, rs[|rs| - target].timeMs, window.endMs);
    }

    function CallFor(target: nat, newestPageAvailable: bool): Call {
      Call(Wanted(), maxPages, target, newestPageAvailable)
    }

    /** The whole read: a page or fill limit cuts the oldest history, never the newest. Every
        fill of the reported window is read but at its seam, if a request made cut a burst
        there, in a millisecond that holds more than a page, and where no request looked. */
    method ReadFillWindow(target: nat, newestPageAvailable: bool) returns (w: FillWindow)
      requires Valid() && made == [] && maxPages > 0 && target > 0
      modifies this
      ensures Valid() && pages <= maxPages && RecordsMatch(history, Wanted(), made, records)
      ensures var c := CallFor(target, newestPageAvailable);
              && made == Untrimmed(history, c).made
              && IsTrimmed(Untrimmed(history, c).window, records, target, w)
              && Fits(Wanted(), w)
              && WindowRead(history, made, w, Seam(history, c), Late(history, c, w))
      // It holds at most the target, but for the fills of its first millisecond.
      ensures |IdsBetween(records, w.startMs, w.endMs)| <= target
              || |IdsBetween(records, w.startMs + 1, w.endMs)| < target
      // It stops short of the start only with its pages used up or its target met.
      ensures !w.complete ==> pages == maxPages || CountBetween(records, w.startMs, w.endMs) >= target
      // Without bursts, or where pages fit them, there is no gap at all.
      ensures var c := CallFor(target, newestPageAvailable);
              || ((forall t :: !Burst(history, t)) && !Late(history, c, Untrimmed(history, c).window))
              || (Fitting(history) && Proper(history, c))
              ==> Whole(history, made, w.startMs, w.endMs)
    {
      hide Untrimmed, WindowRead, RecordsMatch, Late, Burst, Fitting, Proper;
      ghost var c := CallFor(target, newestPageAvailable);
      var full := ReadUntrimmed(target, newestPageAvailable);
      w := TrimToTarget(full, target);
      RecordsByMatch(history, Wanted(), made);
      UntrimmedCovers(history, c);
      UntrimmedBudget(history, c);
      UntrimmedGoesFar(history, c);
      TrimmedIsRead(history, c, w);
      if (forall t :: !Burst(history, t)) && !Late(history, c, full) { NoCutNoGap(history, c); }
      if Fitting(history) && Proper(history, c) { FittingHasNoGap(history, c); }
      TrimmedIsWhole(history, c);
    }

    method ReadUntrimmed(target: nat, newestPageAvailable: bool) returns (w: FillWindow)
      requires Valid() && made == []
      modifies this
      ensures Valid() && Untrimmed(history, CallFor(target, newestPageAvailable)) == Reading(made, w)
    {
      hide Sorted, RecordsBy, ForwardOn, ForwardCovers, Advances, BackOn, NewestPage;
      ghost var c := CallFor(target, newestPageAvailable);
      w := FillWindow(true, startMs, endMs);
      var first := ReadForward(startMs, endMs, Some(1));
      assert FirstPage(history, c) == (made, first);
      if first.complete || first.lastMs.None? { return; }
      var reached := first.lastMs.value;
      ghost var one := made;
      if !newestPageAvailable || pages >= maxPages {
        var rest := first;
        if pages < maxPages { rest := ReadForward(reached, endMs, None); }
        if !rest.complete {
          var last := if rest.lastMs.Some? && rest.lastMs.value != 0 then rest.lastMs.value else reached;
          w := FillWindow(false, startMs, last);
        }
        return;
      }
      var newest := ReadNewest();
      if |newest| < PageSize { return; }
      w := ReadBackwards(newest, reached, target, newestPageAvailable);
    }

    /** Goes back from the newest page in windows sized by the fill rate. */
    method ReadBackwards(newest: seq<RawFill>, reached: int, target: nat, newestPageAvailable: bool)
      returns (w: FillWindow)
      requires Valid() && newest == NewestPage(history) && newest != []
      modifies this
      ensures Valid()
      ensures var c := CallFor(target, newestPageAvailable);
              Reading(made, w)
              == BackOn(history, c, reached, CoveredFrom(history, c.scope), RowsPerMs(newest), old(made))
    {
      hide Sorted, RecordsBy, ForwardOn, ForwardCovers, Advances, MinTime, MaxTime;
      ghost var c := CallFor(target, newestPageAvailable);
      var coveredFrom := MinInt(MaxInt(MinTime(newest), startMs), endMs);
      var rowsPerMs := |newest| as real / MaxInt(MaxTime(newest) - MinTime(newest), 1) as real;
      ghost var reading := BackOn(history, c, reached, coveredFrom, rowsPerMs, made);
      while coveredFrom > reached && pages < maxPages && CountBetween(records, coveredFrom, endMs) < target
        invariant Valid() && BackOn(history, c, reached, coveredFrom, rowsPerMs, made) == reading
        decreases coveredFrom - reached
      {
        var span := SpanMs(rowsPerMs, coveredFrom - reached);
        var window := ReadForward(coveredFrom - span, coveredFrom, None);
        if !window.complete { return FillWindow(false, coveredFrom, endMs); }
        rowsPerMs := MaxInt(window.rows, 1) as real / span as real;
        coveredFrom := coveredFrom - span;
      }
      w := if coveredFrom <= reached then FillWindow(true, startMs, endMs) else FillWindow(false, coveredFrom, endMs);
    }
  }

  /** Trimming keeps what is known of the window. */
  lemma TrimmedIsRead(h: seq<RawFill>, c: Call, w: FillWindow)
    requires var u := Untrimmed(h, c);
             && WindowRead(h, u.made, u.window, Seam(h, c), Late(h, c, u.window)) && Fits(c.scope, u.window)
             && IsTrimmed(u.window, RecordsBy(h, c.scope, u.made), c.target, w)
    ensures WindowRead(h, Untrimmed(h, c).made, w, Seam(h, c), Late(h, c, w)) && Fits(c.scope, w)
  {
    hide Untrimmed, RecordsBy, Seen, CutAway, Seam, MinTime, NewestPage;
  }

  /** The requests made so far and those to come are those of the whole read. */
  ghost predicate Continues(
    before: seq<Request>, whole: (seq<Request>, ForwardRead), made: seq<Request>, rest: (seq<Request>, ForwardRead))
  {
    made + rest.0 == before + whole.0 && rest.1 == whole.1
  }

  lemma ForwardStep(
    h: seq<RawFill>, cursor: int, end: int, limit: nat, r: ForwardRead,
    before: seq<Request>, whole: (seq<Request>, ForwardRead), made: seq<Request>)
    requires limit > 0 && Continues(before, whole, made, ForwardOn(h, cursor, end, limit, r))
    ensures var page := OldestPage(h, cursor, end);
            var now, next := WithPage(r, page), made + [ByTime(cursor, end)];
            if EndsRead(now, page, end) then next == before + whole.0 && now.(complete := true) == whole.1
            else Continues(before, whole, next, ForwardOn(h, NextCursor(cursor, now.lastMs.value), end, limit - 1, now))
  {
    hide OldestPage, MaxTime, MinTime;
    var page, request := OldestPage(h, cursor, end), ByTime(cursor, end);
    var now := WithPage(r, page);
    if !EndsRead(now, page, end) {
      var more := ForwardOn(h, NextCursor(cursor, now.lastMs.value), end, limit - 1, now).0;
      assert made + ([request] + more) == made + [request] + more;
    }
  }

  lemma ForwardStops(h: seq<RawFill>, cursor: int, end: int, r: ForwardRead)
    ensures ForwardOn(h, cursor, end, 0, r) == ([], r)
  {
  }
}
