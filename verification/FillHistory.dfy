/** A wallet's fill history as the exchange serves it: the oldest page of a time range, or the newest page. */
module FillHistory {

  const PageSize: nat := 2000

  datatype RawFill = RawFill(id: string, timeMs: int, coin: string, sideKnown: bool, perp: bool)

  datatype Record = Record(id: string, timeMs: int)

  /** What `build_fill_record` keeps of a raw fill. */
  predicate Recordable(f: RawFill, perpOnly: bool) {
    (perpOnly ==> f.perp) && f.coin != "" && f.sideKnown && f.timeMs > 0
  }

  predicate Sorted(h: seq<RawFill>) { forall i, j :: 0 <= i < j < |h| ==> h[i].timeMs <= h[j].timeMs }

  /** How many fills are older than a time. */
  function Before(h: seq<RawFill>, t: int): (n: nat)
    ensures n <= |h|
  {
    if h == [] then 0 else Before(h[..|h| - 1], t) + (if h[|h| - 1].timeMs < t then 1 else 0)
  }

  /** In a sorted history the fills older than a time come first. */
  lemma {:induction false} BeforeSplits(h: seq<RawFill>, t: int)
    requires Sorted(h)
    ensures forall i :: 0 <= i < |h| ==> (h[i].timeMs < t <==> i < Before(h, t))
  {
    if h != [] {
      var front := h[..|h| - 1];
      BeforeSplits(front, t);
      assert forall i :: 0 <= i < |front| ==> front[i] == h[i];
      if Before(front, t) < |front| {
        assert h[Before(front, t)].timeMs <= h[|h| - 1].timeMs;
      }
    }
  }

  lemma BeforeIsMonotone(h: seq<RawFill>, t: int, u: int)
    requires Sorted(h) && t <= u
    ensures Before(h, t) <= Before(h, u)
  {
    BeforeSplits(h, t);
    BeforeSplits(h, u);
    if Before(h, t) > 0 { assert h[Before(h, t) - 1].timeMs < t; }
  }

  /** The range of the oldest page of [s, e]. */
  function PageStart(h: seq<RawFill>, s: int): nat { Before(h, s) }

  function PageEnd(h: seq<RawFill>, s: int, e: int): (n: nat)
    ensures PageStart(h, s) <= n <= |h| && n <= PageStart(h, s) + PageSize
  {
    if Before(h, e + 1) <= PageStart(h, s) then PageStart(h, s)
    else if Before(h, e + 1) - PageStart(h, s) <= PageSize then Before(h, e + 1)
    else PageStart(h, s) + PageSize
  }

  function OldestPage(h: seq<RawFill>, s: int, e: int): (page: seq<RawFill>)
    ensures |page| <= PageSize
  {
    h[PageStart(h, s)..PageEnd(h, s, e)]
  }

  function NewestStart(h: seq<RawFill>): (n: nat)
    ensures n <= |h|
  {
    if |h| <= PageSize then 0 else |h| - PageSize
  }

  /** Newest first. */
  function NewestPage(h: seq<RawFill>): (page: seq<RawFill>)
    ensures |page| == |h| - NewestStart(h) <= PageSize
  {
    seq(|h| - NewestStart(h), k requires 0 <= k < |h| - NewestStart(h) => h[|h| - 1 - k])
  }

  /** More fills share a millisecond than a page can hold. */
  predicate Overfull(h: seq<RawFill>, t: int) { Before(h, t + 1) - Before(h, t) > PageSize }

  /** The times at which the oldest page of [s, e] ends inside a burst of fills sharing that time. */
  function OldestCut(h: seq<RawFill>, s: int, e: int): set<int> {
    var n := PageEnd(h, s, e);
    if PageStart(h, s) < n < Before(h, e + 1) && h[n].timeMs == h[n - 1].timeMs then {h[n].timeMs} else {}
  }

  function NewestCut(h: seq<RawFill>): set<int> {
    var n := NewestStart(h);
    if 0 < n < |h| && h[n - 1].timeMs == h[n].timeMs then {h[n].timeMs} else {}
  }

  // ------------------------------------------------------------------- pages

  /** A short page holds its whole range. */
  lemma ShortPageHoldsRange(h: seq<RawFill>, s: int, e: int, i: nat)
    requires Sorted(h) && |OldestPage(h, s, e)| < PageSize && i < |h| && s <= h[i].timeMs <= e
    ensures PageStart(h, s) <= i < PageEnd(h, s, e)
  {
    BeforeSplits(h, s);
    BeforeSplits(h, e + 1);
  }

  /** A full page holds everything of its range before its last time, and at that time
      everything unless it cuts the burst there. */
  lemma FullPageHoldsBelowLast(h: seq<RawFill>, s: int, e: int, i: nat)
    requires Sorted(h) && |OldestPage(h, s, e)| == PageSize && i < |h|
    requires s <= h[i].timeMs <= h[PageEnd(h, s, e) - 1].timeMs
    ensures PageStart(h, s) <= i
    ensures i < PageEnd(h, s, e)
            || (h[i].timeMs == h[PageEnd(h, s, e) - 1].timeMs && h[i].timeMs in OldestCut(h, s, e))
  {
    BeforeSplits(h, s);
    BeforeSplits(h, e + 1);
    var n := PageEnd(h, s, e);
    if i >= n {
      assert h[n - 1].timeMs <= h[n].timeMs <= h[i].timeMs;
      assert i < Before(h, e + 1);
    }
  }

  /** The times of a page lie in its range. */
  lemma PageTimesInRange(h: seq<RawFill>, s: int, e: int)
    requires Sorted(h)
    ensures forall k :: PageStart(h, s) <= k < PageEnd(h, s, e) ==> s <= h[k].timeMs <= e
  {
    BeforeSplits(h, s);
    BeforeSplits(h, e + 1);
  }

  /** A full page within one millisecond leaves part of it only if that millisecond is overfull. */
  lemma FullPageOfOneTime(h: seq<RawFill>, s: int, e: int, i: nat)
    requires Sorted(h) && |OldestPage(h, s, e)| == PageSize && h[PageEnd(h, s, e) - 1].timeMs == s
    requires PageEnd(h, s, e) <= i < |h| && h[i].timeMs == s
    ensures Overfull(h, s)
  {
    BeforeSplits(h, s);
    BeforeSplits(h, s + 1);
  }

  /** Whatever range is asked for, its page ends within a page of the start of a fill's own millisecond. */
  lemma PageEndsWithinReach(h: seq<RawFill>, s: int, e: int, i: nat)
    requires Sorted(h) && PageStart(h, s) <= i < PageEnd(h, s, e) && i < |h|
    ensures i < Before(h, h[i].timeMs) + PageSize
  {
    hide Sorted;
    BeforeSplits(h, s);
    BeforeIsMonotone(h, s, h[i].timeMs);
  }

  /** No request by time can return a fill that has a whole page before it in its own
      millisecond; every other fill is returned by some request. */
  lemma ReachableExactly(h: seq<RawFill>, i: nat)
    requires Sorted(h) && i < |h|
    ensures (exists s, e :: PageStart(h, s) <= i < PageEnd(h, s, e)) <==> i < Before(h, h[i].timeMs) + PageSize
  {
    hide Sorted;
    var t := h[i].timeMs;
    if i < Before(h, t) + PageSize {
      BeforeSplits(h, t);
      BeforeSplits(h, t + 1);
      assert PageStart(h, t) <= i < PageEnd(h, t, t);
    }
    hide PageStart, PageEnd;
    forall s, e | PageStart(h, s) <= i < PageEnd(h, s, e)
      ensures i < Before(h, t) + PageSize
    {
      PageEndsWithinReach(h, s, e, i);
    }
  }

  /** When the newest page reaches back to the time where the first page stopped, nothing
      was read between the two. They cover the range together exactly when it has at most
      two pages of fills from its start on; beyond that, fills at the meeting time are missed. */
  lemma FirstAndNewestMeetExactly(h: seq<RawFill>, s: int, e: int)
    requires Sorted(h) && |OldestPage(h, s, e)| == PageSize && |NewestPage(h)| == PageSize
    requires h[NewestStart(h)].timeMs <= h[PageEnd(h, s, e) - 1].timeMs
    ensures (forall i :: 0 <= i < |h| && s <= h[i].timeMs <= e ==>
               (PageStart(h, s) <= i < PageEnd(h, s, e)) || NewestStart(h) <= i)
            <==> |h| - Before(h, s) <= 2 * PageSize
  {
    BeforeSplits(h, s);
    PageTimesInRange(h, s, e);
    var n := PageEnd(h, s, e);
    if |h| - Before(h, s) > 2 * PageSize {
      assert h[n - 1].timeMs <= h[n].timeMs <= h[NewestStart(h)].timeMs;
      assert s <= h[n].timeMs <= e && n < NewestStart(h);
    }
  }

  // ------------------------------------------------------------- page extremes

  function MinTime(page: seq<RawFill>): (t: int)
    requires page != []
    ensures exists k :: 0 <= k < |page| && page[k].timeMs == t
    ensures forall k :: 0 <= k < |page| ==> t <= page[k].timeMs
  {
    var n := |page| - 1;
    if n == 0 then page[0].timeMs
    else
      var rest := MinTime(page[..n]);
      if page[n].timeMs < rest then page[n].timeMs else rest
  }

  function MaxTime(page: seq<RawFill>): (t: int)
    requires page != []
    ensures exists k :: 0 <= k < |page| && page[k].timeMs == t
    ensures forall k :: 0 <= k < |page| ==> page[k].timeMs <= t
  {
    var n := |page| - 1;
    if n == 0 then page[0].timeMs
    else
      var rest := MaxTime(page[..n]);
      if page[n].timeMs > rest then page[n].timeMs else rest
  }

  lemma PageExtremes(h: seq<RawFill>, s: int, e: int)
    requires Sorted(h) && OldestPage(h, s, e) != []
    ensures MaxTime(OldestPage(h, s, e)) == h[PageEnd(h, s, e) - 1].timeMs
    ensures MinTime(OldestPage(h, s, e)) == h[PageStart(h, s)].timeMs
  {
    var page := OldestPage(h, s, e);
    assert page[|page| - 1] == h[PageEnd(h, s, e) - 1];
    assert page[0] == h[PageStart(h, s)];
  }

  lemma NewestExtremes(h: seq<RawFill>)
    requires Sorted(h) && NewestPage(h) != []
    ensures MinTime(NewestPage(h)) == h[NewestStart(h)].timeMs
  {
    var page := NewestPage(h);
    assert page[|page| - 1] == h[NewestStart(h)];
    assert forall k :: 0 <= k < |page| ==> page[k] == h[|h| - 1 - k];
  }

  /** A fill that a full newest page leaves out is older than the page, or the page cuts its burst. */
  lemma NewestLeavesAtMostItsOldest(h: seq<RawFill>, i: nat)
    requires Sorted(h) && NewestPage(h) != [] && i < NewestStart(h) && h[i].timeMs >= h[NewestStart(h)].timeMs
    ensures h[i].timeMs == h[NewestStart(h)].timeMs && h[i].timeMs in NewestCut(h)
  {
    var n := NewestStart(h);
    assert h[i].timeMs <= h[n - 1].timeMs <= h[n].timeMs;
  }
}
