/** The stored fill records of one read, in the order they are handed out. */
module FillRecords {
  import opened FillHistory
  import TextOrder

  /** By time, then by id. */
  predicate RecordLess(a: Record, b: Record) {
    a.timeMs < b.timeMs || (a.timeMs == b.timeMs && TextOrder.Before(a.id, b.id))
  }

  predicate InRecordOrder(rs: seq<Record>) {
    forall i, j :: 0 <= i < j < |rs| ==> RecordLess(rs[i], rs[j])
  }

  predicate AllLess(rs: seq<Record>, r: Record) { forall x :: x in rs ==> RecordLess(x, r) }

  lemma RecordLessIsTransitive(a: Record, b: Record, c: Record)
    requires RecordLess(a, b) && RecordLess(b, c)
    ensures RecordLess(a, c)
  {
    if a.timeMs == b.timeMs == c.timeMs { TextOrder.BeforeIsTransitive(a.id, b.id, c.id); }
  }

  lemma RecordLessIsTotal(a: Record, b: Record)
    requires a.id != b.id
    ensures RecordLess(a, b) || RecordLess(b, a)
  {
    TextOrder.BeforeIsTotal(a.id, b.id);
  }

  lemma AppendKeepsOrder(rs: seq<Record>, r: Record)
    ensures InRecordOrder(rs + [r]) <==> InRecordOrder(rs) && AllLess(rs, r)
  {
    var all := rs + [r];
    if InRecordOrder(all) {
      forall x | x in rs
        ensures RecordLess(x, r)
      {
        var i :| 0 <= i < |rs| && rs[i] == x;
        assert RecordLess(all[i], all[|rs|]);
      }
      forall i, j | 0 <= i < j < |rs|
        ensures RecordLess(rs[i], rs[j])
      {
        assert RecordLess(all[i], all[j]);
      }
    }
  }

  /** Places one more record. */
  function Inserted(rs: seq<Record>, r: Record): seq<Record> {
    if rs == [] || RecordLess(rs[|rs| - 1], r) then rs + [r]
    else Inserted(rs[..|rs| - 1], r) + [rs[|rs| - 1]]
  }

  lemma {:induction false} InsertedKeepsOrder(rs: seq<Record>, r: Record)
    requires InRecordOrder(rs) && forall x :: x in rs ==> x.id != r.id
    ensures InRecordOrder(Inserted(rs, r)) && |Inserted(rs, r)| == |rs| + 1
    ensures forall x :: x in Inserted(rs, r) <==> x in rs || x == r
  {
    if rs == [] {
      AppendKeepsOrder(rs, r);
    } else {
      hide RecordLess, InRecordOrder;
      var front, last := rs[..|rs| - 1], rs[|rs| - 1];
      assert rs == front + [last];
      AppendKeepsOrder(front, last);
      if RecordLess(last, r) {
        forall x | x in rs
          ensures RecordLess(x, r)
        {
          if x != last { RecordLessIsTransitive(x, last, r); }
        }
        AppendKeepsOrder(rs, r);
      } else {
        InsertedKeepsOrder(front, r);
        RecordLessIsTotal(last, r);
        AppendKeepsOrder(Inserted(front, r), last);
      }
    }
  }

  /** Distinct ids of a run of records. */
  function IdsOf(rs: seq<Record>): set<string> { set x | x in rs :: x.id }

  predicate DistinctIds(rs: seq<Record>) { forall i, j :: 0 <= i < j < |rs| ==> rs[i].id != rs[j].id }

  lemma {:induction false} IdsOfCount(rs: seq<Record>)
    requires DistinctIds(rs)
    ensures |IdsOf(rs)| == |rs|
  {
    if rs != [] {
      var n := |rs| - 1;
      IdsOfCount(rs[..n]);
      assert rs == rs[..n] + [rs[n]];
      assert IdsOf(rs) == IdsOf(rs[..n]) + {rs[n].id};
    }
  }

  function IdsBetween(records: map<string, Record>, startMs: int, endMs: int): set<string> {
    set id | id in records && startMs <= records[id].timeMs <= endMs
  }

  lemma SubsetSize<T>(a: set<T>, b: set<T>)
    requires a <= b
    ensures |a| <= |b|
  {
    assert b == a + (b - a);
  }

  predicate KeyedById(records: map<string, Record>) { forall id :: id in records ==> records[id].id == id }

  /** The record list of a window: the same records, once each, in order. */
  predicate ListsWindow(rs: seq<Record>, records: map<string, Record>, startMs: int, endMs: int) {
    && InRecordOrder(rs) && DistinctIds(rs)
    && (forall x :: x in rs ==> x.id in records && records[x.id] == x && startMs <= x.timeMs <= endMs)
    && (forall id :: id in IdsBetween(records, startMs, endMs) ==> records[id] in rs)
  }

  /** Records stored under their own id appear once in an ordered list. */
  lemma OrderedAreDistinct(rs: seq<Record>, records: map<string, Record>)
    requires InRecordOrder(rs) && forall x :: x in rs ==> x.id in records && records[x.id] == x
    ensures DistinctIds(rs)
  {
    forall i, j | 0 <= i < j < |rs|
      ensures rs[i].id != rs[j].id
    {
      assert rs[i] in rs && rs[j] in rs && RecordLess(rs[i], rs[j]);
      TextOrder.BeforeIsIrreflexive(rs[i].id);
    }
  }

  /** The records of a window, sorted. */
  method SortedRecords(records: map<string, Record>, startMs: int, endMs: int) returns (rs: seq<Record>)
    requires KeyedById(records)
    ensures ListsWindow(rs, records, startMs, endMs)
  {
    var ids := IdsBetween(records, startMs, endMs);
    var todo := ids;
    rs := [];
    while todo != {}
      invariant todo <= ids && InRecordOrder(rs)
      invariant forall x :: x in rs ==> x.id in ids - todo && records[x.id] == x
      invariant forall id :: id in ids - todo ==> records[id] in rs
    {
      hide InRecordOrder;
      var id :| id in todo;
      InsertedKeepsOrder(rs, records[id]);
      rs := Inserted(rs, records[id]);
      todo := todo - {id};
    }
    OrderedAreDistinct(rs, records);
  }

  lemma ListedCount(rs: seq<Record>, records: map<string, Record>, startMs: int, endMs: int)
    requires KeyedById(records) && ListsWindow(rs, records, startMs, endMs)
    ensures |rs| == |IdsBetween(records, startMs, endMs)|
  {
    IdsOfCount(rs);
    assert IdsOf(rs) == IdsBetween(records, startMs, endMs);
  }

  lemma TimesInOrder(rs: seq<Record>, i: nat, j: nat)
    requires InRecordOrder(rs) && i <= j < |rs|
    ensures rs[i].timeMs <= rs[j].timeMs
  {
    if i < j { assert RecordLess(rs[i], rs[j]); }
  }

  /** Where everything before place k is older than the cut, at most the rest is kept. */
  lemma AtMostTheTail(rs: seq<Record>, records: map<string, Record>, startMs: int, endMs: int, k: nat, cut: int)
    requires KeyedById(records) && ListsWindow(rs, records, startMs, endMs) && k <= |rs| && startMs <= cut
    requires forall i :: 0 <= i < k ==> rs[i].timeMs < cut
    ensures |IdsBetween(records, cut, endMs)| <= |rs| - k
  {
    var tail := rs[k..];
    IdsOfCount(tail);
    forall id | id in IdsBetween(records, cut, endMs)
      ensures id in IdsOf(tail)
    {
      assert id in IdsBetween(records, startMs, endMs);
      var i :| 0 <= i < |rs| && rs[i] == records[id];
      assert tail[i - k] == rs[i];
    }
    SubsetSize(IdsBetween(records, cut, endMs), IdsOf(tail));
  }

  /** Where nothing from place k on is older than the cut, at least the rest is kept. */
  lemma AtLeastTheTail(rs: seq<Record>, records: map<string, Record>, startMs: int, endMs: int, k: nat, cut: int)
    requires KeyedById(records) && ListsWindow(rs, records, startMs, endMs) && k <= |rs|
    requires forall i :: k <= i < |rs| ==> cut <= rs[i].timeMs
    ensures |IdsBetween(records, cut, endMs)| >= |rs| - k
  {
    var tail := rs[k..];
    IdsOfCount(tail);
    forall id | id in IdsOf(tail)
      ensures id in IdsBetween(records, cut, endMs)
    {
      var i :| k <= i < |rs| && rs[i].id == id;
      assert rs[i] in rs;
    }
    SubsetSize(IdsOf(tail), IdsBetween(records, cut, endMs));
  }

  /** Cutting at the target-th newest record's time leaves at least the target in the
      window, and fewer than the target after that time. */
  lemma CutKeepsTarget(rs: seq<Record>, records: map<string, Record>, startMs: int, endMs: int, target: nat)
    requires KeyedById(records) && ListsWindow(rs, records, startMs, endMs) && 0 < target <= |rs|
    ensures var cut := rs[|rs| - target].timeMs;
            && startMs <= cut <= endMs
            && |IdsBetween(records, cut, endMs)| >= target
            && |IdsBetween(records, cut + 1, endMs)| < target
  {
    var k := |rs| - target;
    var cut := rs[k].timeMs;
    assert rs[k] in rs;
    forall i | 0 <= i < |rs|
      ensures if i <= k then rs[i].timeMs <= cut else cut <= rs[i].timeMs
    {
      if i <= k { TimesInOrder(rs, i, k); } else { TimesInOrder(rs, k, i); }
    }
    AtLeastTheTail(rs, records, startMs, endMs, k, cut);
    AtMostTheTail(rs, records, startMs, endMs, k + 1, cut + 1);
  }

  /** The cut keeps at most the target exactly when it does not fall between records of one time. */
  lemma CutIsTightExactly(rs: seq<Record>, records: map<string, Record>, startMs: int, endMs: int, target: nat)
    requires KeyedById(records) && ListsWindow(rs, records, startMs, endMs) && 0 < target < |rs|
    ensures |IdsBetween(records, rs[|rs| - target].timeMs, endMs)| <= target
            <==> rs[|rs| - target - 1].timeMs < rs[|rs| - target].timeMs
  {
    var k := |rs| - target;
    var cut := rs[k].timeMs;
    assert rs[k] in rs;
    TimesInOrder(rs, k - 1, k);
    forall i | 0 <= i < |rs|
      ensures if i < k then rs[i].timeMs <= rs[k - 1].timeMs else cut <= rs[i].timeMs
    {
      if i < k { TimesInOrder(rs, i, k - 1); } else { TimesInOrder(rs, k, i); }
    }
    if rs[k - 1].timeMs < cut {
      AtMostTheTail(rs, records, startMs, endMs, k, cut);
    } else {
      AtLeastTheTail(rs, records, startMs, endMs, k - 1, cut);
    }
  }
}
