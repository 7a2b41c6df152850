/** The expiring in-memory store: a key/value map kept beside a multimap ordered by expiry time.

    The multimap is a sequence sorted by time; clock readings are parameters. Expiry times are
    unsigned 64-bit and wrap, and the sweep compares them after a cast to a signed time. */
module Dbms {
  import opened Words

  type TimeT = Int64

  datatype MemData = MemData(value: string, time: UInt64)

  datatype TimeEntry = TimeEntry(time: UInt64, key: string)

  /** The one map that stands for the whole store. */
  type Table = map<string, MemData>

  function Expiry(now: TimeT, ttl: UInt64): UInt64 {
    (now + ttl) % TWO_64
  }

  function AsTimeT(time: UInt64): TimeT {
    if time < TWO_63 then time else time - TWO_64
  }

  predicate Dead(time: UInt64, now: TimeT) {
    now > AsTimeT(time)
  }

  // ----- The library's multimap, on a sorted sequence -----

  ghost predicate Sorted(index: seq<TimeEntry>) {
    forall i, j :: 0 <= i < j < |index| ==> index[i].time <= index[j].time
  }

  /** First position whose time is not less than `time`; what `find` returns when it finds. */
  function LowerBound(index: seq<TimeEntry>, time: UInt64): (p: nat)
    ensures p <= |index|
    ensures forall i :: 0 <= i < p ==> index[i].time < time
    ensures p < |index| ==> time <= index[p].time
  {
    if index == [] || time <= index[0].time then 0 else 1 + LowerBound(index[1..], time)
  }

  /** First position whose time is greater than `time`; where `insert` puts an equal time. */
  function UpperBound(index: seq<TimeEntry>, time: UInt64): (p: nat)
    ensures p <= |index|
    ensures forall i :: 0 <= i < p ==> index[i].time <= time
    ensures p < |index| ==> time < index[p].time
  {
    if index == [] || time < index[0].time then 0 else 1 + UpperBound(index[1..], time)
  }

  function Count(index: seq<TimeEntry>, time: UInt64): (n: nat)
    ensures n <= |index|
  {
    if index == [] then 0 else (if index[0].time == time then 1 else 0) + Count(index[1..], time)
  }

  function InsertAt(index: seq<TimeEntry>, e: TimeEntry): seq<TimeEntry> {
    var p := UpperBound(index, e.time);
    index[..p] + [e] + index[p..]
  }

  function Erased(index: seq<TimeEntry>, p: nat): (r: seq<TimeEntry>)
    requires p < |index|
    ensures |r| == |index| - 1
    ensures forall i :: 0 <= i < |r| ==> r[i] == index[if i < p then i else i + 1]
  {
    index[..p] + index[p + 1..]
  }

  lemma {:induction false} CountSpansEqualRange(index: seq<TimeEntry>, time: UInt64)
    requires Sorted(index)
    ensures LowerBound(index, time) + Count(index, time) == UpperBound(index, time)
  {
    if index == [] {
    } else {
      CountSpansEqualRange(index[1..], time);
      if time < index[0].time {
        assert forall e :: e in index[1..] ==> time < e.time;
        NoneCounted(index[1..], time);
      }
    }
  }

  lemma {:induction false} NoneCounted(index: seq<TimeEntry>, time: UInt64)
    requires forall e :: e in index ==> time < e.time
    ensures Count(index, time) == 0
  {
    if index != [] {
      NoneCounted(index[1..], time);
    }
  }

  // ----- The two containers agree -----

  /** The index is sorted and holds exactly one entry per stored key, with that key's expiry. */
  ghost predicate Consistent(data: Table, index: seq<TimeEntry>) {
    Sorted(index) && DistinctKeys(index) && Backed(data, index) && Covered(data, index)
  }

  ghost predicate DistinctKeys(index: seq<TimeEntry>) {
    forall i, j :: 0 <= i < j < |index| ==> index[i].key != index[j].key
  }

  ghost predicate Backed(data: Table, index: seq<TimeEntry>) {
    forall i :: 0 <= i < |index| ==> index[i].key in data && data[index[i].key].time == index[i].time
  }

  ghost predicate Covered(data: Table, index: seq<TimeEntry>) {
    forall k {:trigger Indexed(data, index, k)} :: k in data ==> Indexed(data, index, k)
  }

  ghost predicate Indexed(data: Table, index: seq<TimeEntry>, k: string)
    requires k in data
  {
    exists i :: 0 <= i < |index| && index[i] == TimeEntry(data[k].time, k)
  }

  lemma {:induction false} ContainersHaveEqualSize(data: Table, index: seq<TimeEntry>)
    requires Consistent(data, index)
    ensures |data| == |index|
  {
    if index == [] {
      assert forall k :: k in data ==> Indexed(data, index, k);
      assert data == map[];
    } else {
      var k := index[0].key;
      EraseKeepsConsistent(data, index, 0);
      assert Erased(index, 0) == index[1..];
      ContainersHaveEqualSize(data - {k}, index[1..]);
      assert (data - {k}).Keys == data.Keys - {k};
      assert |(data - {k}).Keys| == |data.Keys| - 1;
    }
  }

  lemma EraseKeepsConsistent(data: Table, index: seq<TimeEntry>, p: nat)
    requires Consistent(data, index) && p < |index|
    ensures Consistent(data - {index[p].key}, Erased(index, p))
  {
    var data', index' := data - {index[p].key}, Erased(index, p);
    EraseKeepsCovered(data, index, p);
    assert Sorted(index') && DistinctKeys(index') && Backed(data', index');
  }

  lemma EraseKeepsCovered(data: Table, index: seq<TimeEntry>, p: nat)
    requires Covered(data, index) && p < |index|
    ensures Covered(data - {index[p].key}, Erased(index, p))
  {
    var data', index' := data - {index[p].key}, Erased(index, p);
    forall k {:trigger Indexed(data', index', k)} | k in data' ensures Indexed(data', index', k) {
      assert Indexed(data, index, k);
      var i :| 0 <= i < |index| && index[i] == TimeEntry(data[k].time, k);
      assert index'[if i < p then i else i - 1] == index[i];
    }
  }

  /** The entries of an index after an insertion, by their place. */
  ghost predicate Inserted(index: seq<TimeEntry>, p: nat, e: TimeEntry, r: seq<TimeEntry>) {
    && p <= |index| && |r| == |index| + 1 && r[p] == e
    && (forall i :: 0 <= i < p ==> r[i] == index[i])
    && (forall i :: p < i < |r| ==> r[i] == index[i - 1])
  }

  lemma InsertAtInserts(index: seq<TimeEntry>, e: TimeEntry)
    ensures Inserted(index, UpperBound(index, e.time), e, InsertAt(index, e))
  {
  }

  lemma InsertKeepsSorted(index: seq<TimeEntry>, p: nat, e: TimeEntry, r: seq<TimeEntry>)
    requires Sorted(index) && Inserted(index, p, e, r)
    requires forall i :: 0 <= i < p ==> index[i].time <= e.time
    requires forall i :: p <= i < |index| ==> e.time <= index[i].time
    ensures Sorted(r)
  {
  }

  lemma UpperBoundSplits(index: seq<TimeEntry>, time: UInt64)
    requires Sorted(index)
    ensures forall i :: UpperBound(index, time) <= i < |index| ==> time < index[i].time
  {
  }

  lemma InsertKeepsDistinctKeys(index: seq<TimeEntry>, p: nat, e: TimeEntry, r: seq<TimeEntry>)
    requires DistinctKeys(index) && Inserted(index, p, e, r)
    requires forall i :: 0 <= i < |index| ==> index[i].key != e.key
    ensures DistinctKeys(r)
  {
  }

  lemma InsertKeepsCovered(data: Table, index: seq<TimeEntry>, p: nat, k: string, m: MemData, r: seq<TimeEntry>)
    requires Covered(data, index) && k !in data && Inserted(index, p, TimeEntry(m.time, k), r)
    ensures Covered(data[k := m], r)
  {
    var data' := data[k := m];
    forall j {:trigger Indexed(data', r, j)} | j in data' ensures Indexed(data', r, j) {
      if j == k {
        assert r[p] == TimeEntry(data'[j].time, j);
      } else {
        assert Indexed(data, index, j);
        var i :| 0 <= i < |index| && index[i] == TimeEntry(data[j].time, j);
        assert r[if i < p then i else i + 1] == index[i];
      }
    }
  }

  lemma InsertKeepsConsistent(data: Table, index: seq<TimeEntry>, k: string, m: MemData)
    requires Consistent(data, index) && k !in data
    ensures Consistent(data[k := m], InsertAt(index, TimeEntry(m.time, k)))
  {
    var p, e := UpperBound(index, m.time), TimeEntry(m.time, k);
    var r := InsertAt(index, e);
    InsertAtInserts(index, e);
    UpperBoundSplits(index, m.time);
    InsertKeepsSorted(index, p, e, r);
    InsertKeepsDistinctKeys(index, p, e, r);
    InsertKeepsCovered(data, index, p, k, m, r);
    assert Backed(data[k := m], r);
  }

  /** Every stored key has its own entry inside the equal range of its expiry, and nowhere else. */
  lemma OwnEntryInEqualRange(data: Table, index: seq<TimeEntry>, k: string) returns (p: nat)
    requires Consistent(data, index) && k in data
    ensures LowerBound(index, data[k].time) <= p < LowerBound(index, data[k].time) + Count(index, data[k].time)
    ensures LowerBound(index, data[k].time) + Count(index, data[k].time) <= |index|
    ensures index[p] == TimeEntry(data[k].time, k)
    ensures forall i :: 0 <= i < |index| && index[i].key == k ==> i == p
    ensures Consistent(data - {k}, Erased(index, p))
  {
    CountSpansEqualRange(index, data[k].time);
    assert Indexed(data, index, k);
    p :| 0 <= p < |index| && index[p] == TimeEntry(data[k].time, k);
    EraseKeepsConsistent(data, index, p);
  }

  // ----- What each operation does to the one map -----

  function Stored(m: Table, k: string, v: string, ttl: UInt64, now: TimeT): Table {
    m[k := MemData(v, Expiry(now, ttl))]
  }

  /** Some entry that does not expire later, in unsigned order, is still alive and stops the sweep. */
  ghost predicate Shielded(m: Table, k: string, now: TimeT)
    requires k in m
  {
    exists j :: j in m && m[j].time <= m[k].time && !Dead(m[j].time, now)
  }

  ghost function Swept(m: Table, now: TimeT): Table {
    map k | k in m && Shielded(m, k, now) :: m[k]
  }

  /** The intent of a sweep: look at every entry and drop the dead ones. */
  function FullScan(m: Table, now: TimeT): Table {
    map k | k in m && !Dead(m[k].time, now) :: m[k]
  }

  class DBMS {
    var m_mapAllData: Table
    var m_mapAllDataTime: seq<TimeEntry>

    ghost predicate Valid()
      reads this
    {
      Consistent(m_mapAllData, m_mapAllDataTime)
    }

    constructor ()
      ensures Valid() && m_mapAllData == map[]
    {
      m_mapAllData := map[];
      m_mapAllDataTime := [];
    }

    method Size() returns (n: nat)
      requires Valid()
      ensures n == |m_mapAllData| == |m_mapAllDataTime|
    {
      ContainersHaveEqualSize(m_mapAllData, m_mapAllDataTime);
      n := |m_mapAllData|;
    }

    method Find(key: string) returns (found: bool, out: string)
      ensures found <==> key in m_mapAllData
      ensures found ==> out == m_mapAllData[key].value
    {
      if key in m_mapAllData {
        found, out := true, m_mapAllData[key].value;
      } else {
        found, out := false, "";
      }
    }

    /** Walks at most `Count` steps from the first entry of the key's time and erases the key's own
        entry; the walk always meets it, and every other entry keeps its place. */
    method Del(key: string)
      requires Valid()
      modifies this
      ensures Valid()
      ensures m_mapAllData == old(m_mapAllData) - {key}
      ensures key !in old(m_mapAllData) ==> m_mapAllDataTime == old(m_mapAllDataTime)
      ensures key in old(m_mapAllData) ==>
        exists p :: 0 <= p < |old(m_mapAllDataTime)|
          && old(m_mapAllDataTime)[p] == TimeEntry(old(m_mapAllData)[key].time, key)
          && m_mapAllDataTime == Erased(old(m_mapAllDataTime), p)
    {
      if key in m_mapAllData {
        var time := m_mapAllData[key].time;
        var count := Count(m_mapAllDataTime, time);
        var it := LowerBound(m_mapAllDataTime, time);
        ghost var p := OwnEntryInEqualRange(m_mapAllData, m_mapAllDataTime, key);
        var i := 0;
        while i < count
          invariant i <= count && it == LowerBound(m_mapAllDataTime, time) + i <= p
          invariant m_mapAllDataTime == old(m_mapAllDataTime)
        {
          if m_mapAllDataTime[it].key == key {
            m_mapAllDataTime := Erased(m_mapAllDataTime, it);
            break;
          }
          it := it + 1;
          i := i + 1;
        }
        m_mapAllData := m_mapAllData - {key};
      }
    }

    method Insert(key: string, value: string, ttl: UInt64, now: TimeT)
      requires Valid()
      modifies this
      ensures Valid()
      ensures m_mapAllData == Stored(old(m_mapAllData), key, value, ttl, now)
    {
      Del(key);
      var time := Expiry(now, ttl);
      InsertKeepsConsistent(m_mapAllData, m_mapAllDataTime, key, MemData(value, time));
      m_mapAllDataTime := InsertAt(m_mapAllDataTime, TimeEntry(time, key));
      m_mapAllData := m_mapAllData[key := MemData(value, time)];
    }

    /** Evicts from the front of the index and stops at the first live entry. */
    method UpdateData(now: TimeT)
      requires Valid()
      modifies this
      ensures Valid()
      ensures m_mapAllData == Swept(old(m_mapAllData), now)
    {
      ghost var data0, index0, d := m_mapAllData, m_mapAllDataTime, 0;
      while |m_mapAllDataTime| > 0
        invariant d <= |index0| && m_mapAllDataTime == index0[d..]
        invariant Consistent(m_mapAllData, m_mapAllDataTime)
        invariant Within(m_mapAllData, data0)
        invariant forall i :: 0 <= i < d ==> Dead(index0[i].time, now)
        decreases |m_mapAllDataTime|
      {
        var front := m_mapAllDataTime[0];
        if now > AsTimeT(front.time) {
          EraseKeepsConsistent(m_mapAllData, m_mapAllDataTime, 0);
          assert Erased(m_mapAllDataTime, 0) == m_mapAllDataTime[1..];
          m_mapAllData := m_mapAllData - {front.key};
          m_mapAllDataTime := m_mapAllDataTime[1..];
          d := d + 1;
        } else {
          break;
        }
      }
      DeadPrefixIsSwept(data0, index0, d, m_mapAllData, now);
    }
  }

  ghost predicate Within(part: Table, whole: Table) {
    forall k :: k in part ==> k in whole && part[k] == whole[k]
  }

  lemma DeadPrefixIsSwept(data0: Table, index0: seq<TimeEntry>, d: nat, data: Table, now: TimeT)
    requires d <= |index0| && Consistent(data0, index0) && Consistent(data, index0[d..])
    requires Within(data, data0)
    requires forall i :: 0 <= i < d ==> Dead(index0[i].time, now)
    requires d < |index0| ==> !Dead(index0[d].time, now)
    ensures data == Swept(data0, now)
  {
    forall k {:trigger Shielded(data0, k, now)} | k in data0 ensures k in data <==> Shielded(data0, k, now) {
      KeptIsShielded(data0, index0, d, data, now, k);
    }
    SweptIsWithin(data0, now);
    EqualParts(data, Swept(data0, now), data0);
  }

  lemma KeptIsShielded(data0: Table, index0: seq<TimeEntry>, d: nat, data: Table, now: TimeT, k: string)
    requires d <= |index0| && Consistent(data0, index0) && Consistent(data, index0[d..])
    requires forall i :: 0 <= i < d ==> Dead(index0[i].time, now)
    requires d < |index0| ==> !Dead(index0[d].time, now)
    requires k in data0
    ensures k in data <==> Shielded(data0, k, now)
  {
    assert Indexed(data0, index0, k);
    var i :| 0 <= i < |index0| && index0[i] == TimeEntry(data0[k].time, k);
    if d <= i {
      assert index0[d..][i - d] == index0[i];
      assert data0[index0[d].key].time <= data0[k].time;
    } else {
      if k in data {
        KeptKeysAreNotInPrefix(data, index0, d, i, k);
      }
      DeadPrefixShieldsNothing(data0, index0, d, i, now);
    }
  }

  lemma KeptKeysAreNotInPrefix(data: Table, index0: seq<TimeEntry>, d: nat, i: nat, k: string)
    requires i < d <= |index0| && Consistent(data, index0[d..]) && k in data
    requires forall p, q :: 0 <= p < q < |index0| ==> index0[p].key != index0[q].key
    ensures index0[i].key != k
  {
    assert Indexed(data, index0[d..], k);
    var q :| 0 <= q < |index0[d..]| && index0[d..][q] == TimeEntry(data[k].time, k);
    assert index0[d + q].key == k;
  }

  lemma DeadPrefixShieldsNothing(data0: Table, index0: seq<TimeEntry>, d: nat, i: nat, now: TimeT)
    requires i < d <= |index0| && Consistent(data0, index0)
    requires forall p :: 0 <= p < d ==> Dead(index0[p].time, now)
    requires d < |index0| ==> !Dead(index0[d].time, now)
    ensures !Shielded(data0, index0[i].key, now)
  {
    forall j | j in data0 && data0[j].time <= index0[i].time ensures Dead(data0[j].time, now) {
      assert Indexed(data0, index0, j);
      var q :| 0 <= q < |index0| && index0[q] == TimeEntry(data0[j].time, j);
      assert i < q ==> index0[i].time <= index0[q].time;
      assert Dead(index0[i].time, now);
    }
  }

  // ----- Sweeps -----

  /** A live ordinary expiry is in the table together with a dead one of 2^63 or more, which sorts
      behind it although it is negative as a signed time. */
  ghost predicate Stranded(m: Table, now: TimeT) {
    exists j, k :: j in m && k in m
      && m[j].time < TWO_63 <= m[k].time
      && !Dead(m[j].time, now) && Dead(m[k].time, now)
  }

  lemma SweepIsFullScan(m: Table, now: TimeT)
    ensures Swept(m, now) == FullScan(m, now) <==> !Stranded(m, now)
  {
    if Stranded(m, now) {
      var j, k :| j in m && k in m && m[j].time < TWO_63 <= m[k].time
        && !Dead(m[j].time, now) && Dead(m[k].time, now);
      assert Shielded(m, k, now);
      assert k in Swept(m, now) && k !in FullScan(m, now);
    } else {
      forall k {:trigger Shielded(m, k, now)} | k in m ensures Shielded(m, k, now) <==> !Dead(m[k].time, now) {
        ShieldedMeansAlive(m, k, now);
      }
      assert Swept(m, now).Keys == FullScan(m, now).Keys;
    }
  }

  lemma ShieldedMeansAlive(m: Table, k: string, now: TimeT)
    requires k in m && !Stranded(m, now)
    ensures Shielded(m, k, now) <==> !Dead(m[k].time, now)
  {
    if Shielded(m, k, now) {
      var j :| j in m && m[j].time <= m[k].time && !Dead(m[j].time, now);
      assert m[j].time < TWO_63 <= m[k].time ==> !Dead(m[k].time, now);
    }
  }

  lemma SweepsCombine(m: Table, t1: TimeT, t2: TimeT)
    ensures Swept(Swept(m, t1), t2) == Swept(m, if t1 < t2 then t2 else t1)
  {
    var m1, t := Swept(m, t1), if t1 < t2 then t2 else t1;
    SweptIsWithin(m, t1);
    SweptIsWithin(m, t);
    SweptIsWithin(m1, t2);
    forall k {:trigger Shielded(m, k, t)} | k in m ensures k in Swept(m1, t2) <==> Shielded(m, k, t) {
      KeptByBoth(m, k, t1, t2);
    }
    EqualParts(Swept(m1, t2), Swept(m, t), m);
  }

  lemma SweptIsWithin(m: Table, now: TimeT)
    ensures Within(Swept(m, now), m)
    ensures forall k {:trigger Shielded(m, k, now)} :: k in m ==> (k in Swept(m, now) <==> Shielded(m, k, now))
  {
  }

  lemma EqualParts(a: Table, b: Table, m: Table)
    requires Within(a, m) && Within(b, m) && forall k :: k in m ==> (k in a <==> k in b)
    ensures a == b
  {
  }

  lemma KeptByBoth(m: Table, k: string, t1: TimeT, t2: TimeT)
    requires k in m
    ensures k in Swept(Swept(m, t1), t2) <==> Shielded(m, k, if t1 < t2 then t2 else t1)
  {
    if Shielded(m, k, if t1 < t2 then t2 else t1) {
      ShieldedByBoth(m, k, t1, t2);
    }
    if k in Swept(Swept(m, t1), t2) {
      ShieldedAtLater(m, k, t1, t2);
    }
  }

  lemma ShieldedByBoth(m: Table, k: string, t1: TimeT, t2: TimeT)
    requires k in m && Shielded(m, k, if t1 < t2 then t2 else t1)
    ensures k in Swept(Swept(m, t1), t2)
  {
    var m1, t := Swept(m, t1), if t1 < t2 then t2 else t1;
    var j :| j in m && m[j].time <= m[k].time && !Dead(m[j].time, t);
    assert Shielded(m, j, t1) && Shielded(m, k, t1);
    assert j in m1 && m1[j].time <= m1[k].time && !Dead(m1[j].time, t2);
    assert Shielded(m1, k, t2);
  }

  lemma ShieldedAtLater(m: Table, k: string, t1: TimeT, t2: TimeT)
    requires k in Swept(Swept(m, t1), t2)
    ensures Shielded(m, k, if t1 < t2 then t2 else t1)
  {
    var m1 := Swept(m, t1);
    assert Shielded(m1, k, t2);
    var j :| j in m1 && m1[j].time <= m1[k].time && !Dead(m1[j].time, t2);
    assert Shielded(m, j, t1);
    var j' :| j' in m && m[j'].time <= m[j].time && !Dead(m[j'].time, t1);
    assert m[j'].time <= m[k].time && m[j].time <= m[k].time;
  }

  // ----- Runs -----

  datatype Op =
    | Insert(key: string, value: string, ttl: UInt64, now: TimeT)
    | Del(key: string)
    | UpdateData(now: TimeT)
    | Find(key: string)
    | Size

  datatype Answer = Done | Found(value: string) | Missing | SizeIs(n: nat)

  /** One call on the one map. */
  ghost function After(m: Table, op: Op): Table {
    match op
    case Insert(k, v, ttl, now) => Stored(m, k, v, ttl, now)
    case Del(k) => m - {k}
    case UpdateData(now) => Swept(m, now)
    case Find(_) => m
    case Size => m
  }

  function AnswerOf(m: Table, op: Op): Answer {
    match op
    case Find(k) => if k in m then Found(m[k].value) else Missing
    case Size => SizeIs(|m|)
    case _ => Done
  }

  ghost function RunTable(m: Table, ops: seq<Op>): Table {
    if ops == [] then m else After(RunTable(m, ops[..|ops| - 1]), ops[|ops| - 1])
  }

  ghost function RunAnswers(m: Table, ops: seq<Op>): seq<Answer> {
    if ops == [] then []
    else
      var before := ops[..|ops| - 1];
      RunAnswers(m, before) + [AnswerOf(RunTable(m, before), ops[|ops| - 1])]
  }

  /** Any caller, any calls, any clock readings: the two-container store answers as the one map. */
  method Replay(ops: seq<Op>) returns (answers: seq<Answer>)
    ensures answers == RunAnswers(map[], ops)
  {
    var db := new DBMS();
    answers := [];
    for n := 0 to |ops|
      invariant db.Valid() && fresh(db)
      invariant db.m_mapAllData == RunTable(map[], ops[..n])
      invariant answers == RunAnswers(map[], ops[..n])
    {
      assert ops[..n + 1][..n] == ops[..n];
      var answer := Done;
      match ops[n] {
        case Insert(k, v, ttl, now) => db.Insert(k, v, ttl, now);
        case Del(k) => db.Del(k);
        case UpdateData(now) => db.UpdateData(now);
        case Find(k) =>
          var found, out := db.Find(k);
          answer := if found then Found(out) else Missing;
        case Size =>
          var size := db.Size();
          answer := SizeIs(size);
      }
      answers := answers + [answer];
    }
    assert ops[..|ops|] == ops;
  }

  // ----- Lifetime of a value -----

  predicate Writes(op: Op, k: string) {
    (op.Insert? || op.Del?) && op.key == k
  }

  /** No sweep of the run has a clock past `deadline`. */
  predicate NoSweepPast(ops: seq<Op>, deadline: int) {
    forall i :: 0 <= i < |ops| && ops[i].UpdateData? ==> ops[i].now <= deadline
  }

  /** After an insert and a run, `Find` answers with the inserted value if no sweep of the run had a
      clock past `deadline`, and fails otherwise. */
  ghost predicate FoundUntil(deadline: int, m: Table, k: string, v: string, ttl: UInt64, now: TimeT, ops: seq<Op>) {
    AnswerOf(RunTable(Stored(m, k, v, ttl, now), ops), Find(k))
      == if NoSweepPast(ops, deadline) then Found(v) else Missing
  }

  /** Whatever the other entries are, a value is never evicted before a sweep passes its deadline. */
  lemma {:induction false} NeverEvictedEarly(m: Table, k: string, v: string, ttl: UInt64, now: TimeT, ops: seq<Op>)
    requires forall op :: op in ops ==> !Writes(op, k)
    requires NoSweepPast(ops, AsTimeT(Expiry(now, ttl)))
    ensures AnswerOf(RunTable(Stored(m, k, v, ttl, now), ops), Find(k)) == Found(v)
  {
    KeepsEntry(Stored(m, k, v, ttl, now), k, ops);
  }

  lemma {:induction false} KeepsEntry(m: Table, k: string, ops: seq<Op>)
    requires k in m && forall op :: op in ops ==> !Writes(op, k)
    ensures k in RunTable(m, ops) ==> RunTable(m, ops)[k] == m[k]
    ensures NoSweepPast(ops, AsTimeT(m[k].time)) ==> k in RunTable(m, ops)
  {
    if ops != [] {
      KeepsEntry(m, k, ops[..|ops| - 1]);
      assert !Writes(ops[|ops| - 1], k);
      var before := RunTable(m, ops[..|ops| - 1]);
      if NoSweepPast(ops, AsTimeT(m[k].time)) {
        assert NoSweepPast(ops[..|ops| - 1], AsTimeT(m[k].time));
        assert ops[|ops| - 1].UpdateData? ==> before[k].time <= before[k].time;
      }
    }
  }

  /** When the value's own expiry is below 2^63, `Find` returns it until the first sweep whose clock
      exceeds that expiry, and fails from then on, whatever else is stored, inserted or removed. */
  lemma FoundUntilFirstSweepPastDeadline(m: Table, k: string, v: string, ttl: UInt64, now: TimeT, ops: seq<Op>)
    requires Expiry(now, ttl) < TWO_63
    requires forall op :: op in ops ==> !Writes(op, k)
    ensures FoundUntil(Expiry(now, ttl), m, k, v, ttl, now, ops)
  {
    var m0 := Stored(m, k, v, ttl, now);
    KeepsEntry(m0, k, ops);
    if !NoSweepPast(ops, Expiry(now, ttl)) {
      EvictedOnce(m0, k, ops);
    }
  }

  /** A sweep past an expiry below 2^63 evicts: what could shield it expires no later, so is dead too. */
  lemma {:induction false} EvictedOnce(m: Table, k: string, ops: seq<Op>)
    requires k in m && m[k].time < TWO_63
    requires forall op :: op in ops ==> !Writes(op, k)
    requires !NoSweepPast(ops, m[k].time)
    ensures k !in RunTable(m, ops)
  {
    var before, last := ops[..|ops| - 1], ops[|ops| - 1];
    assert !Writes(last, k);
    if !NoSweepPast(before, m[k].time) {
      EvictedOnce(m, k, before);
    } else {
      assert last.UpdateData? && last.now > m[k].time;
      KeepsEntry(m, k, before);
    }
  }

  /** The lifetime law for one insert: found until a sweep passes `deadline`, whatever is stored beside
      the value and whatever happens to the other keys. */
  ghost predicate LifetimeLaw(deadline: int, k: string, v: string, ttl: UInt64, now: TimeT) {
    forall m: Table, ops: seq<Op> | (forall op :: op in ops ==> !Writes(op, k)) ::
      FoundUntil(deadline, m, k, v, ttl, now, ops)
  }

  lemma SmallExpiryKeepsTheLaw(k: string, v: string, ttl: UInt64, now: TimeT)
    requires Expiry(now, ttl) < TWO_63
    ensures LifetimeLaw(Expiry(now, ttl), k, v, ttl, now)
  {
    forall m: Table, ops: seq<Op> {:trigger FoundUntil(Expiry(now, ttl), m, k, v, ttl, now, ops)} |
      forall op :: op in ops ==> !Writes(op, k) ensures FoundUntil(Expiry(now, ttl), m, k, v, ttl, now, ops) {
      FoundUntilFirstSweepPastDeadline(m, k, v, ttl, now, ops);
    }
  }

  /** An expiry of 2^63 or more is negative as a signed time, and outlives a sweep past it as long as a
      live entry with a smaller one stands in front of it. */
  lemma HugeExpiryOutlivesItsSweep(k: string, v: string, ttl: UInt64, now: TimeT)
    requires Expiry(now, ttl) >= TWO_63
    ensures var m: Table := map[k + "'" := MemData("", 100)];
      !FoundUntil(AsTimeT(Expiry(now, ttl)), m, k, v, ttl, now, [Op.UpdateData(0)])
  {
    var other, ops := k + "'", [Op.UpdateData(0)];
    var m: Table := map[other := MemData("", 100)];
    var m1 := Stored(m, k, v, ttl, now);
    assert other != k && m1[other].time <= m1[k].time && !Dead(m1[other].time, 0);
    assert Shielded(m1, k, 0);
    OneSweep(m1, 0);
    assert !NoSweepPast(ops, AsTimeT(Expiry(now, ttl)));
  }

  lemma OneSweep(m: Table, now: TimeT)
    ensures RunTable(m, [Op.UpdateData(now)]) == Swept(m, now)
  {
    assert [Op.UpdateData(now)][..0] == [];
  }

  /** A value alone in the store is gone after one sweep past its expiry. */
  lemma AloneIsSwept(k: string, v: string, ttl: UInt64, now: TimeT, clock: TimeT)
    requires clock > AsTimeT(Expiry(now, ttl))
    ensures k !in RunTable(Stored(map[], k, v, ttl, now), [Op.UpdateData(clock)])
  {
    OneSweep(Stored(map[], k, v, ttl, now), clock);
  }

  /** With the stored expiry, read as a signed time, for its deadline, the law holds exactly when that
      expiry is below 2^63. */
  lemma LawOfStoredExpiry(k: string, v: string, ttl: UInt64, now: TimeT)
    ensures LifetimeLaw(AsTimeT(Expiry(now, ttl)), k, v, ttl, now) <==> Expiry(now, ttl) < TWO_63
  {
    if Expiry(now, ttl) < TWO_63 {
      SmallExpiryKeepsTheLaw(k, v, ttl, now);
    } else {
      HugeExpiryOutlivesItsSweep(k, v, ttl, now);
    }
  }

  /** With the sum of the clock and the time to live for its deadline, the law holds exactly when that
      sum is a non-negative signed time; a larger one makes the value disappear early. */
  lemma LawOfTimeToLive(k: string, v: string, ttl: UInt64, now: TimeT)
    ensures LifetimeLaw(now + ttl, k, v, ttl, now) <==> 0 <= now + ttl < TWO_63
  {
    if 0 <= now + ttl < TWO_63 {
      SmallExpiryKeepsTheLaw(k, v, ttl, now);
    } else if now + ttl < 0 {
      assert AsTimeT(Expiry(now, ttl)) == now + ttl;
      HugeExpiryOutlivesItsSweep(k, v, ttl, now);
    } else {
      var m: Table, ops := map[], [Op.UpdateData(TWO_63 - 1)];
      AloneIsSwept(k, v, ttl, now, TWO_63 - 1);
      assert NoSweepPast(ops, now + ttl);
      assert !FoundUntil(now + ttl, m, k, v, ttl, now, ops);
    }
  }
}
