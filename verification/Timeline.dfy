/** Timestamped records: the stable sort, the binary searches, and the scans they replace. */
module Timeline {
  import opened Wrappers

  datatype Timed<+T> = Timed(ts: int, value: T)

  ghost predicate Sorted<T>(xs: seq<Timed<T>>) {
    forall i, j :: 0 <= i < j < |xs| ==> xs[i].ts <= xs[j].ts
  }

  /** Python's `sorted(xs, key=ts)`: ascending, and equal keys keep their input order. */
  function Sort<T>(xs: seq<Timed<T>>): (ys: seq<Timed<T>>)
    ensures |ys| == |xs|
  {
    if xs == [] then [] else Insert(Sort(xs[..|xs| - 1]), xs[|xs| - 1])
  }

  function Insert<T>(ys: seq<Timed<T>>, x: Timed<T>): (zs: seq<Timed<T>>)
    ensures |zs| == |ys| + 1
  {
    if ys == [] || ys[|ys| - 1].ts <= x.ts then ys + [x]
    else Insert(ys[..|ys| - 1], x) + [ys[|ys| - 1]]
  }

  lemma {:induction false} InsertSorts<T>(ys: seq<Timed<T>>, x: Timed<T>)
    requires Sorted(ys)
    ensures Sorted(Insert(ys, x))
  {
    if ys != [] && ys[|ys| - 1].ts > x.ts {
      var front, last := ys[..|ys| - 1], ys[|ys| - 1];
      InsertSorts(front, x);
      var zs := Insert(front, x);
      forall i | 0 <= i < |zs|
        ensures zs[i].ts <= last.ts
      {
        InsertContains(front, x, i);
      }
    }
  }

  lemma {:induction false} InsertPermutes<T>(ys: seq<Timed<T>>, x: Timed<T>)
    ensures multiset(Insert(ys, x)) == multiset(ys) + multiset{x}
  {
    if ys != [] && ys[|ys| - 1].ts > x.ts {
      InsertPermutes(ys[..|ys| - 1], x);
      assert ys == ys[..|ys| - 1] + [ys[|ys| - 1]];
    }
  }

  lemma {:induction false} InsertContains<T>(ys: seq<Timed<T>>, x: Timed<T>, i: nat)
    requires i <= |ys|
    ensures Insert(ys, x)[i] == x || Insert(ys, x)[i] in ys
  {
    if ys != [] && ys[|ys| - 1].ts > x.ts && i < |ys| {
      InsertContains(ys[..|ys| - 1], x, i);
    }
  }

  lemma {:induction false} SortSorts<T>(xs: seq<Timed<T>>)
    ensures Sorted(Sort(xs))
    ensures multiset(Sort(xs)) == multiset(xs)
  {
    if xs != [] {
      SortSorts(xs[..|xs| - 1]);
      InsertSorts(Sort(xs[..|xs| - 1]), xs[|xs| - 1]);
      InsertPermutes(Sort(xs[..|xs| - 1]), xs[|xs| - 1]);
      assert xs == xs[..|xs| - 1] + [xs[|xs| - 1]];
    }
  }

  // -------------------------------------------------------------- the past of a sequence

  /** The records at or before `t`, in their original order. */
  function UpTo<T>(xs: seq<Timed<T>>, t: int): (past: seq<Timed<T>>)
    ensures forall i :: 0 <= i < |past| ==> past[i].ts <= t && past[i] in xs
  {
    if xs == [] then []
    else UpTo(xs[..|xs| - 1], t) + if xs[|xs| - 1].ts <= t then [xs[|xs| - 1]] else []
  }

  ghost predicate SamePast<T>(xs: seq<Timed<T>>, ys: seq<Timed<T>>, t: int) {
    UpTo(xs, t) == UpTo(ys, t)
  }

  lemma UpToSnoc<T>(ys: seq<Timed<T>>, x: Timed<T>, t: int)
    ensures x.ts <= t ==> UpTo(ys + [x], t) == UpTo(ys, t) + [x]
    ensures x.ts > t ==> UpTo(ys + [x], t) == UpTo(ys, t)
  {
    assert (ys + [x])[..|ys|] == ys;
    assert UpTo(ys, t) + [] == UpTo(ys, t);
  }

  lemma {:induction false} PastOfPast<T>(xs: seq<Timed<T>>, t: int)
    ensures UpTo(UpTo(xs, t), t) == UpTo(xs, t)
  {
    if xs != [] {
      PastOfPast(xs[..|xs| - 1], t);
      if xs[|xs| - 1].ts <= t {
        UpToSnoc(UpTo(xs[..|xs| - 1], t), xs[|xs| - 1], t);
      } else {
        assert UpTo(xs[..|xs| - 1], t) + [] == UpTo(xs[..|xs| - 1], t);
      }
    }
  }

  lemma InsertSnoc<T>(ys: seq<Timed<T>>, last: Timed<T>, x: Timed<T>)
    ensures last.ts > x.ts ==> Insert(ys + [last], x) == Insert(ys, x) + [last]
    ensures last.ts <= x.ts ==> Insert(ys + [last], x) == ys + [last] + [x]
  {
    assert (ys + [last])[..|ys|] == ys;
  }

  lemma {:induction false} UpToInsert<T>(ys: seq<Timed<T>>, x: Timed<T>, t: int)
    requires Sorted(ys)
    ensures UpTo(Insert(ys, x), t) == if x.ts <= t then Insert(UpTo(ys, t), x) else UpTo(ys, t)
  {
    if ys == [] {
      UpToSnoc(ys, x, t);
    } else {
      var front, last := ys[..|ys| - 1], ys[|ys| - 1];
      assert ys == front + [last];
      UpToSnoc(front, last, t);
      InsertSnoc(UpTo(front, t), last, x);
      if last.ts <= x.ts {
        UpToSnoc(ys, x, t);
        if x.ts <= t {
          assert UpTo(ys, t) == UpTo(front, t) + [last];
        }
      } else {
        UpToInsert(front, x, t);
        UpToSnoc(Insert(front, x), last, t);
      }
    }
  }

  /** Sorting commutes with forgetting the future. */
  lemma {:induction false} SortUpTo<T>(xs: seq<Timed<T>>, t: int)
    ensures UpTo(Sort(xs), t) == Sort(UpTo(xs, t))
  {
    if xs != [] {
      var front, last := xs[..|xs| - 1], xs[|xs| - 1];
      assert xs == front + [last];
      SortUpTo(front, t);
      SortSorts(front);
      UpToInsert(Sort(front), last, t);
      UpToSnoc(front, last, t);
      if last.ts <= t {
        assert (UpTo(front, t) + [last])[..|UpTo(front, t)|] == UpTo(front, t);
      }
    }
  }

  /** All of a sequence is past when all of its records are. */
  lemma {:induction false} AllPast<T>(xs: seq<Timed<T>>, t: int)
    requires forall i :: 0 <= i < |xs| ==> xs[i].ts <= t
    ensures UpTo(xs, t) == xs
  {
    if xs != [] {
      var front, last := xs[..|xs| - 1], xs[|xs| - 1];
      AllPast(front, t);
      assert xs == front + [last];
    }
  }

  /** In a sorted sequence the past is a prefix. */
  lemma {:induction false} PastIsPrefix<T>(ys: seq<Timed<T>>, t: int)
    requires Sorted(ys)
    ensures |UpTo(ys, t)| <= |ys| && UpTo(ys, t) == ys[..|UpTo(ys, t)|]
    ensures forall i :: 0 <= i < |ys| ==> (ys[i].ts <= t <==> i < |UpTo(ys, t)|)
  {
    if ys != [] {
      var front, last := ys[..|ys| - 1], ys[|ys| - 1];
      assert ys == front + [last];
      if last.ts <= t {
        AllPast(ys, t);
      } else {
        PastIsPrefix(front, t);
        UpToSnoc(front, last, t);
        assert ys[..|UpTo(front, t)|] == front[..|UpTo(front, t)|];
      }
    }
  }

  // -------------------------------------------------------------------- binary search

  function Stamps<T>(xs: seq<Timed<T>>): (times: seq<int>)
  {
    seq(|xs|, i requires 0 <= i < |xs| => xs[i].ts)
  }

  ghost predicate Ascending(times: seq<int>) {
    forall i, j :: 0 <= i < j < |times| ==> times[i] <= times[j]
  }

  /** The full scan: how many are at or before `t`. */
  function CountUpTo(times: seq<int>, t: int): (n: nat)
    ensures n <= |times|
  {
    if times == [] then 0
    else CountUpTo(times[..|times| - 1], t) + if times[|times| - 1] <= t then 1 else 0
  }

  lemma {:induction false} CountSplits(times: seq<int>, t: int, n: nat)
    requires n <= |times|
    requires forall i :: 0 <= i < n ==> times[i] <= t
    requires forall i :: n <= i < |times| ==> times[i] > t
    ensures CountUpTo(times, t) == n
  {
    if times != [] {
      CountSplits(times[..|times| - 1], t, if n == |times| then n - 1 else n);
    }
  }

  lemma {:induction false} CountOfPast<T>(xs: seq<Timed<T>>, t: int)
    ensures CountUpTo(Stamps(xs), t) == |UpTo(xs, t)|
  {
    if xs != [] {
      CountOfPast(xs[..|xs| - 1], t);
      assert Stamps(xs)[..|xs| - 1] == Stamps(xs[..|xs| - 1]);
    }
  }

  /** `bisect_right` on ascending times counts what a full scan would. */
  method BisectRight(times: seq<int>, t: int) returns (index: nat)
    requires Ascending(times)
    ensures index == CountUpTo(times, t)
    ensures forall i :: 0 <= i < index ==> times[i] <= t
    ensures forall i :: index <= i < |times| ==> times[i] > t
  {
    var lo, hi := 0, |times|;
    while lo < hi
      invariant 0 <= lo <= hi <= |times|
      invariant forall i :: 0 <= i < lo ==> times[i] <= t
      invariant forall i :: hi <= i < |times| ==> times[i] > t
    {
      var mid := (lo + hi) / 2;
      if t < times[mid] {
        hi := mid;
      } else {
        lo := mid + 1;
      }
    }
    CountSplits(times, t, lo);
    index := lo;
  }

  /** `bisect_left`: on integer times, strictly before `t` is at or before `t - 1`. */
  method BisectLeft(times: seq<int>, t: int) returns (index: nat)
    requires Ascending(times)
    ensures index == CountUpTo(times, t - 1)
    ensures forall i :: 0 <= i < index ==> times[i] < t
    ensures forall i :: index <= i < |times| ==> times[i] >= t
  {
    var lo, hi := 0, |times|;
    while lo < hi
      invariant 0 <= lo <= hi <= |times|
      invariant forall i :: 0 <= i < lo ==> times[i] < t
      invariant forall i :: hi <= i < |times| ==> times[i] >= t
    {
      var mid := (lo + hi) / 2;
      if times[mid] < t {
        lo := mid + 1;
      } else {
        hi := mid;
      }
    }
    CountSplits(times, t - 1, lo);
    index := lo;
  }

  // ------------------------------------------------------------------- the latest record

  /** The linear scan: the latest record at or before `t`, the last such in input order. */
  function ScanLatest<T>(xs: seq<Timed<T>>, t: int): (best: Option<Timed<T>>)
    ensures best.None? <==> forall i :: 0 <= i < |xs| ==> xs[i].ts > t
    ensures best.Some? ==> best.value in xs && best.value.ts <= t
    ensures best.Some? ==> forall i :: 0 <= i < |xs| && xs[i].ts <= t ==> xs[i].ts <= best.value.ts
  {
    if xs == [] then None
    else
      var best, last := ScanLatest(xs[..|xs| - 1], t), xs[|xs| - 1];
      if last.ts <= t && (best.None? || best.value.ts <= last.ts) then Some(last) else best
  }

  function LatestOf<T>(past: seq<Timed<T>>): Option<Timed<T>> {
    if past == [] then None else Some(past[|past| - 1])
  }

  lemma {:induction false} InsertLast<T>(ys: seq<Timed<T>>, x: Timed<T>)
    requires Sorted(ys)
    ensures LatestOf(Insert(ys, x)) == if ys == [] || ys[|ys| - 1].ts <= x.ts then Some(x) else LatestOf(ys)
  {
  }

  /** The last record of the sorted past is the one the linear scan of the unsorted input picks. */
  lemma {:induction false} LatestIsScan<T>(xs: seq<Timed<T>>, t: int)
    ensures LatestOf(UpTo(Sort(xs), t)) == ScanLatest(xs, t)
  {
    if xs != [] {
      var front, last := xs[..|xs| - 1], xs[|xs| - 1];
      LatestIsScan(front, t);
      SortSorts(front);
      UpToInsert(Sort(front), last, t);
      PastIsPrefix(Sort(front), t);
      if last.ts <= t {
        InsertLast(UpTo(Sort(front), t), last);
      }
    }
  }

  /** The last record of a slice. */
  function Before<T>(xs: seq<Timed<T>>, index: nat): Option<Timed<T>>
    requires index <= |xs|
  {
    if index == 0 then None else Some(xs[index - 1])
  }

  lemma {:induction false} CountedIsLatest<T>(sorted: seq<Timed<T>>, t: int, index: nat)
    requires Sorted(sorted) && index == CountUpTo(Stamps(sorted), t)
    ensures index <= |sorted| && Before(sorted, index) == LatestOf(UpTo(sorted, t))
  {
    CountOfPast(sorted, t);
    PastIsPrefix(sorted, t);
  }

  method SearchSorted<T>(sorted: seq<Timed<T>>, times: seq<int>, t: int) returns (latest: Option<Timed<T>>)
    requires Sorted(sorted) && times == Stamps(sorted)
    ensures latest == LatestOf(UpTo(sorted, t))
  {
    if sorted == [] {
      CountedIsLatest(sorted, t, 0);
      return None;
    }
    var index := BisectRight(times, t);
    CountedIsLatest(sorted, t, index);
    latest := if index == 0 then None else Some(sorted[index - 1]);
  }

  /** `_book_at` and the first half of `_price_at`: one binary search instead of the scan. */
  method LatestAt<T>(sorted: seq<Timed<T>>, times: seq<int>, t: int, ghost unsorted: seq<Timed<T>>)
    returns (latest: Option<Timed<T>>)
    requires sorted == Sort(unsorted) && times == Stamps(sorted)
    ensures latest == ScanLatest(unsorted, t)
  {
    SortSorts(unsorted);
    LatestIsScan(unsorted, t);
    latest := SearchSorted(sorted, times, t);
  }

  /** What a scan up to `t` sees does not include the future. */
  lemma {:induction false} ScanIgnoresFuture<T>(xs: seq<Timed<T>>, t: int, now: int)
    requires now <= t
    ensures ScanLatest(UpTo(xs, t), now) == ScanLatest(xs, now)
  {
    if xs != [] {
      var front, last := xs[..|xs| - 1], xs[|xs| - 1];
      ScanIgnoresFuture(front, t, now);
      if last.ts <= t {
        assert (UpTo(front, t) + [last])[..|UpTo(front, t)|] == UpTo(front, t);
      } else {
        assert UpTo(front, t) + [] == UpTo(front, t);
      }
    }
  }

  // ------------------------------------------------------------ the sort, characterised

  /** The records with timestamp `t`, in order. */
  function At<T>(xs: seq<Timed<T>>, t: int): seq<Timed<T>> {
    if xs == [] then []
    else At(xs[..|xs| - 1], t) + if xs[|xs| - 1].ts == t then [xs[|xs| - 1]] else []
  }

  lemma {:induction false} AtInsert<T>(ys: seq<Timed<T>>, x: Timed<T>, t: int)
    requires Sorted(ys)
    ensures At(Insert(ys, x), t) == At(ys, t) + if x.ts == t then [x] else []
  {
    if ys == [] || ys[|ys| - 1].ts <= x.ts {
      assert (ys + [x])[..|ys|] == ys;
    } else {
      var front, last := ys[..|ys| - 1], ys[|ys| - 1];
      AtInsert(front, x, t);
      assert (Insert(front, x) + [last])[..|front| + 1] == Insert(front, x);
      if x.ts == t {
        assert At(ys, t) == At(front, t) + [];
      }
    }
  }

  /** Stability: equal timestamps keep their input order. */
  lemma {:induction false} SortIsStable<T>(xs: seq<Timed<T>>, t: int)
    ensures At(Sort(xs), t) == At(xs, t)
  {
    if xs != [] {
      SortIsStable(xs[..|xs| - 1], t);
      SortSorts(xs[..|xs| - 1]);
      AtInsert(Sort(xs[..|xs| - 1]), xs[|xs| - 1], t);
    }
  }

  // ------------------------------------------------------------------------------ the ends

  function FirstTs<T>(xs: seq<Timed<T>>): (ts: int)
    requires xs != []
    ensures forall i :: 0 <= i < |xs| ==> ts <= xs[i].ts
    ensures exists i :: 0 <= i < |xs| && xs[i].ts == ts
  {
    var last := xs[|xs| - 1].ts;
    if |xs| == 1 then last
    else
      var front := FirstTs(xs[..|xs| - 1]);
      if last < front then last else front
  }

  function LastTs<T>(xs: seq<Timed<T>>): (ts: int)
    requires xs != []
    ensures forall i :: 0 <= i < |xs| ==> xs[i].ts <= ts
    ensures exists i :: 0 <= i < |xs| && xs[i].ts == ts
  {
    var last := xs[|xs| - 1].ts;
    if |xs| == 1 then last
    else
      var front := LastTs(xs[..|xs| - 1]);
      if last > front then last else front
  }

  lemma {:induction false} EndsOfSorted<T>(xs: seq<Timed<T>>)
    requires xs != []
    ensures Sort(xs)[0].ts == FirstTs(xs) && Sort(xs)[|xs| - 1].ts == LastTs(xs)
  {
    SortSorts(xs);
    var ys := Sort(xs);
    assert ys[0] in multiset(xs) && ys[|xs| - 1] in multiset(xs);
    var i :| 0 <= i < |xs| && xs[i].ts == FirstTs(xs);
    var j :| 0 <= j < |xs| && xs[j].ts == LastTs(xs);
    assert xs[i] in multiset(ys) && xs[j] in multiset(ys);
  }

  // ------------------------------------------------------------------------ rearrangements

  lemma RemoveAt<T>(xs: seq<T>, i: nat)
    requires i < |xs|
    ensures multiset(xs[..i] + xs[i + 1..]) == multiset(xs) - multiset{xs[i]}
  {
    assert xs == xs[..i] + [xs[i]] + xs[i + 1..];
  }

  /** Where a rearrangement keeps the last element; without it the rest is still a rearrangement. */
  lemma {:induction false} Counterpart<T>(xs: seq<T>, ys: seq<T>) returns (i: nat)
    requires xs != [] && multiset(xs) == multiset(ys)
    ensures i < |ys| && ys[i] == xs[|xs| - 1]
    ensures multiset(ys[..i] + ys[i + 1..]) == multiset(xs[..|xs| - 1])
  {
    var n := |xs| - 1;
    assert xs[n] in multiset(ys);
    i :| 0 <= i < |ys| && ys[i] == xs[n];
    RemoveAt(ys, i);
    RemoveAt(xs, n);
    assert xs[..n] + xs[n + 1..] == xs[..n];
  }
}
