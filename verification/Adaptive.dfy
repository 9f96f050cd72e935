/** The adaptive half-life, and the median posting rate it measures surges against. */
module Adaptive {
  import opened Wrappers
  import opened Transcendental
  import opened Lmsr
  import opened Timeline
  import opened Decay

  /** A positive number of hours. */
  type Hours = h: nat | h > 0 witness 1

  /** Floor under the volume baseline: most markets are quiet most hours. */
  const MIN_BASELINE_POST_RATE: real := 1.0

  datatype Adaptation = Adaptation(enabled: bool, minHalfLife: real, surgeMultiple: real, priceThreshold: real)
  {
    function VolumeFactor(recent: real, baseline: real): (factor: real)
      ensures factor >= 1.0
    {
      if surgeMultiple > 0.0 then Max(1.0, Surge(recent, baseline)) else 1.0
    }

    function Surge(recent: real, baseline: real): real
      requires surgeMultiple > 0.0
    {
      var floor := Max(baseline, MIN_BASELINE_POST_RATE);
      assert floor * surgeMultiple > 0.0;
      recent / (floor * surgeMultiple)
    }

    function PriceFactor(move: real): (factor: real)
      ensures factor >= 1.0
    {
      if priceThreshold > 0.0 then Max(1.0, Abs(move) / priceThreshold) else 1.0
    }

    /** How many times past its trigger the stronger of the two conditions is. */
    function Factor(recent: real, baseline: real, move: real): (factor: real)
      ensures factor >= 1.0
    {
      Max(VolumeFactor(recent, baseline), PriceFactor(move))
    }

    /** Neither trigger is exceeded. */
    predicate Quiet(recent: real, baseline: real, move: real) {
      && (surgeMultiple > 0.0 ==> recent <= Max(baseline, MIN_BASELINE_POST_RATE) * surgeMultiple)
      && (priceThreshold > 0.0 ==> Abs(move) <= priceThreshold)
    }
  }

  function EffectiveHalfLife(base: real, a: Adaptation, recent: real, baseline: real,
      move: real): Result<real, string>
  {
    if base <= 0.0 then Err("base_half_life_seconds must be positive")
    else if a.minHalfLife <= 0.0 then Err("min_half_life_seconds must be positive")
    else if !a.enabled then Ok(base)
    else Ok(Max(a.minHalfLife, base / a.Factor(recent, baseline, move)))
  }

  lemma QuotientAtMostOne(x: real, y: real)
    requires y > 0.0
    ensures x / y <= 1.0 <==> x <= y
  {
  }

  lemma DivideAntitone(x: real, y: real, z: real)
    requires x >= 0.0 && 0.0 < y <= z
    ensures x / z <= x / y
    ensures x > 0.0 && y < z ==> x / z < x / y
  {
    var u, v := x / y, x / z;
    assert u * y == x && v * z == x;
    if v > u {
      MulMonotone(u, v, z);
      MulMonotone(y, z, u);
    }
    if v == u && x > 0.0 && y < z {
      MulMonotone(y, z, u);
    }
  }

  lemma {:induction false} QuietFactor(a: Adaptation, recent: real, baseline: real, move: real)
    ensures a.Factor(recent, baseline, move) == 1.0 <==> a.Quiet(recent, baseline, move)
  {
    if a.surgeMultiple > 0.0 {
      QuotientAtMostOne(recent, Max(baseline, MIN_BASELINE_POST_RATE) * a.surgeMultiple);
    }
    if a.priceThreshold > 0.0 {
      QuotientAtMostOne(Abs(move), a.priceThreshold);
    }
  }

  /**
   * The half-life never leaves `[min(base, floor), max(base, floor)]`, and the base survives a
   * quiet market only where the floor is not above it; the documentation says it always does.
   */
  lemma {:induction false} QuietKeepsTheBase(base: real, a: Adaptation, recent: real, baseline: real, move: real)
    requires base > 0.0 && a.minHalfLife > 0.0
    ensures var h := EffectiveHalfLife(base, a, recent, baseline, move);
      && h.Ok?
      && 0.0 < Min(base, a.minHalfLife) <= h.value <= Max(base, a.minHalfLife)
      && (h.value == base <==>
            !a.enabled || a.minHalfLife == base || (a.minHalfLife < base && a.Quiet(recent, baseline, move)))
  {
    var f := a.Factor(recent, baseline, move);
    QuietFactor(a, recent, baseline, move);
    DivideAntitone(base, 1.0, f);
  }

  /** A busier hour or a larger move never lengthens the memory. */
  lemma {:induction false} MoreNewsDecaysFaster(base: real, a: Adaptation, recent: real, busier: real, baseline: real,
      calmer: real,
      move: real, larger: real)
    requires base > 0.0 && a.minHalfLife > 0.0
    requires 0.0 <= recent <= busier && baseline >= calmer && Abs(move) <= Abs(larger)
    ensures EffectiveHalfLife(base, a, busier, calmer, larger).value
      <= EffectiveHalfLife(base, a, recent, baseline, move).value
  {
    if a.surgeMultiple > 0.0 {
      SurgeIncreases(a, recent, busier, baseline, calmer);
    }
    if a.priceThreshold > 0.0 {
      DivideMonotone(Abs(move), Abs(larger), a.priceThreshold);
    }
    DivideAntitone(base, a.Factor(recent, baseline, move), a.Factor(busier, calmer, larger));
  }

  lemma {:induction false} QuotientOrder(x: real, y: real, lower: real, higher: real)
    requires 0.0 <= x <= y && 0.0 < lower <= higher
    ensures x / higher <= y / lower
  {
    DivideAntitone(x, lower, higher);
    DivideMonotone(x, y, lower);
  }

  lemma SurgeIs(a: Adaptation, recent: real, baseline: real)
    requires a.surgeMultiple > 0.0
    ensures Times(Max(baseline, MIN_BASELINE_POST_RATE), a.surgeMultiple) > 0.0
    ensures a.Surge(recent, baseline) == recent / Times(Max(baseline, MIN_BASELINE_POST_RATE), a.surgeMultiple)
  {
    SameSign(Max(baseline, MIN_BASELINE_POST_RATE), a.surgeMultiple);
  }

  lemma {:induction false} SurgeIncreases(a: Adaptation, recent: real, busier: real, baseline: real, calmer: real)
    requires a.surgeMultiple > 0.0 && 0.0 <= recent <= busier && baseline >= calmer
    ensures a.Surge(recent, baseline) <= a.Surge(busier, calmer)
  {
    var f, g := Max(baseline, MIN_BASELINE_POST_RATE), Max(calmer, MIN_BASELINE_POST_RATE);
    MulMonotone(g, f, a.surgeMultiple);
    SameSign(g, a.surgeMultiple);
    SurgeIs(a, recent, baseline);
    SurgeIs(a, busier, calmer);
    QuotientOrder(recent, busier, Times(g, a.surgeMultiple), Times(f, a.surgeMultiple));
  }

  // ----------------------------------------------------------------------- counting by scan

  /** How many times fall in `[lo, hi]`. */
  function CountWithin(times: seq<int>, lo: int, hi: int): (n: nat)
    ensures n <= |times|
  {
    if times == [] then 0
    else CountWithin(times[..|times| - 1], lo, hi) + if lo <= times[|times| - 1] <= hi then 1 else 0
  }

  lemma {:induction false} CountSnoc(times: seq<int>, t: int, lo: int, hi: int)
    ensures CountWithin(times + [t], lo, hi) == CountWithin(times, lo, hi) + if lo <= t <= hi then 1 else 0
  {
    assert (times + [t])[..|times|] == times;
  }

  lemma {:induction false} CountPullOut(times: seq<int>, lo: int, hi: int, i: nat)
    requires i < |times|
    ensures CountWithin(times, lo, hi)
      == CountWithin(times[..i] + times[i + 1..], lo, hi) + if lo <= times[i] <= hi then 1 else 0
  {
    var n := |times| - 1;
    if i == n {
      assert times[..i] + times[i + 1..] == times[..n];
    } else {
      CountPullOut(times[..n], lo, hi, i);
      var without := times[..i] + times[i + 1..];
      assert without[..n - 1] == times[..n][..i] + times[..n][i + 1..];
    }
  }

  lemma {:induction false} CountIgnoresOrder(times: seq<int>, others: seq<int>, lo: int, hi: int)
    requires multiset(times) == multiset(others)
    ensures CountWithin(times, lo, hi) == CountWithin(others, lo, hi)
  {
    if times == [] {
      assert |multiset(others)| == 0;
    } else {
      var i := Counterpart(times, others);
      CountIgnoresOrder(times[..|times| - 1], others[..i] + others[i + 1..], lo, hi);
      CountPullOut(others, lo, hi, i);
    }
  }

  /** Adjoining ranges add up. */
  lemma {:induction false} CountAdjoins(times: seq<int>, lo: int, mid: int, hi: int)
    requires lo - 1 <= mid <= hi
    ensures CountWithin(times, lo, mid) + CountWithin(times, mid + 1, hi) == CountWithin(times, lo, hi)
  {
    if times != [] {
      CountAdjoins(times[..|times| - 1], lo, mid, hi);
    }
  }

  /** Two binary searches count what the scan would. */
  lemma {:induction false} CountBetweenSearches(times: seq<int>, after: int, upTo: int)
    requires after <= upTo
    ensures CountUpTo(times, upTo) - CountUpTo(times, after) == CountWithin(times, after + 1, upTo)
  {
    if times != [] {
      CountBetweenSearches(times[..|times| - 1], after, upTo);
    }
  }

  // ------------------------------------------------------------------------- hourly buckets

  function HourStart(start: int, j: int): int {
    start + j * HOUR
  }

  /** The end of hour `j`; the last hour also takes a post exactly at the end of the window. */
  function HourEnd(start: int, hours: Hours, j: int): int {
    if j == hours - 1 then start + hours * HOUR else start + (j + 1) * HOUR - 1
  }

  function HourCount(times: seq<int>, start: int, hours: Hours, j: int): nat {
    CountWithin(times, HourStart(start, j), HourEnd(start, hours, j))
  }

  /** Posts in each hour of the lookback window, by full scans. */
  function HourCounts(times: seq<int>, start: int, hours: Hours): (counts: seq<nat>)
  {
    seq(hours, j => HourCount(times, start, hours, j))
  }

  function BucketOf(start: int, hours: Hours, t: int): int {
    var index := (t - start) / HOUR;
    if index < hours - 1 then index else hours - 1
  }

  lemma {:induction false} BucketsPartition(start: int, hours: Hours, t: int, j: nat)
    requires start <= t <= start + hours * HOUR && j < hours
    ensures 0 <= BucketOf(start, hours, t) < hours
    ensures BucketOf(start, hours, t) == j <==> HourStart(start, j) <= t <= HourEnd(start, hours, j)
  {
    var index := (t - start) / HOUR;
    assert index * HOUR <= t - start < (index + 1) * HOUR;
  }

  method FillBuckets(window: seq<int>, start: int, hours: Hours) returns (buckets: array<nat>)
    requires forall i :: 0 <= i < |window| ==> start <= window[i] <= start + hours * HOUR
    ensures fresh(buckets) && buckets[..] == HourCounts(window, start, hours)
  {
    buckets := new nat[hours](_ => 0);
    for i := 0 to |window|
      invariant fresh(buckets) && buckets.Length == hours
      invariant forall j :: 0 <= j < hours ==> buckets[j] == HourCount(window[..i], start, hours, j)
    {
      var index := BucketOf(start, hours, window[i]);
      assert window[..i + 1] == window[..i] + [window[i]];
      forall j | 0 <= j < hours
        ensures HourCount(window[..i + 1], start, hours, j)
          == HourCount(window[..i], start, hours, j) + if j == index then 1 else 0
      {
        BucketsPartition(start, hours, window[i], j);
        CountSnoc(window[..i], window[i], HourStart(start, j), HourEnd(start, hours, j));
      }
      BucketsPartition(start, hours, window[i], 0);
      buckets[index] := buckets[index] + 1;
    }
    assert window[..|window|] == window;
  }

  // --------------------------------------------------------------------------------- median

  predicate NonDecreasing(xs: seq<nat>) {
    forall i, j :: 0 <= i < j < |xs| ==> xs[i] <= xs[j]
  }

  function InsertNat(ys: seq<nat>, x: nat): (zs: seq<nat>)
    ensures |zs| == |ys| + 1
  {
    if ys == [] || ys[|ys| - 1] <= x then ys + [x]
    else InsertNat(ys[..|ys| - 1], x) + [ys[|ys| - 1]]
  }

  function SortNats(xs: seq<nat>): (ys: seq<nat>)
    ensures |ys| == |xs|
  {
    if xs == [] then [] else InsertNat(SortNats(xs[..|xs| - 1]), xs[|xs| - 1])
  }

  /** How many are at most `q`. */
  function AtMost(xs: seq<nat>, q: int): (n: nat)
    ensures n <= |xs|
  {
    if xs == [] then 0 else AtMost(xs[..|xs| - 1], q) + if xs[|xs| - 1] <= q then 1 else 0
  }

  lemma {:induction false} AtMostSnoc(xs: seq<nat>, x: nat, q: int)
    ensures AtMost(xs + [x], q) == AtMost(xs, q) + if x <= q then 1 else 0
  {
    assert (xs + [x])[..|xs|] == xs;
  }

  lemma {:induction false} InsertNatLast(ys: seq<nat>, x: nat)
    requires NonDecreasing(ys)
    ensures NonDecreasing(InsertNat(ys, x))
    ensures var last := InsertNat(ys, x)[|ys|]; last == if ys == [] || ys[|ys| - 1] <= x then x else ys[|ys| - 1]
  {
    if ys != [] && ys[|ys| - 1] > x {
      InsertNatLast(ys[..|ys| - 1], x);
    }
  }

  lemma {:induction false} InsertNatCounts(ys: seq<nat>, x: nat, q: int)
    ensures AtMost(InsertNat(ys, x), q) == AtMost(ys, q) + if x <= q then 1 else 0
  {
    if ys == [] || ys[|ys| - 1] <= x {
      AtMostSnoc(ys, x, q);
    } else {
      var n := |ys| - 1;
      InsertNatCounts(ys[..n], x, q);
      AtMostSnoc(InsertNat(ys[..n], x), ys[n], q);
    }
  }

  lemma {:induction false} SortNatsSorts(xs: seq<nat>, q: int)
    ensures NonDecreasing(SortNats(xs))
    ensures AtMost(SortNats(xs), q) == AtMost(xs, q)
  {
    if xs != [] {
      var n := |xs| - 1;
      SortNatsSorts(xs[..n], q);
      InsertNatLast(SortNats(xs[..n]), xs[n]);
      InsertNatCounts(SortNats(xs[..n]), xs[n], q);
    }
  }

  /** In order, rank and count are the same thing. */
  lemma {:induction false} RankIsCount(ys: seq<nat>, q: int, i: nat)
    requires NonDecreasing(ys) && i < |ys|
    ensures ys[i] <= q <==> i < AtMost(ys, q)
  {
    var n := |ys| - 1;
    if i < n {
      RankIsCount(ys[..n], q, i);
    } else if n > 0 {
      RankIsCount(ys[..n], q, n - 1);
    }
  }

  function Median(ordered: seq<nat>): real
    requires ordered != []
  {
    var mid := |ordered| / 2;
    if |ordered| % 2 == 1 then ordered[mid] as real
    else (ordered[mid - 1] + ordered[mid]) as real / 2.0
  }

  function BaselineRate(times: seq<int>, at: int, hours: Hours): real
  {
    Median(SortNats(HourCounts(times, at - hours * HOUR, hours)))
  }

  // --------------------------------------------------------------- the fast and the slow path

  lemma {:induction false} CountNothing(times: seq<int>, lo: int, hi: int)
    requires forall i :: 0 <= i < |times| ==> !(lo <= times[i] <= hi)
    ensures CountWithin(times, lo, hi) == 0
  {
    if times != [] {
      CountNothing(times[..|times| - 1], lo, hi);
    }
  }

  lemma {:induction false} CountConcat(xs: seq<int>, ys: seq<int>, lo: int, hi: int)
    ensures CountWithin(xs + ys, lo, hi) == CountWithin(xs, lo, hi) + CountWithin(ys, lo, hi)
  {
    if ys == [] {
      assert xs + ys == xs;
    } else {
      var n := |ys| - 1;
      assert xs + ys == (xs + ys[..n]) + [ys[n]];
      CountConcat(xs, ys[..n], lo, hi);
      CountSnoc(xs + ys[..n], ys[n], lo, hi);
    }
  }

  /** Cutting away what is outside the window changes no count inside it. */
  lemma {:induction false} SliceCounts(times: seq<int>, a: nat, b: nat, lo: int, hi: int)
    requires a <= b <= |times|
    requires forall i :: 0 <= i < |times| && !(a <= i < b) ==> !(lo <= times[i] <= hi)
    ensures CountWithin(times[a..b], lo, hi) == CountWithin(times, lo, hi)
  {
    assert times == times[..a] + times[a..b] + times[b..];
    CountConcat(times[..a] + times[a..b], times[b..], lo, hi);
    CountConcat(times[..a], times[a..b], lo, hi);
    CountNothing(times[..a], lo, hi);
    CountNothing(times[b..], lo, hi);
  }

  function Restricted(times: seq<int>, lo: int, hi: int): (kept: seq<int>)
    ensures forall i :: 0 <= i < |kept| ==> lo <= kept[i] <= hi
  {
    if times == [] then []
    else Restricted(times[..|times| - 1], lo, hi) + if lo <= times[|times| - 1] <= hi then [times[|times| - 1]] else []
  }

  lemma {:induction false} RestrictedCounts(times: seq<int>, lo: int, hi: int, from: int, to: int)
    requires lo <= from && to <= hi
    ensures CountWithin(Restricted(times, lo, hi), from, to) == CountWithin(times, from, to)
  {
    if times != [] {
      var front, t := times[..|times| - 1], times[|times| - 1];
      RestrictedCounts(front, lo, hi, from, to);
      if lo <= t <= hi {
        CountSnoc(Restricted(front, lo, hi), t, from, to);
      } else {
        assert Restricted(front, lo, hi) + [] == Restricted(front, lo, hi);
      }
    }
  }

  lemma {:induction false} HoursAreInside(start: int, hours: Hours, j: nat)
    requires j < hours
    ensures start <= HourStart(start, j) && HourEnd(start, hours, j) <= start + hours * HOUR
  {
  }

  /** The window of posts, by two binary searches when the caller vouches for the order. */
  method WindowOf(times: seq<int>, start: int, hours: Hours, sortedInput: bool) returns (window: seq<int>)
    requires sortedInput ==> Ascending(times)
    ensures forall i :: 0 <= i < |window| ==> start <= window[i] <= start + hours * HOUR
    ensures HourCounts(window, start, hours) == HourCounts(times, start, hours)
  {
    var at := start + hours * HOUR;
    if sortedInput {
      var lo := BisectLeft(times, start);
      var hi := BisectRight(times, at);
      CountBetweenSearches(times, start - 1, at);
      window := times[lo..hi];
      forall j | 0 <= j < hours
        ensures HourCount(window, start, hours, j) == HourCount(times, start, hours, j)
      {
        HoursAreInside(start, hours, j);
        SliceCounts(times, lo, hi, HourStart(start, j), HourEnd(start, hours, j));
      }
    } else {
      window := Restricted(times, start, at);
      forall j | 0 <= j < hours
        ensures HourCount(window, start, hours, j) == HourCount(times, start, hours, j)
      {
        HoursAreInside(start, hours, j);
        RestrictedCounts(times, start, at, HourStart(start, j), HourEnd(start, hours, j));
      }
    }
  }

  /** Both paths compute the median of the full scans. */
  method BaselineHourlyRate(times: seq<int>, at: int, lookbackHours: int, sortedInput: bool)
    returns (r: Result<real, string>)
    requires sortedInput ==> Ascending(times)
    ensures r.Err? <==> lookbackHours <= 0
    ensures r.Ok? ==> r.value == BaselineRate(times, at, lookbackHours)
  {
    if lookbackHours <= 0 {
      return Err("lookback_hours must be positive");
    }
    var start := at - lookbackHours * HOUR;
    var window := WindowOf(times, start, lookbackHours, sortedInput);
    var buckets := FillBuckets(window, start, lookbackHours);
    r := Ok(Median(SortNats(buckets[..])));
  }

  lemma {:induction false} BaselineIgnoresOrder(times: seq<int>, others: seq<int>, at: int, hours: Hours)
    requires multiset(times) == multiset(others)
    ensures BaselineRate(times, at, hours) == BaselineRate(others, at, hours)
  {
    var start := at - hours * HOUR;
    forall j | 0 <= j < hours
      ensures HourCount(times, start, hours, j) == HourCount(others, start, hours, j)
    {
      CountIgnoresOrder(times, others, HourStart(start, j), HourEnd(start, hours, j));
    }
    assert HourCounts(times, start, hours) == HourCounts(others, start, hours);
  }

  function Total(counts: seq<nat>): nat {
    if counts == [] then 0 else Total(counts[..|counts| - 1]) + counts[|counts| - 1]
  }

  lemma {:induction false} HoursAddUp(times: seq<int>, start: int, hours: Hours, n: nat)
    requires n < hours
    ensures Total(HourCounts(times, start, hours)[..n]) == CountWithin(times, start, HourStart(start, n) - 1)
  {
    var counts := HourCounts(times, start, hours);
    if n == 0 {
      CountNothing(times, start, start - 1);
    } else {
      HoursAddUp(times, start, hours, n - 1);
      assert counts[..n][..n - 1] == counts[..n - 1];
      CountAdjoins(times, start, HourStart(start, n - 1) - 1, HourStart(start, n) - 1);
    }
  }

  /** No post of the window is dropped or counted twice, the one exactly at its end included. */
  lemma {:induction false} BucketsCoverTheWindow(times: seq<int>, at: int, hours: Hours)
    ensures Total(HourCounts(times, at - hours * HOUR, hours)) == CountWithin(times, at - hours * HOUR, at)
  {
    var start, n := at - hours * HOUR, hours - 1;
    var counts := HourCounts(times, start, hours);
    HoursAddUp(times, start, hours, n);
    CountAdjoins(times, start, HourStart(start, n) - 1, at);
  }

  lemma {:induction false} MedianRank(ordered: seq<nat>, q: int)
    requires ordered != [] && NonDecreasing(ordered)
    ensures 2 * AtMost(ordered, q) > |ordered| ==> Median(ordered) <= q as real
    ensures 2 * AtMost(ordered, q) < |ordered| ==> Median(ordered) > q as real
  {
    var mid := |ordered| / 2;
    RankIsCount(ordered, q, mid);
    if |ordered| % 2 == 0 {
      RankIsCount(ordered, q, mid - 1);
      HalfOfSum(ordered[mid - 1], ordered[mid], q);
    }
  }

  lemma HalfOfSum(x: int, y: int, q: int)
    ensures x <= q && y <= q ==> (x + y) as real / 2.0 <= q as real
    ensures x > q && y > q ==> (x + y) as real / 2.0 > q as real
  {
  }

  lemma {:induction false} MedianIsCentral(counts: seq<nat>, q: int)
    requires counts != []
    ensures 2 * AtMost(counts, q) > |counts| ==> Median(SortNats(counts)) <= q as real
    ensures 2 * AtMost(counts, q) < |counts| ==> Median(SortNats(counts)) > q as real
  {
    SortNatsSorts(counts, q);
    MedianRank(SortNats(counts), q);
  }

  /**
   * Why a median: while more than half of the hours stay at `q` or below, no burst in the others
   * raises it past `q`.
   */
  lemma {:induction false} BurstsDoNotRaiseTheBaseline(times: seq<int>, at: int, hours: Hours, q: int)
    ensures var quiet := AtMost(HourCounts(times, at - hours * HOUR, hours), q);
      && (2 * quiet > hours ==> BaselineRate(times, at, hours) <= q as real)
      && (2 * quiet < hours ==> BaselineRate(times, at, hours) > q as real)
  {
    MedianIsCentral(HourCounts(times, at - hours * HOUR, hours), q);
  }
}
