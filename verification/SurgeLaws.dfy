/** What sets the half-life of a bar: counts of posts, the median hour, and the factor that divides. */
module SurgeLaws {
  import opened Wrappers
  import opened Transcendental
  import opened Timeline
  import opened MarketData
  import opened Decay
  import opened Adaptive
  import opened SignalSeries
  import opened HourlyBars

  // ------------------------------------------------------------------------ the median hour

  /** The posts of one hour of the window; the last hour also has the post exactly at the end. */
  ghost function InHour(times: seq<int>, start: int, hours: Hours, j: nat): set<int> {
    set i | 0 <= i < |times| && start + j * ONE_HOUR <= times[i]
      && (times[i] < start + (j + 1) * ONE_HOUR || (j == hours - 1 && times[i] == start + hours * ONE_HOUR))
  }

  lemma {:induction false} HourIsCounted(times: seq<int>, start: int, hours: Hours, j: nat)
    requires j < hours
    ensures HourCount(times, start, hours, j) == |InHour(times, start, hours, j)|
  {
    CountIsASet(times, HourStart(start, j), HourEnd(start, hours, j));
    assert Within(times, HourStart(start, j), HourEnd(start, hours, j)) == InHour(times, start, hours, j);
  }

  ghost function UpTo(counts: seq<nat>, q: int): set<int> {
    set j | 0 <= j < |counts| && counts[j] <= q
  }

  lemma {:induction false} UpToGrows(counts: seq<nat>, x: nat, q: int)
    ensures |UpTo(counts + [x], q)| == |UpTo(counts, q)| + if x <= q then 1 else 0
  {
    var front, all := UpTo(counts, q), UpTo(counts + [x], q);
    if x <= q {
      assert all == front + {|counts|};
    } else {
      assert all == front;
    }
  }

  lemma {:induction false} AtMostIsASet(counts: seq<nat>, q: int)
    ensures AtMost(counts, q) == |UpTo(counts, q)|
  {
    if counts != [] {
      var front, x := counts[..|counts| - 1], counts[|counts| - 1];
      AtMostIsASet(front, q);
      UpToGrows(front, x, q);
      assert counts == front + [x];
    }
  }

  ghost function From(counts: seq<nat>, q: int): set<int> {
    set j | 0 <= j < |counts| && counts[j] >= q
  }

  lemma {:induction false} FromGrows(counts: seq<nat>, x: nat, q: int)
    ensures |From(counts + [x], q)| == |From(counts, q)| + if x >= q then 1 else 0
  {
    var front, all := From(counts, q), From(counts + [x], q);
    if x >= q {
      assert all == front + {|counts|};
    } else {
      assert all == front;
    }
  }

  lemma {:induction false} FromIsTheRest(counts: seq<nat>, q: int)
    ensures |From(counts, q)| == |counts| - |UpTo(counts, q - 1)|
  {
    if counts != [] {
      var front, x := counts[..|counts| - 1], counts[|counts| - 1];
      FromIsTheRest(front, q);
      FromGrows(front, x, q);
      UpToGrows(front, x, q - 1);
      assert counts == front + [x];
    }
  }

  /**
   * The lower and the upper middle of a list: at least half are up to `low`, and fewer than half below it;
   * at least half are from `high` on, and fewer than half above it.
   */
  ghost predicate AreMiddles(counts: seq<nat>, low: nat, high: nat) {
    && 2 * |UpTo(counts, low)| >= |counts| > 2 * |UpTo(counts, low as int - 1)|
    && 2 * |From(counts, high)| >= |counts| > 2 * |From(counts, high + 1)|
  }

  lemma {:induction false} SortedCounts(counts: seq<nat>, ordered: seq<nat>, i: nat)
    requires ordered == SortNats(counts) && i < |ordered|
    ensures |UpTo(counts, ordered[i])| > i
    ensures |UpTo(counts, ordered[i] as int - 1)| <= i
  {
    var x: int := ordered[i];
    SortNatsSorts(counts, x);
    SortNatsSorts(counts, x - 1);
    RankIsCount(ordered, x, i);
    RankIsCount(ordered, x - 1, i);
    AtMostIsASet(counts, x);
    AtMostIsASet(counts, x - 1);
  }

  lemma {:induction false} MiddlesOfSorted(counts: seq<nat>, ordered: seq<nat>, i: nat, j: nat)
    requires counts != [] && ordered == SortNats(counts)
    requires |counts| - 2 <= 2 * i < |counts| && |counts| - 1 <= 2 * j <= |counts| && j < |counts|
    ensures AreMiddles(counts, ordered[i], ordered[j])
  {
    SortedCounts(counts, ordered, i);
    SortedCounts(counts, ordered, j);
    FromIsTheRest(counts, ordered[j]);
    FromIsTheRest(counts, ordered[j] + 1);
  }

  lemma {:induction false} MiddlesAreUnique(counts: seq<nat>, low: nat, high: nat, low': nat, high': nat)
    requires AreMiddles(counts, low, high) && AreMiddles(counts, low', high')
    ensures low == low' && high == high'
  {
    UpToOrder(counts, low, low' - 1);
    UpToOrder(counts, low', low - 1);
    FromIsTheRest(counts, high);
    FromIsTheRest(counts, high + 1);
    FromIsTheRest(counts, high');
    FromIsTheRest(counts, high' + 1);
    UpToOrder(counts, high, high' - 1);
    UpToOrder(counts, high', high - 1);
  }

  lemma UpToOrder(counts: seq<nat>, p: int, q: int)
    ensures p <= q ==> |UpTo(counts, p)| <= |UpTo(counts, q)|
  {
    if p <= q {
      Subset(UpTo(counts, p), UpTo(counts, q));
    }
  }

  lemma Subset<T>(s: set<T>, t: set<T>)
    requires s <= t
    ensures |s| <= |t|
  {
    assert t == s + (t - s);
  }

  /** Posts per hour of the window that ends at `at`. */
  ghost predicate AreHourly(times: seq<int>, at: int, hours: Hours, counts: seq<nat>) {
    && |counts| == hours
    && forall j :: 0 <= j < hours ==> counts[j] == |InHour(times, at - hours * ONE_HOUR, hours, j)|
  }

  /** Halfway between the two middle hours, which are one when their number is odd. */
  ghost predicate IsMedianHour(times: seq<int>, at: int, hours: Hours, rate: real) {
    exists counts, low, high ::
      AreHourly(times, at, hours, counts) && AreMiddles(counts, low, high) && 2.0 * rate == (low + high) as real
  }

  lemma {:induction false} CountsAreHourly(times: seq<int>, at: int, hours: Hours)
    ensures AreHourly(times, at, hours, HourCounts(times, at - hours * HOUR, hours))
  {
    var start := at - hours * HOUR;
    forall j | 0 <= j < hours
      ensures HourCounts(times, start, hours)[j] == |InHour(times, start, hours, j)|
    {
      HourIsCounted(times, start, hours, j);
    }
  }

  lemma {:induction false} MedianIsMiddle(counts: seq<nat>) returns (low: nat, high: nat)
    requires counts != []
    ensures AreMiddles(counts, low, high) && 2.0 * Median(SortNats(counts)) == (low + high) as real
  {
    var ordered := SortNats(counts);
    low, high := ordered[(|counts| - 1) / 2], ordered[|counts| / 2];
    MiddlesOfSorted(counts, ordered, (|counts| - 1) / 2, |counts| / 2);
    MedianOf(ordered, low, high);
  }

  lemma {:induction false} MedianIsTheOnlyMiddle(times: seq<int>, at: int, hours: Hours, counts: seq<nat>, rate: real)
    requires AreHourly(times, at, hours, counts)
    ensures rate == Median(SortNats(counts)) <==> IsMedianHour(times, at, hours, rate)
  {
    var low, high := MedianIsMiddle(counts);
    if IsMedianHour(times, at, hours, rate) {
      var others, low', high' :| AreHourly(times, at, hours, others) && AreMiddles(others, low', high') &&
        2.0 * rate == (low' + high') as real;
      assert others == counts;
      MiddlesAreUnique(counts, low, high, low', high');
    }
  }

  /** The baseline is the median of the hourly counts. */
  lemma {:induction false} BaselineIsTheMedianHour(times: seq<int>, at: int, hours: Hours, rate: real)
    ensures rate == BaselineRate(times, at, hours) <==> IsMedianHour(times, at, hours, rate)
  {
    CountsAreHourly(times, at, hours);
    MedianIsTheOnlyMiddle(times, at, hours, HourCounts(times, at - hours * HOUR, hours), rate);
  }

  lemma MedianOf(ordered: seq<nat>, low: nat, high: nat)
    requires ordered != [] && low == ordered[(|ordered| - 1) / 2] && high == ordered[|ordered| / 2]
    ensures 2.0 * Median(ordered) == (low + high) as real
  {
  }

  // ------------------------------------------------------------------- the factor that divides

  /** Divided by `f`, neither the posts of the bar nor the price move exceeds its trigger. */
  ghost predicate Tames(a: Adaptation, recent: real, baseline: real, move: real, f: real) {
    && f >= 1.0
    && (a.surgeMultiple > 0.0 ==>
          recent <= Times(f, Times(if baseline > 1.0 then baseline else 1.0, a.surgeMultiple)))
    && (a.priceThreshold > 0.0 ==>
          -Times(f, a.priceThreshold) <= move <= Times(f, a.priceThreshold))
  }

  ghost predicate IsLeastTaming(a: Adaptation, recent: real, baseline: real, move: real, f: real) {
    Tames(a, recent, baseline, move, f) && forall g :: Tames(a, recent, baseline, move, g) ==> f <= g
  }

  lemma QuotientCovers(x: real, y: real, f: real)
    requires y > 0.0
    ensures x / y <= f <==> x <= Times(f, y)
  {
    var q := x / y;
    assert q * y == x;
    if q <= f {
      MulMonotone(q, f, y);
    } else {
      MulMonotone(f, q, y);
    }
  }

  lemma {:induction false} TamesAboveTheFactor(a: Adaptation, recent: real, baseline: real, move: real, f: real)
    ensures Tames(a, recent, baseline, move, f) <==> f >= a.Factor(recent, baseline, move)
  {
    if a.surgeMultiple > 0.0 {
      SurgeIs(a, recent, baseline);
      QuotientCovers(recent, Times(Max(baseline, MIN_BASELINE_POST_RATE), a.surgeMultiple), f);
    }
    if a.priceThreshold > 0.0 {
      QuotientCovers(Abs(move), a.priceThreshold, f);
    }
  }

  /** `h` is `base / f`, or the floor when that is above it. */
  ghost predicate IsDivided(base: real, f: real, floor: real, h: real) {
    h >= floor && Times(h, f) >= base && (Times(h, f) == base || h == floor)
  }

  lemma FlooredQuotient(base: real, f: real, floor: real)
    requires f > 0.0
    ensures IsDivided(base, f, floor, Max(floor, base / f))
  {
    var q := base / f;
    assert Times(q, f) == base;
    if floor > q {
      MulMonotone(q, floor, f);
    }
  }

  ghost predicate IsTamed(base: real, a: Adaptation, recent: real, baseline: real, move: real, h: real) {
    exists f :: IsLeastTaming(a, recent, baseline, move, f) && IsDivided(base, f, a.minHalfLife, h)
  }

  /** The half-life is the base over the least factor that tames both triggers, and at least the floor. */
  lemma {:induction false} LeastFactorDivides(base: real, a: Adaptation, recent: real, baseline: real, move: real)
    requires base > 0.0 && a.minHalfLife > 0.0 && a.enabled
    ensures EffectiveHalfLife(base, a, recent, baseline, move).Ok?
    ensures IsTamed(base, a, recent, baseline, move, EffectiveHalfLife(base, a, recent, baseline, move).value)
  {
    var f := a.Factor(recent, baseline, move);
    forall g
      ensures Tames(a, recent, baseline, move, g) <==> g >= f
    {
      TamesAboveTheFactor(a, recent, baseline, move, g);
    }
    FlooredQuotient(base, f, a.minHalfLife);
    assert IsLeastTaming(a, recent, baseline, move, f);
    assert IsDivided(base, f, a.minHalfLife, Max(a.minHalfLife, base / f));
  }

  // ------------------------------------------------------------------------- the bar's inputs

  /** The price at the bar less the price a step before, and nothing when either is unknown. */
  predicate IsMove(prices: seq<PriceTick>, before: int, ts: int, move: real) {
    if PriceAt(prices, before).Some? && PriceAt(prices, ts).Some?
    then PriceAt(prices, before).value + move == PriceAt(prices, ts).value
    else move == 0.0
  }

  /** A bar's half-life comes from the posts of its step, the median hour of its last day, and its own price move. */
  lemma {:induction false} BarHalfLifeOf(posts: seq<Post>, prices: seq<PriceTick>, settings: Settings, ts: int,
      recent: real, baseline: real, move: real)
    requires recent == |set i | 0 <= i < |posts| && ts - settings.freqHours * ONE_HOUR < posts[i].ts <= ts| as real
    requires IsMedianHour(Stamps(posts), ts, 24, baseline)
    requires IsMove(prices, ts - settings.freqHours * ONE_HOUR, ts, move)
    ensures HalfLifeAt(posts, prices, settings, ts) ==
      EffectiveHalfLife(settings.baseHalfLife, settings.adaptation, recent, baseline, move)
  {
    RecentPosts(posts, settings, ts);
    BaselineIsTheMedianHour(Stamps(posts), ts, 24, baseline);
  }
}
