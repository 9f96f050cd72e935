/** Where the points of a built series stand, and which posts and prices stand behind them. */
module HourlyBars {
  import opened Wrappers
  import opened Transcendental
  import opened Timeline
  import opened MarketData
  import opened Decay
  import opened SignalLaws
  import opened Adaptive
  import opened Calibration
  import opened SignalSeries
  import opened Causality
  import Primes

  /** An hour and a week in microseconds. */
  const ONE_HOUR: int := 3_600_000_000
  const ONE_WEEK: int := 604_800_000_000

  // ------------------------------------------------------------------------------- the grid

  lemma {:induction false} CursorFormula(first: int, step: int, n: nat)
    ensures CursorAt(first, step, n) == first + n * step
  {
    if n > 0 {
      CursorFormula(first, step, n - 1);
      assert n * step == (n - 1) * step + step;
    }
  }

  /** The hour of the earliest post, one step on. */
  lemma {:induction false} FirstBarIsOnTheHour(posts: seq<Post>, settings: Settings, first: int)
    requires posts != [] && first == FirstBar(posts, settings)
    ensures first % ONE_HOUR == 0
    ensures first - settings.freqHours * ONE_HOUR <= FirstTs(posts) < first - settings.freqHours * ONE_HOUR + ONE_HOUR
  {
    var hour := FirstTs(posts) / ONE_HOUR;
    assert first == (hour + settings.freqHours) * ONE_HOUR;
    Primes.ModOfMultiple(ONE_HOUR, hour + settings.freqHours);
  }

  /** Every joined point is the point of some row. */
  lemma {:induction false} JoinedFrom<T>(rows: seq<Result<Option<T>, string>>, k: nat) returns (i: nat)
    requires Joined(rows).Ok? && k < |Joined(rows).value|
    ensures i < |rows| && rows[i] == Ok(Some(Joined(rows).value[k]))
  {
    var n := |rows| - 1;
    assert rows == rows[..n] + [rows[n]];
    JoinedAppend(rows[..n], rows[n]);
    if k < |Joined(rows[..n]).value| {
      i := JoinedFrom(rows[..n], k);
    } else {
      i := n;
    }
  }

  lemma {:induction false} BarsEnd(first: int, end: int, step: int, n: nat)
    requires step > 0 && n < Bars(first, end, step)
    ensures CursorAt(first, step, n) <= end
    decreases n
  {
    CursorFormula(first, step, n);
    if n > 0 {
      BarsEnd(first + step, end, step, n - 1);
      CursorFormula(first + step, step, n - 1);
      assert n * step == (n - 1) * step + step;
    }
  }

  /** Every point is the bar of some whole number of steps after the first, within the data and the clock. */
  lemma {:induction false} PointIsABar(m: Math, posts: seq<Post>, prices: seq<PriceTick>, settings: Settings,
      now: int, k: nat) returns (n: nat)
    requires posts != [] && SeriesOf(m, posts, prices, settings, now).Ok?
    requires k < |SeriesOf(m, posts, prices, settings, now).value|
    ensures var point, cursor := SeriesOf(m, posts, prices, settings, now).value[k],
        CursorAt(FirstBar(posts, settings), settings.Step(), n);
      && point.ts == cursor <= LastBar(posts, now)
      && BarAt(m, posts, prices, settings, cursor) == Ok(Some(point))
  {
    var first, end, step := FirstBar(posts, settings), LastBar(posts, now), settings.Step();
    var rows := BarRows(m, posts, prices, settings, first, Bars(first, end, step));
    n := JoinedFrom(rows, k);
    assert IsBar(m, posts, prices, settings, first, rows, n);
    PointIsAtItsBar(m, posts, prices, settings, CursorAt(first, step, n));
    BarsEnd(first, end, step, n);
  }

  /** The latest of the posts and the clock. */
  ghost predicate IsEnd(posts: seq<Post>, now: int, end: int) {
    && now <= end && (forall i :: 0 <= i < |posts| ==> posts[i].ts <= end)
    && (end == now || exists i :: 0 <= i < |posts| && posts[i].ts == end)
  }

  /** A bar: a whole number of steps past the hour of the earliest post, and not past the end. */
  ghost predicate IsBarTime(posts: seq<Post>, freqHours: int, end: int, ts: int)
    requires posts != []
  {
    && ts % ONE_HOUR == 0 && ts <= end
    && exists n: nat :: n > 0 && HoursPast(FirstTs(posts), n * freqHours, ts)
  }

  /** `ts` is `hours` after the start of the hour `earliest` is in. */
  predicate HoursPast(earliest: int, hours: int, ts: int) {
    ts - hours * ONE_HOUR <= earliest < ts - hours * ONE_HOUR + ONE_HOUR
  }

  lemma StepsAreHours(n: nat, freq: int, first: int, step: int, earliest: int)
    requires step == freq * ONE_HOUR && first % ONE_HOUR == 0 && HoursPast(earliest, freq, first)
    ensures (first + n * step) % ONE_HOUR == 0
    ensures HoursPast(earliest, (n + 1) * freq, first + n * step)
  {
    var shift := n * freq;
    assert n * step == shift * ONE_HOUR;
    assert (n + 1) * freq == shift + freq;
    var hour := first / ONE_HOUR;
    assert first == hour * ONE_HOUR;
    assert first + n * step == (hour + shift) * ONE_HOUR;
    Primes.ModOfMultiple(ONE_HOUR, hour + shift);
  }

  /** The points stand on whole hours, whole steps apart, in time order, up to the last post or the clock. */
  lemma {:induction false} PointsAreOnTheHour(m: Math, posts: seq<Post>, prices: seq<PriceTick>, settings: Settings,
      now: int, k: nat)
    requires posts != [] && SeriesOf(m, posts, prices, settings, now).Ok?
    requires k < |SeriesOf(m, posts, prices, settings, now).value|
    ensures IsEnd(posts, now, LastBar(posts, now))
    ensures IsBarTime(posts, settings.freqHours, LastBar(posts, now),
      SeriesOf(m, posts, prices, settings, now).value[k].ts)
  {
    var first, step := FirstBar(posts, settings), settings.Step();
    var n := PointIsABar(m, posts, prices, settings, now, k);
    CursorFormula(first, step, n);
    FirstBarIsOnTheHour(posts, settings, first);
    StepsAreHours(n, settings.freqHours, first, step, FirstTs(posts));
  }

  /** The bar count behind a bar time. */
  lemma BarTimeIsCursor(posts: seq<Post>, settings: Settings, end: int, ts: int) returns (n: nat)
    requires posts != [] && IsBarTime(posts, settings.freqHours, end, ts)
    ensures ts == CursorAt(FirstBar(posts, settings), settings.Step(), n)
  {
    var k: nat :| k > 0 && HoursPast(FirstTs(posts), k * settings.freqHours, ts);
    n := k - 1;
    var first, step := FirstBar(posts, settings), settings.Step();
    FirstBarIsOnTheHour(posts, settings, first);
    StepsAreHours(n, settings.freqHours, first, step, FirstTs(posts));
    CursorFormula(first, step, n);
    SameHour(ts, first + n * step, FirstTs(posts) + k * settings.freqHours * ONE_HOUR);
  }

  lemma SameHour(x: int, y: int, t: int)
    requires x % ONE_HOUR == 0 && y % ONE_HOUR == 0
    requires x <= t < x + ONE_HOUR && y <= t < y + ONE_HOUR
    ensures x == y
  {
  }

  /** A post behind a bar: of some reach, and at most a week old. */
  predicate StandsBehind(m: Math, p: Post, ts: int) {
    Weighs(m, p.value) && -1.0 <= p.value.stance <= 1.0 && ts - ONE_WEEK <= p.ts <= ts
  }

  /** Every bar with a weighty post of the last week behind it has a point, and no other bar has. */
  lemma {:induction false} BarsWithPostsHavePoints(m: Math, posts: seq<Post>, prices: seq<PriceTick>,
      settings: Settings, now: int, ts: int)
    requires posts != [] && SeriesOf(m, posts, prices, settings, now).Ok?
    requires IsBarTime(posts, settings.freqHours, LastBar(posts, now), ts)
    ensures HasPoint(SeriesOf(m, posts, prices, settings, now).value, ts)
      <==> exists i :: 0 <= i < |posts| && StandsBehind(m, posts[i], ts)
  {
    var n := BarTimeIsCursor(posts, settings, LastBar(posts, now), ts);
    PointsExactlyWhereSomeoneSpoke(m, posts, prices, settings, now, n);
    SpokenIsBehind(m, posts, ts);
  }

  lemma SpokenIsBehind(m: Math, posts: seq<Post>, ts: int)
    ensures SomeoneSpoke(m, posts, ts, Some(SIGNAL_MAX_AGE)) <==>
      exists i :: 0 <= i < |posts| && StandsBehind(m, posts[i], ts)
  {
    forall i | 0 <= i < |posts|
      ensures Contributes(m, posts[i], ts, Some(SIGNAL_MAX_AGE)) <==> StandsBehind(m, posts[i], ts)
    {
    }
  }

  /** Every point is the signal of the whole corpus at its bar, over the last week, mapped to a probability. */
  lemma {:induction false} PointsAreReadings(m: Math, posts: seq<Post>, prices: seq<PriceTick>, settings: Settings,
      now: int, k: nat)
    requires posts != [] && SeriesOf(m, posts, prices, settings, now).Ok?
    requires k < |SeriesOf(m, posts, prices, settings, now).value|
    ensures var point := SeriesOf(m, posts, prices, settings, now).value[k];
      && HalfLifeAt(posts, prices, settings, point.ts) == Ok(point.value.reading.halfLife)
      && SignalAt(m, posts, point.ts, point.value.reading.halfLife, Some(ONE_WEEK)) == Ok(Some(point.value.reading))
      && ToProbability(m, point.value.reading.sT, settings.mapping, settings.params) == Ok(point.value.pHat)
  {
    var n := PointIsABar(m, posts, prices, settings, now, k);
    BarIsReading(m, posts, prices, settings, SeriesOf(m, posts, prices, settings, now).value[k]);
  }

  lemma BarIsReading(m: Math, posts: seq<Post>, prices: seq<PriceTick>, settings: Settings, point: SeriesPoint)
    requires BarAt(m, posts, prices, settings, point.ts) == Ok(Some(point))
    ensures HalfLifeAt(posts, prices, settings, point.ts) == Ok(point.value.reading.halfLife)
    ensures SignalAt(m, posts, point.ts, point.value.reading.halfLife, Some(ONE_WEEK)) == Ok(Some(point.value.reading))
    ensures ToProbability(m, point.value.reading.sT, settings.mapping, settings.params) == Ok(point.value.pHat)
  {
    var h := HalfLifeAt(posts, prices, settings, point.ts);
    var reading := SignalAt(m, posts, point.ts, h.value, Some(SIGNAL_MAX_AGE));
    assert reading == Ok(Some(point.value.reading));
  }

  // ------------------------------------------------------------------------ which posts count

  /** The stance row that holds for a post: the last one with its id and its time. */
  ghost predicate IsStance(stances: seq<StanceRow>, id: int, ts: int, j: int) {
    && 0 <= j < |stances| && stances[j].value.postId == id && stances[j].ts == ts
    && forall k :: j < k < |stances| ==> stances[k].value.postId != id || stances[k].ts != ts
  }

  lemma {:induction false} StanceIsTheLastRow(stances: seq<StanceRow>, id: int, ts: int)
    ensures StanceOf(stances, id, ts).None? <==>
      forall j :: 0 <= j < |stances| ==> stances[j].value.postId != id || stances[j].ts != ts
    ensures forall j :: IsStance(stances, id, ts, j) ==> StanceOf(stances, id, ts) == Some(stances[j].value.stance)
  {
    if stances != [] {
      var n := |stances| - 1;
      StanceIsTheLastRow(stances[..n], id, ts);
      forall j | IsStance(stances, id, ts, j)
        ensures StanceOf(stances, id, ts) == Some(stances[j].value.stance)
      {
        if j < n {
          assert stances[n].value.postId != id || stances[n].ts != ts;
          assert IsStance(stances[..n], id, ts, j);
        }
      }
      if StanceOf(stances, id, ts).None? {
        forall j | 0 <= j < |stances|
          ensures stances[j].value.postId != id || stances[j].ts != ts
        {
          assert j < n ==> stances[..n][j] == stances[j];
        }
      }
    }
  }

  lemma {:induction false} ContributionsConcat(posts: seq<PostRow>, more: seq<PostRow>, stances: seq<StanceRow>)
    ensures Contributions(posts + more, stances) == Contributions(posts, stances) + Contributions(more, stances)
  {
    if more == [] {
      assert posts + more == posts;
    } else {
      ContributionsConcat(posts, more[..|more| - 1], stances);
      assert (posts + more)[..|posts + more| - 1] == posts + more[..|more| - 1];
    }
  }

  lemma OneContribution(p: PostRow, stances: seq<StanceRow>)
    ensures Contributions([p], stances) ==
      if p.value.accepted && StanceOf(stances, p.value.id, p.ts).Some?
      then [Timed(p.ts, Contribution(StanceOf(stances, p.value.id, p.ts).value, p.value.followers,
        p.value.engagements, None))]
      else []
  {
    assert [p][..0] == [];
  }

  /** A post that was rejected, or has no stance, might as well not be there. */
  lemma {:induction false} UnscoredPostsAreIgnored(m: Math, before: seq<PostRow>, p: PostRow, after: seq<PostRow>,
      stances: seq<StanceRow>, prices: seq<PriceTick>, settings: Settings, now: int)
    requires !p.value.accepted || StanceOf(stances, p.value.id, p.ts).None?
    ensures Contributions(before + [p] + after, stances) == Contributions(before + after, stances)
    ensures SeriesOf(m, Contributions(before + [p] + after, stances), prices, settings, now)
      == SeriesOf(m, Contributions(before + after, stances), prices, settings, now)
  {
    ContributionsConcat(before + [p], after, stances);
    ContributionsConcat(before, [p], stances);
    ContributionsConcat(before, after, stances);
    OneContribution(p, stances);
    assert Contributions(before, stances) + [] == Contributions(before, stances);
  }

  /** An accepted post counts with the stance of its last row, its own reach, and at its own time. */
  lemma {:induction false} ScoredPostsCount(before: seq<PostRow>, p: PostRow, after: seq<PostRow>,
      stances: seq<StanceRow>, j: nat)
    requires p.value.accepted && IsStance(stances, p.value.id, p.ts, j)
    ensures Contributions(before + [p] + after, stances) == Contributions(before, stances)
      + [Timed(p.ts, Contribution(stances[j].value.stance, p.value.followers, p.value.engagements, None))]
      + Contributions(after, stances)
  {
    StanceIsTheLastRow(stances, p.value.id, p.ts);
    ContributionsConcat(before + [p], after, stances);
    ContributionsConcat(before, [p], stances);
    OneContribution(p, stances);
  }

  // ----------------------------------------------------------------- what sets the half-life

  /** The posts counted against the baseline are those after the previous bar, up to this one. */
  lemma {:induction false} RecentPosts(posts: seq<Post>, settings: Settings, ts: int)
    ensures RecentAt(posts, settings, ts) ==
      |set i | 0 <= i < |posts| && ts - settings.freqHours * ONE_HOUR < posts[i].ts <= ts| as real
  {
    CountIsASet(Stamps(posts), ts - settings.Step() + 1, ts);
    var recent := set i | 0 <= i < |posts| && ts - settings.freqHours * ONE_HOUR < posts[i].ts <= ts;
    assert Within(Stamps(posts), ts - settings.Step() + 1, ts) == recent;
  }

  ghost function Within(times: seq<int>, lo: int, hi: int): set<int> {
    set i | 0 <= i < |times| && lo <= times[i] <= hi
  }

  lemma {:induction false} WithinGrows(times: seq<int>, lo: int, hi: int, t: int)
    ensures |Within(times + [t], lo, hi)| == |Within(times, lo, hi)| + if lo <= t <= hi then 1 else 0
  {
    var front, all := Within(times, lo, hi), Within(times + [t], lo, hi);
    if lo <= t <= hi {
      assert all == front + {|times|};
    } else {
      assert all == front;
    }
  }

  lemma {:induction false} CountIsASet(times: seq<int>, lo: int, hi: int)
    ensures CountWithin(times, lo, hi) == |Within(times, lo, hi)|
  {
    if times != [] {
      var front, t := times[..|times| - 1], times[|times| - 1];
      CountIsASet(front, lo, hi);
      WithinGrows(front, lo, hi, t);
      assert times == front + [t];
    }
  }

  /** The one latest tick by `at`. */
  ghost predicate IsLatest(ticks: seq<PriceTick>, at: int, i: int) {
    && 0 <= i < |ticks| && ticks[i].ts <= at
    && forall j :: 0 <= j < |ticks| && j != i && ticks[j].ts <= at ==> ticks[j].ts < ticks[i].ts
  }

  /** The middle of both quotes, or else the last trade, if there was one. */
  predicate Shows(tick: Tick, price: Option<real>) {
    if tick.quote.yesBid.Some? && tick.quote.yesAsk.Some?
    then price.Some? && 2.0 * price.value == tick.quote.yesBid.value + tick.quote.yesAsk.value
    else price == tick.yesPrice
  }

  /** A price is known while the latest tick is at most an hour old: the middle of its quotes, or its last trade. */
  lemma {:induction false} PriceIsFresh(ticks: seq<PriceTick>, at: int)
    ensures (forall i :: 0 <= i < |ticks| ==> ticks[i].ts > at || ticks[i].ts < at - ONE_HOUR) ==>
      PriceAt(ticks, at).None?
    ensures forall i :: IsLatest(ticks, at, i) && at - ONE_HOUR <= ticks[i].ts ==>
      Shows(ticks[i].value, PriceAt(ticks, at))
  {
    var best := ScanLatest(ticks, at);
    if best.Some? {
      var k :| 0 <= k < |ticks| && ticks[k] == best.value;
    }
  }
}
