/** The signal on an hourly grid: sorted slices and binary searches against full scans. */
module SignalSeries {
  import opened Wrappers
  import opened Transcendental
  import opened Timeline
  import opened MarketData
  import opened Decay
  import opened SignalLaws
  import opened Adaptive
  import opened Calibration

  const SIGNAL_MAX_AGE: int := 7 * 24 * HOUR
  const LOOKBACK_HOURS: Hours := 24

  datatype PostBody = PostBody(id: int, followers: int, engagements: int, accepted: bool)
  datatype StanceBody = StanceBody(postId: int, stance: real)

  type PostRow = Timed<PostBody>
  type StanceRow = Timed<StanceBody>

  datatype Settings = Settings(freqHours: Hours, baseHalfLife: real, adaptation: Adaptation, mapping: Mapping,
      params: Option<Platt>)
  {
    function Step(): int {
      freqHours * HOUR
    }
  }

  datatype Valued = Valued(reading: Reading, pHat: real)

  type SeriesPoint = Timed<Valued>

  // ------------------------------------------------------------------------ the naive series

  /** Keyed by post and time; a later row overwrites an earlier one. */
  function StanceOf(stances: seq<StanceRow>, id: int, ts: int): Option<real> {
    if stances == [] then None
    else
      var last := stances[|stances| - 1];
      if last.value.postId == id && last.ts == ts then Some(last.value.stance)
      else StanceOf(stances[..|stances| - 1], id, ts)
  }

  /** Accepted posts that have a stance. */
  function Contributions(posts: seq<PostRow>, stances: seq<StanceRow>): seq<Post> {
    if posts == [] then []
    else
      var p := posts[|posts| - 1];
      var stance := StanceOf(stances, p.value.id, p.ts);
      Contributions(posts[..|posts| - 1], stances) +
        if stance.Some? && p.value.accepted
        then [Timed(p.ts, Contribution(stance.value, p.value.followers, p.value.engagements, None))] else []
  }

  /** The latest price at or before `at`, unless it is more than an hour old. */
  function PriceAt(ticks: seq<PriceTick>, at: int): Option<real> {
    var best := ScanLatest(ticks, at);
    if best.None? || at - best.value.ts > HOUR then None else best.value.value.Mid()
  }

  function Change(now: Option<real>, prev: Option<real>): real {
    if now.None? || prev.None? then 0.0 else now.value - prev.value
  }

  /** Posts in the step that ends at the bar. */
  function RecentAt(posts: seq<Post>, settings: Settings, cursor: int): real {
    CountWithin(Stamps(posts), cursor - settings.Step() + 1, cursor) as real
  }

  function BaselineAt(posts: seq<Post>, cursor: int): real {
    BaselineRate(Stamps(posts), cursor, LOOKBACK_HOURS)
  }

  /** How far the price moved over that step; nothing when either end is unknown. */
  function MoveAt(prices: seq<PriceTick>, settings: Settings, cursor: int): real {
    Change(PriceAt(prices, cursor), PriceAt(prices, cursor - settings.Step()))
  }

  /** The half-life of a bar, from counts over all posts and a scan over all prices. */
  function HalfLifeAt(posts: seq<Post>, prices: seq<PriceTick>, settings: Settings, cursor: int): Result<real, string> {
    EffectiveHalfLife(settings.baseHalfLife, settings.adaptation,
      RecentAt(posts, settings, cursor), BaselineAt(posts, cursor), MoveAt(prices, settings, cursor))
  }

  /** The point of a reading. */
  function PointOf(m: Math, reading: Option<Reading>, settings: Settings,
      cursor: int): Result<Option<SeriesPoint>, string>
  {
    if reading.None? then Ok(None)
    else
      var p := ToProbability(m, reading.value.sT, settings.mapping, settings.params);
      if p.Err? then Err(p.error) else Ok(Some(Timed(cursor, Valued(reading.value, p.value))))
  }

  /** One bar, evaluated on the whole unsorted corpus. */
  function BarAt(m: Math, posts: seq<Post>, prices: seq<PriceTick>, settings: Settings,
      cursor: int): Result<Option<SeriesPoint>, string>
  {
    var h := HalfLifeAt(posts, prices, settings, cursor);
    if h.Err? then Err(h.error)
    else
      var reading := SignalAt(m, posts, cursor, h.value, Some(SIGNAL_MAX_AGE));
      if reading.Err? then Err(reading.error) else PointOf(m, reading.value, settings, cursor)
  }

  function CursorAt(first: int, step: int, n: nat): int {
    if n == 0 then first else CursorAt(first, step, n - 1) + step
  }

  /** How many bars start at `first` and do not pass `end`. */
  function Bars(first: int, end: int, step: int): nat
    requires step > 0
    decreases end - first
  {
    if first > end then 0 else 1 + Bars(first + step, end, step)
  }

  /** The points in order; the first bar that raises ends the build. */
  function Joined<T>(rows: seq<Result<Option<T>, string>>): Result<seq<T>, string> {
    if rows == [] then Ok([])
    else
      var front, last := Joined(rows[..|rows| - 1]), rows[|rows| - 1];
      if front.Err? then front
      else if last.Err? then Err(last.error)
      else if last.value.None? then front
      else Ok(front.value + [last.value.value])
  }

  /** The first `n` bars. */
  function BarRows(m: Math, posts: seq<Post>, prices: seq<PriceTick>, settings: Settings, first: int, n: nat)
    : (rows: seq<Result<Option<SeriesPoint>, string>>)
    ensures |rows| == n
    ensures forall i :: 0 <= i < n ==> IsBar(m, posts, prices, settings, first, rows, i)
  {
    seq(n, i requires 0 <= i < n => BarAt(m, posts, prices, settings, CursorAt(first, settings.Step(), i)))
  }

  predicate IsBar(m: Math, posts: seq<Post>, prices: seq<PriceTick>, settings: Settings, first: int,
      rows: seq<Result<Option<SeriesPoint>, string>>, i: nat) {
    i < |rows| && rows[i] == BarAt(m, posts, prices, settings, CursorAt(first, settings.Step(), i))
  }

  /** The first bar: a step past the hour of the earliest post. */
  function FirstBar(posts: seq<Post>, settings: Settings): int
    requires posts != []
  {
    FirstTs(posts) - FirstTs(posts) % HOUR + settings.Step()
  }

  function LastBar(posts: seq<Post>, now: int): int
    requires posts != []
  {
    if LastTs(posts) > now then LastTs(posts) else now
  }

  /** Every bar from `first` to `end`. */
  function SeriesFrom(m: Math, posts: seq<Post>, prices: seq<PriceTick>, settings: Settings, first: int,
      end: int): Result<seq<SeriesPoint>, string>
  {
    Joined(BarRows(m, posts, prices, settings, first, Bars(first, end, settings.Step())))
  }

  /** The whole build, from unsorted contributions. */
  function SeriesOf(m: Math, posts: seq<Post>, prices: seq<PriceTick>, settings: Settings,
      now: int): Result<seq<SeriesPoint>, string>
  {
    if posts == [] then Ok([])
    else SeriesFrom(m, posts, prices, settings, FirstBar(posts, settings), LastBar(posts, now))
  }

  // ------------------------------------------------------------------------- slices and scans

  lemma {:induction false} CollectConcat(m: Math, xs: seq<Post>, ys: seq<Post>, at: int, rate: real,
      maxAge: Option<int>)
    ensures Collect(m, xs + ys, at, rate, maxAge)
      == Collect(m, xs, at, rate, maxAge).Plus(Collect(m, ys, at, rate, maxAge))
  {
    if ys == [] {
      assert xs + ys == xs;
      PlusNothing(Collect(m, xs, at, rate, maxAge));
    } else {
      var front, last := ys[..|ys| - 1], ys[|ys| - 1];
      assert xs + ys == xs + front + [last] && ys == front + [last];
      CollectConcat(m, xs, front, at, rate, maxAge);
      CollectAppend(m, xs + front, last, at, rate, maxAge);
      CollectAppend(m, front, last, at, rate, maxAge);
      PlusAssociates(Collect(m, xs, at, rate, maxAge), Collect(m, front, at, rate, maxAge),
        ShareOf(m, last, at, rate, maxAge));
    }
  }

  lemma {:induction false} CollectNothing(m: Math, posts: seq<Post>, at: int, rate: real, maxAge: Option<int>)
    requires forall i :: 0 <= i < |posts| ==> !InWindow(at, maxAge, posts[i].ts)
    ensures Collect(m, posts, at, rate, maxAge) == NOTHING
  {
    if posts != [] {
      CollectNothing(m, posts[..|posts| - 1], at, rate, maxAge);
    }
  }

  lemma {:induction false} CollectMiddle(m: Math, front: seq<Post>, middle: seq<Post>, back: seq<Post>, at: int,
      rate: real, maxAge: Option<int>)
    requires forall i :: 0 <= i < |front| ==> !InWindow(at, maxAge, front[i].ts)
    requires forall i :: 0 <= i < |back| ==> !InWindow(at, maxAge, back[i].ts)
    ensures Collect(m, front + middle + back, at, rate, maxAge) == Collect(m, middle, at, rate, maxAge)
  {
    CollectConcat(m, front + middle, back, at, rate, maxAge);
    CollectConcat(m, front, middle, at, rate, maxAge);
    CollectNothing(m, front, at, rate, maxAge);
    CollectNothing(m, back, at, rate, maxAge);
    PlusNothing(Collect(m, middle, at, rate, maxAge));
  }

  /** The slice between two binary searches carries the whole corpus's sums. */
  lemma {:induction false} SliceCollects(m: Math, posts: seq<Post>, ordered: seq<Post>, a: nat, b: nat, at: int,
      rate: real, maxAge: Option<int>)
    requires multiset(ordered) == multiset(posts) && a <= b <= |ordered|
    requires forall i :: 0 <= i < |ordered| && !(a <= i < b) ==> !InWindow(at, maxAge, ordered[i].ts)
    ensures Collect(m, ordered[a..b], at, rate, maxAge) == Collect(m, posts, at, rate, maxAge)
  {
    assert ordered == ordered[..a] + ordered[a..b] + ordered[b..];
    CollectMiddle(m, ordered[..a], ordered[a..b], ordered[b..], at, rate, maxAge);
    OrderDoesNotMatter(m, ordered, posts, at, rate, maxAge);
  }

  lemma {:induction false} SliceSignal(m: Math, posts: seq<Post>, ordered: seq<Post>, a: nat, b: nat, at: int,
      halfLife: real, maxAge: Option<int>)
    requires multiset(ordered) == multiset(posts) && a <= b <= |ordered|
    requires forall i :: 0 <= i < |ordered| && !(a <= i < b) ==> !InWindow(at, maxAge, ordered[i].ts)
    ensures SignalAt(m, ordered[a..b], at, halfLife, maxAge) == SignalAt(m, posts, at, halfLife, maxAge)
  {
    if halfLife > 0.0 {
      SliceCollects(m, posts, ordered, a, b, at, DecayLambda(m, halfLife).value, maxAge);
    }
  }

  lemma {:induction false} StampsInsert<T>(ys: seq<Timed<T>>, x: Timed<T>)
    ensures multiset(Stamps(Insert(ys, x))) == multiset(Stamps(ys)) + multiset{x.ts}
  {
    if ys == [] || ys[|ys| - 1].ts <= x.ts {
      assert Stamps(ys + [x]) == Stamps(ys) + [x.ts];
    } else {
      var n := |ys| - 1;
      StampsInsert(ys[..n], x);
      assert Stamps(Insert(ys[..n], x) + [ys[n]]) == Stamps(Insert(ys[..n], x)) + [ys[n].ts];
      assert Stamps(ys) == Stamps(ys[..n]) + [ys[n].ts];
    }
  }

  lemma {:induction false} StampsSort<T>(xs: seq<Timed<T>>)
    ensures multiset(Stamps(Sort(xs))) == multiset(Stamps(xs))
  {
    if xs != [] {
      var n := |xs| - 1;
      StampsSort(xs[..n]);
      StampsInsert(Sort(xs[..n]), xs[n]);
      assert Stamps(xs) == Stamps(xs[..n]) + [xs[n].ts];
    }
  }

  // --------------------------------------------------------------------------- the code's loop

  /** What the build sorts once, before its loop. */
  datatype Sorted3 = Sorted3(posts: seq<Post>, postTimes: seq<int>, prices: seq<PriceTick>, priceTimes: seq<int>)
  {
    ghost predicate Of(unsorted: seq<Post>, unsortedPrices: seq<PriceTick>) {
      && posts == Sort(unsorted) && postTimes == Stamps(posts)
      && prices == Sort(unsortedPrices) && priceTimes == Stamps(prices)
    }
  }

  lemma {:induction false} SortedFacts(data: Sorted3, posts: seq<Post>, prices: seq<PriceTick>)
    requires data.Of(posts, prices)
    ensures Sorted(data.posts) && Ascending(data.postTimes)
    ensures multiset(data.posts) == multiset(posts) && multiset(data.postTimes) == multiset(Stamps(posts))
  {
    SortSorts(posts);
    StampsSort(posts);
  }

  method PriceNear(data: Sorted3, at: int, ghost posts: seq<Post>, ghost prices: seq<PriceTick>)
    returns (price: Option<real>)
    requires data.Of(posts, prices)
    ensures price == PriceAt(prices, at)
  {
    var best := LatestAt(data.prices, data.priceTimes, at, prices);
    if best.None? {
      return None;
    }
    if at - best.value.ts > HOUR {
      return None;
    }
    price := best.value.value.Mid();
  }

  method RecentCount(data: Sorted3, after: int, upTo: int, ghost posts: seq<Post>, ghost prices: seq<PriceTick>)
    returns (recent: int)
    requires data.Of(posts, prices) && after <= upTo
    ensures recent == CountWithin(Stamps(posts), after + 1, upTo)
  {
    SortedFacts(data, posts, prices);
    var through := BisectRight(data.postTimes, upTo);
    var before := BisectRight(data.postTimes, after);
    CountBetweenSearches(data.postTimes, after, upTo);
    CountIgnoresOrder(data.postTimes, Stamps(posts), after + 1, upTo);
    recent := through - before;
  }

  method Baseline(data: Sorted3, cursor: int, ghost posts: seq<Post>, ghost prices: seq<PriceTick>)
    returns (baseline: real)
    requires data.Of(posts, prices)
    ensures baseline == BaselineRate(Stamps(posts), cursor, LOOKBACK_HOURS)
  {
    SortedFacts(data, posts, prices);
    var r := BaselineHourlyRate(data.postTimes, cursor, LOOKBACK_HOURS, true);
    BaselineIgnoresOrder(data.postTimes, Stamps(posts), cursor, LOOKBACK_HOURS);
    baseline := r.value;
  }

  method BarHalfLife(data: Sorted3, settings: Settings, cursor: int, ghost posts: seq<Post>,
      ghost prices: seq<PriceTick>)
    returns (h: Result<real, string>)
    requires data.Of(posts, prices)
    ensures h == HalfLifeAt(posts, prices, settings, cursor)
  {
    var windowStart := cursor - settings.Step();
    var recent := RecentCount(data, windowStart, cursor, posts, prices);
    var baseline := Baseline(data, cursor, posts, prices);
    var priceNow := PriceNear(data, cursor, posts, prices);
    var pricePrev := PriceNear(data, windowStart, posts, prices);
    var move := if priceNow.None? || pricePrev.None? then 0.0 else priceNow.value - pricePrev.value;
    h := EffectiveHalfLife(settings.baseHalfLife, settings.adaptation, recent as real, baseline, move);
  }

  method BarReading(m: Math, data: Sorted3, cursor: int, halfLife: real, ghost posts: seq<Post>,
      ghost prices: seq<PriceTick>)
    returns (r: Result<Option<Reading>, string>)
    requires m.Lawful() && data.Of(posts, prices)
    ensures r.Ok? <==> SignalAt(m, posts, cursor, halfLife, Some(SIGNAL_MAX_AGE)).Ok?
    ensures r.Ok? ==> r == SignalAt(m, posts, cursor, halfLife, Some(SIGNAL_MAX_AGE))
  {
    SortedFacts(data, posts, prices);
    var lo := BisectLeft(data.postTimes, cursor - SIGNAL_MAX_AGE);
    var hi := BisectRight(data.postTimes, cursor);
    CountBetweenSearches(data.postTimes, cursor - SIGNAL_MAX_AGE - 1, cursor);
    forall i | 0 <= i < |data.posts| && !(lo <= i < hi)
      ensures !InWindow(cursor, Some(SIGNAL_MAX_AGE), data.posts[i].ts)
    {
      assert data.postTimes[i] == data.posts[i].ts;
    }
    SliceSignal(m, posts, data.posts, lo, hi, cursor, halfLife, Some(SIGNAL_MAX_AGE));
    r := ComputeSignal(m, data.posts[lo..hi], cursor, halfLife, Some(SIGNAL_MAX_AGE));
  }

  method Bar(m: Math, data: Sorted3, settings: Settings, cursor: int, ghost posts: seq<Post>,
      ghost prices: seq<PriceTick>)
    returns (r: Result<Option<SeriesPoint>, string>)
    requires m.Lawful() && data.Of(posts, prices)
    ensures r.Ok? <==> BarAt(m, posts, prices, settings, cursor).Ok?
    ensures r.Ok? ==> r == BarAt(m, posts, prices, settings, cursor)
  {
    var h := BarHalfLife(data, settings, cursor, posts, prices);
    if h.Err? {
      return Err(h.error);
    }
    var reading := BarReading(m, data, cursor, h.value, posts, prices);
    if reading.Err? {
      return Err(reading.error);
    }
    r := PointOf(m, reading.value, settings, cursor);
  }

  lemma JoinedNext<T>(rows: seq<Result<Option<T>, string>>, n: nat)
    requires n < |rows| && Joined(rows[..n]).Ok?
    ensures Joined(rows[..n + 1]).Ok? <==> rows[n].Ok?
    ensures rows[n].Ok? && rows[n].value.None? ==> Joined(rows[..n + 1]) == Joined(rows[..n])
    ensures rows[n].Ok? && rows[n].value.Some? ==>
      Joined(rows[..n + 1]) == Ok(Joined(rows[..n]).value + [rows[n].value.value])
  {
    assert rows[..n + 1][..n] == rows[..n];
  }

  lemma {:induction false} JoinedErrStays<T>(rows: seq<Result<Option<T>, string>>, n: nat)
    requires n <= |rows| && Joined(rows[..n]).Err?
    ensures Joined(rows).Err?
  {
    if n < |rows| {
      assert rows[..|rows| - 1][..n] == rows[..n];
      JoinedErrStays(rows[..|rows| - 1], n);
    } else {
      assert rows[..n] == rows;
    }
  }

  ghost predicate AreBars(m: Math, posts: seq<Post>, prices: seq<PriceTick>, settings: Settings, first: int,
      rows: seq<Result<Option<SeriesPoint>, string>>) {
    forall i :: 0 <= i < |rows| ==> IsBar(m, posts, prices, settings, first, rows, i)
  }

  method BarAlong(m: Math, data: Sorted3, settings: Settings, first: int, cursor: int,
      ghost posts: seq<Post>, ghost prices: seq<PriceTick>, ghost rows: seq<Result<Option<SeriesPoint>, string>>,
        ghost n: nat)
    returns (r: Result<Option<SeriesPoint>, string>)
    requires m.Lawful() && data.Of(posts, prices)
    requires AreBars(m, posts, prices, settings, first, rows) && n < |rows|
    requires cursor == CursorAt(first, settings.Step(), n)
    ensures r.Ok? <==> rows[n].Ok?
    ensures r.Ok? ==> r == rows[n]
  {
    assert IsBar(m, posts, prices, settings, first, rows, n);
    r := Bar(m, data, settings, cursor, posts, prices);
  }

  method RunBars(m: Math, data: Sorted3, settings: Settings, first: int, end: int,
      ghost posts: seq<Post>, ghost prices: seq<PriceTick>, ghost rows: seq<Result<Option<SeriesPoint>, string>>)
    returns (r: Result<seq<SeriesPoint>, string>)
    requires m.Lawful() && data.Of(posts, prices)
    requires |rows| == Bars(first, end, settings.Step())
    requires AreBars(m, posts, prices, settings, first, rows)
    ensures r.Ok? <==> Joined(rows).Ok?
    ensures r.Ok? ==> r == Joined(rows)
  {
    var points: seq<SeriesPoint> := [];
    var cursor := first;
    ghost var n := 0;
    while cursor <= end
      invariant cursor == CursorAt(first, settings.Step(), n)
      invariant n + Bars(cursor, end, settings.Step()) == |rows|
      invariant Joined(rows[..n]) == Ok(points)
      decreases end - cursor
    {
      var point := BarAlong(m, data, settings, first, cursor, posts, prices, rows, n);
      JoinedNext(rows, n);
      if point.Err? {
        JoinedErrStays(rows, n + 1);
        return Err(point.error);
      }
      if point.value.Some? {
        points := points + [point.value.value];
      }
      cursor := cursor + settings.Step();
      n := n + 1;
    }
    assert rows[..n] == rows;
    r := Ok(points);
  }

  method RunGrid(m: Math, data: Sorted3, settings: Settings, first: int, end: int, ghost posts: seq<Post>,
      ghost prices: seq<PriceTick>)
    returns (r: Result<seq<SeriesPoint>, string>)
    requires m.Lawful() && data.Of(posts, prices)
    ensures r.Ok? <==> SeriesFrom(m, posts, prices, settings, first, end).Ok?
    ensures r.Ok? ==> r == SeriesFrom(m, posts, prices, settings, first, end)
  {
    r := RunBars(m, data, settings, first, end, posts, prices,
      BarRows(m, posts, prices, settings, first, Bars(first, end, settings.Step())));
  }

  /** The fast build computes the naive series, and raises exactly when that does. */
  method BuildSignalSeries(m: Math, posts: seq<PostRow>, stances: seq<StanceRow>, prices: seq<PriceTick>,
      settings: Settings, now: int)
    returns (r: Result<seq<SeriesPoint>, string>)
    requires m.Lawful()
    ensures var spec := SeriesOf(m, Contributions(posts, stances), prices, settings, now);
      r.Ok? == spec.Ok? && (r.Ok? ==> r == spec)
  {
    var contributions := Contributions(posts, stances);
    if contributions == [] {
      return Ok([]);
    }
    r := BuildFromContributions(m, contributions, prices, settings, now);
  }

  method BuildFromContributions(m: Math, contributions: seq<Post>, prices: seq<PriceTick>, settings: Settings, now: int)
    returns (r: Result<seq<SeriesPoint>, string>)
    requires m.Lawful() && contributions != []
    ensures r.Ok? <==> SeriesOf(m, contributions, prices, settings, now).Ok?
    ensures r.Ok? ==> r == SeriesOf(m, contributions, prices, settings, now)
  {
    var data := Sorted3(Sort(contributions), Stamps(Sort(contributions)), Sort(prices), Stamps(Sort(prices)));
    EndsOfSorted(contributions);
    var start := data.postTimes[0];
    var last := data.postTimes[|data.postTimes| - 1];
    var end := if last > now then last else now;
    var cursor := start - start % HOUR + settings.Step();
    assert cursor == FirstBar(contributions, settings) && end == LastBar(contributions, now);
    r := RunGrid(m, data, settings, cursor, end, contributions, prices);
  }
}
