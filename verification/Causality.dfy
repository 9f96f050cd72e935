/** A signal series never looks ahead, and where on the grid it has points at all. */
module Causality {
  import opened Wrappers
  import opened Transcendental
  import opened Timeline
  import opened MarketData
  import opened Decay
  import opened SignalLaws
  import opened Adaptive
  import opened SignalSeries

  // ------------------------------------------------------------------ one bar sees its past

  lemma {:induction false} CountIgnoresFuture<T>(xs: seq<Timed<T>>, t: int, lo: int, hi: int)
    requires hi <= t
    ensures CountWithin(Stamps(UpTo(xs, t)), lo, hi) == CountWithin(Stamps(xs), lo, hi)
  {
    if xs != [] {
      var front, last := xs[..|xs| - 1], xs[|xs| - 1];
      CountIgnoresFuture(front, t, lo, hi);
      assert Stamps(xs) == Stamps(front) + [last.ts];
      CountSnoc(Stamps(front), last.ts, lo, hi);
      if last.ts <= t {
        assert Stamps(UpTo(front, t) + [last]) == Stamps(UpTo(front, t)) + [last.ts];
        CountSnoc(Stamps(UpTo(front, t)), last.ts, lo, hi);
      } else {
        assert UpTo(front, t) + [] == UpTo(front, t);
      }
    }
  }

  lemma {:induction false} BaselineIgnoresFuture<T>(xs: seq<Timed<T>>, t: int, at: int, hours: Hours)
    requires at <= t
    ensures BaselineRate(Stamps(UpTo(xs, t)), at, hours) == BaselineRate(Stamps(xs), at, hours)
  {
    var start := at - hours * HOUR;
    forall j | 0 <= j < hours
      ensures HourCount(Stamps(UpTo(xs, t)), start, hours, j) == HourCount(Stamps(xs), start, hours, j)
    {
      HoursAreInside(start, hours, j);
      CountIgnoresFuture(xs, t, HourStart(start, j), HourEnd(start, hours, j));
    }
    assert HourCounts(Stamps(UpTo(xs, t)), start, hours) == HourCounts(Stamps(xs), start, hours);
  }

  /** A fold over posts that gives nothing for the future. */
  ghost predicate FoldsPast(collect: seq<Post> -> Sums, share: Post -> Sums, t: int) {
    && collect([]) == NOTHING
    && (forall posts, p :: Appends(collect, share, posts, p))
    && (forall p: Post :: p.ts > t ==> share(p) == NOTHING)
  }

  ghost predicate Appends(collect: seq<Post> -> Sums, share: Post -> Sums, posts: seq<Post>, p: Post) {
    collect(posts + [p]) == collect(posts).Plus(share(p))
  }

  lemma {:induction false} FoldIgnoresFuture(collect: seq<Post> -> Sums, share: Post -> Sums, posts: seq<Post>, t: int)
    requires FoldsPast(collect, share, t)
    ensures collect(UpTo(posts, t)) == collect(posts)
  {
    if posts != [] {
      var front, last := posts[..|posts| - 1], posts[|posts| - 1];
      assert posts == front + [last];
      FoldIgnoresFuture(collect, share, front, t);
      UpToSnoc(front, last, t);
      assert Appends(collect, share, front, last);
      if last.ts <= t {
        assert Appends(collect, share, UpTo(front, t), last);
      } else {
        PlusNothing(collect(front));
      }
    }
  }

  lemma {:induction false} CollectIgnoresFuture(m: Math, posts: seq<Post>, t: int, at: int, rate: real,
      maxAge: Option<int>)
    requires at <= t
    ensures Collect(m, UpTo(posts, t), at, rate, maxAge) == Collect(m, posts, at, rate, maxAge)
  {
    var collect := (xs: seq<Post>) => Collect(m, xs, at, rate, maxAge);
    var share := (p: Post) => ShareOf(m, p, at, rate, maxAge);
    forall xs: seq<Post>, p: Post
      ensures Appends(collect, share, xs, p)
    {
      CollectAppend(m, xs, p, at, rate, maxAge);
    }
    FoldIgnoresFuture(collect, share, posts, t);
  }

  lemma {:induction false} SignalIgnoresFuture(m: Math, posts: seq<Post>, t: int, at: int, halfLife: real,
      maxAge: Option<int>)
    requires at <= t
    ensures SignalAt(m, UpTo(posts, t), at, halfLife, maxAge) == SignalAt(m, posts, at, halfLife, maxAge)
  {
    if halfLife > 0.0 {
      CollectIgnoresFuture(m, posts, t, at, DecayLambda(m, halfLife).value, maxAge);
    }
  }

  lemma {:induction false} PriceIgnoresFuture(prices: seq<PriceTick>, t: int, at: int)
    requires at <= t
    ensures PriceAt(UpTo(prices, t), at) == PriceAt(prices, at)
  {
    ScanIgnoresFuture(prices, t, at);
  }

  lemma MoveIs(prices: seq<PriceTick>, settings: Settings, cursor: int, prev: int, now: Option<real>,
      before: Option<real>)
    requires prev == cursor - settings.Step()
    requires now == PriceAt(prices, cursor) && before == PriceAt(prices, prev)
    ensures MoveAt(prices, settings, cursor) == Change(now, before)
  {
  }

  lemma {:induction false} MoveIgnoresFuture(prices: seq<PriceTick>, settings: Settings, t: int, cursor: int, prev: int)
    requires prev <= cursor <= t && prev == cursor - settings.Step()
    ensures MoveAt(UpTo(prices, t), settings, cursor) == MoveAt(prices, settings, cursor)
  {
    PriceIgnoresFuture(prices, t, cursor);
    PriceIgnoresFuture(prices, t, prev);
    MoveIs(prices, settings, cursor, prev, PriceAt(prices, cursor), PriceAt(prices, prev));
    MoveIs(UpTo(prices, t), settings, cursor, prev, PriceAt(prices, cursor), PriceAt(prices, prev));
  }

  lemma {:induction false} NewsIgnoresFuture(posts: seq<Post>, settings: Settings, t: int, cursor: int)
    requires cursor <= t
    ensures RecentAt(UpTo(posts, t), settings, cursor) == RecentAt(posts, settings, cursor)
    ensures BaselineAt(UpTo(posts, t), cursor) == BaselineAt(posts, cursor)
  {
    CountIgnoresFuture(posts, t, cursor - settings.Step() + 1, cursor);
    BaselineIgnoresFuture(posts, t, cursor, LOOKBACK_HOURS);
  }

  lemma {:induction false} ConditionsIgnoreFuture(posts: seq<Post>, prices: seq<PriceTick>, settings: Settings, t: int,
      cursor: int)
    requires cursor <= t
    ensures RecentAt(UpTo(posts, t), settings, cursor) == RecentAt(posts, settings, cursor)
    ensures BaselineAt(UpTo(posts, t), cursor) == BaselineAt(posts, cursor)
    ensures MoveAt(UpTo(prices, t), settings, cursor) == MoveAt(prices, settings, cursor)
  {
    NewsIgnoresFuture(posts, settings, t, cursor);
    MoveIgnoresFuture(prices, settings, t, cursor, cursor - settings.Step());
  }

  lemma {:induction false} HalfLifeIgnoresFuture(posts: seq<Post>, prices: seq<PriceTick>, settings: Settings, t: int,
      cursor: int)
    requires cursor <= t
    ensures HalfLifeAt(UpTo(posts, t), UpTo(prices, t), settings, cursor) == HalfLifeAt(posts, prices, settings, cursor)
  {
    ConditionsIgnoreFuture(posts, prices, settings, t, cursor);
  }

  lemma {:induction false} BarIgnoresFuture(m: Math, posts: seq<Post>, prices: seq<PriceTick>, settings: Settings,
      t: int, cursor: int)
    requires cursor <= t
    ensures BarAt(m, UpTo(posts, t), UpTo(prices, t), settings, cursor) == BarAt(m, posts, prices, settings, cursor)
  {
    HalfLifeIgnoresFuture(posts, prices, settings, t, cursor);
    var h := HalfLifeAt(posts, prices, settings, cursor);
    if h.Ok? {
      SignalIgnoresFuture(m, posts, t, cursor, h.value, Some(SIGNAL_MAX_AGE));
    }
  }

  // ------------------------------------------------------------------------------- the grid

  lemma {:induction false} CursorShifts(first: int, step: int, n: nat)
    ensures CursorAt(first + step, step, n) == CursorAt(first, step, n + 1)
  {
    if n > 0 {
      CursorShifts(first, step, n - 1);
    }
  }

  /** Bar `n` is reached exactly when its time is. */
  lemma {:induction false} BarsReach(first: int, end: int, step: int, n: nat)
    requires step > 0
    ensures n < Bars(first, end, step) <==> CursorAt(first, step, n) <= end
    decreases n
  {
    if n > 0 {
      CursorShifts(first, step, n - 1);
      BarsReach(first + step, end, step, n - 1);
      if first > end {
        CursorIncreases(first, step, 0, n);
      }
    }
  }

  lemma {:induction false} CursorIncreases(first: int, step: int, i: nat, j: nat)
    requires step > 0 && i < j
    ensures CursorAt(first, step, i) < CursorAt(first, step, j)
    decreases j
  {
    if i < j - 1 {
      CursorIncreases(first, step, i, j - 1);
    }
  }

  /** Every row's point carries its own bar's time. */
  ghost predicate OnGrid<T>(rows: seq<Result<Option<Timed<T>>, string>>, first: int, step: int) {
    forall i :: 0 <= i < |rows| && rows[i].Ok? && rows[i].value.Some? ==>
      rows[i].value.value.ts == CursorAt(first, step, i)
  }

  lemma {:induction false} BarRowsOnGrid(m: Math, posts: seq<Post>, prices: seq<PriceTick>, settings: Settings,
      first: int, n: nat)
    ensures OnGrid(BarRows(m, posts, prices, settings, first, n), first, settings.Step())
  {
    var rows := BarRows(m, posts, prices, settings, first, n);
    forall i | 0 <= i < n && rows[i].Ok? && rows[i].value.Some?
      ensures rows[i].value.value.ts == CursorAt(first, settings.Step(), i)
    {
      assert IsBar(m, posts, prices, settings, first, rows, i);
      PointIsAtItsBar(m, posts, prices, settings, CursorAt(first, settings.Step(), i));
    }
  }

  lemma PointIsAtItsBar(m: Math, posts: seq<Post>, prices: seq<PriceTick>, settings: Settings, cursor: int)
    ensures var bar := BarAt(m, posts, prices, settings, cursor);
      bar.Ok? && bar.value.Some? ==> bar.value.value.ts == cursor
  {
  }

  lemma JoinedAppend<T>(rows: seq<Result<Option<T>, string>>, row: Result<Option<T>, string>)
    requires Joined(rows + [row]).Ok?
    ensures Joined(rows).Ok? && row.Ok?
    ensures row.value.None? ==> Joined(rows + [row]).value == Joined(rows).value
    ensures row.value.Some? ==> Joined(rows + [row]).value == Joined(rows).value + [row.value.value]
  {
    assert (rows + [row])[..|rows|] == rows;
  }

  /** One more row, whose point comes by `t` or after it. */
  lemma {:induction false} JoinedPast<T>(rows: seq<Result<Option<Timed<T>>, string>>,
      row: Result<Option<Timed<T>>, string>, at: int, t: int)
    requires Joined(rows + [row]).Ok?
    requires row.Ok? && row.value.Some? ==> row.value.value.ts == at
    ensures Joined(rows).Ok?
    ensures at > t ==> UpTo(Joined(rows + [row]).value, t) == UpTo(Joined(rows).value, t)
    ensures at <= t && UpTo(Joined(rows).value, t) == Joined(rows).value ==>
      UpTo(Joined(rows + [row]).value, t) == Joined(rows + [row]).value
  {
    JoinedAppend(rows, row);
    if row.value.Some? {
      UpToSnoc(Joined(rows).value, row.value.value, t);
    }
  }

  lemma FrontSnoc<T>(xs: seq<T>, n: nat)
    requires n < |xs|
    ensures xs[..n + 1] == xs[..n] + [xs[n]]
  {
  }

  /** Rows whose bars all fall by `t` have no later points. */
  lemma {:induction false} JoinedIsPast<T>(rows: seq<Result<Option<Timed<T>>, string>>, first: int, step: int, t: int,
      k: nat)
    requires OnGrid(rows, first, step) && k <= |rows| && Joined(rows[..k]).Ok?
    requires forall i: nat :: i < k ==> CursorAt(first, step, i) <= t
    ensures UpTo(Joined(rows[..k]).value, t) == Joined(rows[..k]).value
  {
    if k > 0 {
      FrontSnoc(rows, k - 1);
      JoinedPast(rows[..k - 1], rows[k - 1], CursorAt(first, step, k - 1), t);
      JoinedIsPast(rows, first, step, t, k - 1);
    }
  }

  /** The points up to `t` are those of the first rows, when exactly their bars fall by `t`. */
  lemma {:induction false} JoinedUpTo<T>(rows: seq<Result<Option<Timed<T>>, string>>, first: int, step: int, t: int,
      k: nat, n: nat)
    requires OnGrid(rows, first, step) && k <= n <= |rows| && Joined(rows[..n]).Ok?
    requires forall i: nat :: i < |rows| ==> (i < k <==> CursorAt(first, step, i) <= t)
    ensures Joined(rows[..k]).Ok? && UpTo(Joined(rows[..n]).value, t) == Joined(rows[..k]).value
    decreases n
  {
    if n == k {
      JoinedIsPast(rows, first, step, t, k);
    } else {
      FrontSnoc(rows, n - 1);
      JoinedPast(rows[..n - 1], rows[n - 1], CursorAt(first, step, n - 1), t);
      JoinedUpTo(rows, first, step, t, k, n - 1);
    }
  }

  /** The points by `t`: those of the bars up to `t`, whatever lies after. */
  lemma {:induction false} SeriesUpTo(m: Math, posts: seq<Post>, prices: seq<PriceTick>, settings: Settings,
      first: int, end: int, t: int)
    requires t <= end
    requires SeriesFrom(m, posts, prices, settings, first, end).Ok?
    ensures SeriesFrom(m, UpTo(posts, t), UpTo(prices, t), settings, first, t).Ok?
    ensures UpTo(SeriesFrom(m, posts, prices, settings, first, end).value, t)
      == SeriesFrom(m, UpTo(posts, t), UpTo(prices, t), settings, first, t).value
  {
    var step := settings.Step();
    var n, k := Bars(first, end, step), Bars(first, t, step);
    var rows := BarRows(m, posts, prices, settings, first, n);
    BarRowsOnGrid(m, posts, prices, settings, first, n);
    FewerBars(first, end, step, t);
    GridSplits(first, step, t, n);
    assert rows[..n] == rows;
    JoinedUpTo(rows, first, step, t, k, n);
    PastRows(m, posts, prices, settings, first, n, t, k);
  }

  lemma {:induction false} FewerBars(first: int, end: int, step: int, t: int)
    requires step > 0 && t <= end
    ensures Bars(first, t, step) <= Bars(first, end, step)
  {
    var k := Bars(first, t, step);
    if k > 0 {
      BarsReach(first, t, step, k - 1);
      BarsReach(first, end, step, k - 1);
    }
  }

  lemma {:induction false} GridSplits(first: int, step: int, t: int, n: nat)
    requires step > 0
    ensures forall i: nat :: i < n ==> (i < Bars(first, t, step) <==> CursorAt(first, step, i) <= t)
  {
    forall i: nat | i < n
      ensures i < Bars(first, t, step) <==> CursorAt(first, step, i) <= t
    {
      BarsReach(first, t, step, i);
    }
  }

  lemma {:induction false} PastRows(m: Math, posts: seq<Post>, prices: seq<PriceTick>, settings: Settings, first: int,
      n: nat, t: int, k: nat)
    requires k == Bars(first, t, settings.Step()) <= n
    ensures BarRows(m, posts, prices, settings, first, n)[..k] ==
      BarRows(m, UpTo(posts, t), UpTo(prices, t), settings, first, k)
  {
    var rows, past := BarRows(m, posts, prices, settings, first, n),
      BarRows(m, UpTo(posts, t), UpTo(prices, t), settings, first, k);
    forall i | 0 <= i < k
      ensures rows[i] == past[i]
    {
      BarsReach(first, t, settings.Step(), i);
      BarIgnoresFuture(m, posts, prices, settings, t, CursorAt(first, settings.Step(), i));
      assert IsBar(m, posts, prices, settings, first, rows, i);
      assert IsBar(m, UpTo(posts, t), UpTo(prices, t), settings, first, past, i);
    }
  }

  // ------------------------------------------------------------------------------- causality

  lemma {:induction false} StanceOfPast(stances: seq<StanceRow>, id: int, ts: int, t: int)
    requires ts <= t
    ensures StanceOf(UpTo(stances, t), id, ts) == StanceOf(stances, id, ts)
  {
    if stances != [] {
      var front, last := stances[..|stances| - 1], stances[|stances| - 1];
      StanceOfPast(front, id, ts, t);
      if last.ts <= t {
        assert (UpTo(front, t) + [last])[..|UpTo(front, t)|] == UpTo(front, t);
      } else {
        assert UpTo(front, t) + [] == UpTo(front, t);
      }
    }
  }

  lemma {:induction false} ContributionsUpTo(posts: seq<PostRow>, stances: seq<StanceRow>, t: int)
    ensures UpTo(Contributions(posts, stances), t) == Contributions(UpTo(posts, t), UpTo(stances, t))
  {
    if posts != [] {
      var front, p := posts[..|posts| - 1], posts[|posts| - 1];
      ContributionsUpTo(front, stances, t);
      var stance := StanceOf(stances, p.value.id, p.ts);
      if stance.Some? && p.value.accepted {
        UpToSnoc(Contributions(front, stances),
          Timed(p.ts, Contribution(stance.value, p.value.followers, p.value.engagements, None)), t);
      } else {
        assert Contributions(front, stances) + [] == Contributions(front, stances);
      }
      if p.ts <= t {
        StanceOfPast(stances, p.value.id, p.ts, t);
        assert (UpTo(front, t) + [p])[..|UpTo(front, t)|] == UpTo(front, t);
      } else {
        assert UpTo(front, t) + [] == UpTo(front, t);
      }
    }
  }

  lemma {:induction false} PastIsSubset<T>(xs: seq<Timed<T>>, t: int, i: nat)
    requires i < |xs| && xs[i].ts <= t
    ensures xs[i] in UpTo(xs, t)
  {
    if i < |xs| - 1 {
      PastIsSubset(xs[..|xs| - 1], t, i);
    }
  }

  lemma {:induction false} FirstTsOfPast<T>(xs: seq<Timed<T>>, t: int)
    requires xs != []
    ensures UpTo(xs, t) == [] ==> FirstTs(xs) > t
    ensures UpTo(xs, t) != [] ==> FirstTs(UpTo(xs, t)) == FirstTs(xs)
  {
    var past := UpTo(xs, t);
    var i :| 0 <= i < |xs| && xs[i].ts == FirstTs(xs);
    if past != [] {
      assert past[0] in xs && past[0].ts <= t;
      var k :| 0 <= k < |xs| && xs[k] == past[0];
      assert FirstTs(xs) <= xs[k].ts;
      PastIsSubset(xs, t, i);
      var j :| 0 <= j < |past| && past[j].ts == FirstTs(past);
      assert past[j] in xs;
    } else if xs[i].ts <= t {
      PastIsSubset(xs, t, i);
    }
  }

  /** The build stopped after the last bar at or before `t`. */
  function SeriesBy(m: Math, posts: seq<Post>, prices: seq<PriceTick>, settings: Settings,
      t: int): Result<seq<SeriesPoint>, string>
  {
    if posts == [] then Ok([]) else SeriesFrom(m, posts, prices, settings, FirstBar(posts, settings), t)
  }

  lemma {:induction false} NothingBeforeTheFirstPost(m: Math, posts: seq<Post>, prices: seq<PriceTick>,
      settings: Settings, end: int, t: int)
    requires posts != [] && FirstTs(posts) > t
    requires SeriesFrom(m, posts, prices, settings, FirstBar(posts, settings), end).Ok?
    ensures UpTo(SeriesFrom(m, posts, prices, settings, FirstBar(posts, settings), end).value, t) == []
  {
    var first, step := FirstBar(posts, settings), settings.Step();
    var n := Bars(first, end, step);
    GridSplits(first, step, t, n);
    BarRowsOnGrid(m, posts, prices, settings, first, n);
    var rows := BarRows(m, posts, prices, settings, first, n);
    assert Bars(first, t, step) == 0;
    assert rows[..|rows|] == rows;
    JoinedUpTo(rows, first, step, t, 0, |rows|);
    assert rows[..0] == [];
  }

  lemma {:induction false} SeriesOfPast(m: Math, posts: seq<Post>, prices: seq<PriceTick>, settings: Settings,
      now: int, t: int)
    requires t <= now && SeriesOf(m, posts, prices, settings, now).Ok?
    ensures SeriesBy(m, UpTo(posts, t), UpTo(prices, t), settings, t).Ok?
    ensures UpTo(SeriesOf(m, posts, prices, settings, now).value, t)
      == SeriesBy(m, UpTo(posts, t), UpTo(prices, t), settings, t).value
  {
    if posts != [] {
      FirstTsOfPast(posts, t);
      if UpTo(posts, t) == [] {
        NothingBeforeTheFirstPost(m, posts, prices, settings, LastBar(posts, now), t);
      } else {
        assert FirstBar(posts, settings) == FirstBar(UpTo(posts, t), settings);
        SeriesUpTo(m, posts, prices, settings, FirstBar(posts, settings), LastBar(posts, now), t);
      }
    }
  }

  /** What a build stopped at `t` yields, points or an error, does not depend on what is later. */
  lemma {:induction false} StoppedBuildIgnoresFuture(m: Math, posts: seq<Post>, prices: seq<PriceTick>,
      settings: Settings, t: int)
    ensures SeriesBy(m, posts, prices, settings, t)
      == SeriesBy(m, UpTo(posts, t), UpTo(prices, t), settings, t)
  {
    if posts != [] {
      FirstTsOfPast(posts, t);
      var first := FirstBar(posts, settings);
      var k := Bars(first, t, settings.Step());
      if UpTo(posts, t) == [] {
        assert k == 0;
      } else {
        assert FirstBar(UpTo(posts, t), settings) == first;
        var rows := BarRows(m, posts, prices, settings, first, k);
        PastRows(m, posts, prices, settings, first, k, t, k);
        assert rows[..k] == rows;
      }
    }
  }

  /** A build that succeeds has, at or before `t`, the points of the build stopped there. */
  ghost predicate AgreesUpTo(built: Result<seq<SeriesPoint>, string>, stopped: Result<seq<SeriesPoint>, string>,
      t: int)
  {
    built.Ok? ==> stopped == Ok(UpTo(built.value, t))
  }

  /**
   * Causality of whole builds: posts, stances and prices later than `t`, and a later clock, change
   * nothing of what is built up to `t`, be it points or an error; and each build that succeeds
   * has exactly those points at or before `t`.
   */
  lemma {:induction false} SeriesIsCausal(m: Math, posts: seq<PostRow>, morePosts: seq<PostRow>,
      stances: seq<StanceRow>, moreStances: seq<StanceRow>, prices: seq<PriceTick>, morePrices: seq<PriceTick>,
      settings: Settings, now: int, laterNow: int, t: int)
    requires t <= now && t <= laterNow
    requires SamePast(posts, morePosts, t) && SamePast(stances, moreStances, t) && SamePast(prices, morePrices, t)
    ensures SeriesBy(m, Contributions(posts, stances), prices, settings, t)
      == SeriesBy(m, Contributions(morePosts, moreStances), morePrices, settings, t)
    ensures AgreesUpTo(SeriesOf(m, Contributions(posts, stances), prices, settings, now),
      SeriesBy(m, Contributions(posts, stances), prices, settings, t), t)
    ensures AgreesUpTo(SeriesOf(m, Contributions(morePosts, moreStances), morePrices, settings, laterNow),
      SeriesBy(m, Contributions(posts, stances), prices, settings, t), t)
  {
    ContributionsUpTo(posts, stances, t);
    ContributionsUpTo(morePosts, moreStances, t);
    StoppedBuild(m, Contributions(posts, stances), prices, settings, now, t);
    StoppedBuild(m, Contributions(morePosts, moreStances), morePrices, settings, laterNow, t);
  }

  lemma {:induction false} StoppedBuild(m: Math, posts: seq<Post>, prices: seq<PriceTick>, settings: Settings,
      now: int, t: int)
    requires t <= now
    ensures SeriesBy(m, posts, prices, settings, t) == SeriesBy(m, UpTo(posts, t), UpTo(prices, t), settings, t)
    ensures AgreesUpTo(SeriesOf(m, posts, prices, settings, now), SeriesBy(m, posts, prices, settings, t), t)
  {
    StoppedBuildIgnoresFuture(m, posts, prices, settings, t);
    if SeriesOf(m, posts, prices, settings, now).Ok? {
      SeriesOfPast(m, posts, prices, settings, now, t);
    }
  }

  // ---------------------------------------------------------------------- where points are

  ghost predicate HasPoint<T>(points: seq<Timed<T>>, ts: int) {
    exists k :: 0 <= k < |points| && points[k].ts == ts
  }

  ghost predicate Increasing<T>(points: seq<Timed<T>>) {
    forall i, j :: 0 <= i < j < |points| ==> points[i].ts < points[j].ts
  }

  lemma HasPointAppend<T>(points: seq<Timed<T>>, p: Timed<T>, ts: int)
    ensures HasPoint(points + [p], ts) <==> HasPoint(points, ts) || p.ts == ts
  {
    if HasPoint(points, ts) {
      var k :| 0 <= k < |points| && points[k].ts == ts;
      assert (points + [p])[k].ts == ts;
    }
    assert (points + [p])[|points|] == p;
  }

  /** The joined points are in time order, one for each row that has one. */
  lemma {:induction false} JoinedPoints<T>(rows: seq<Result<Option<Timed<T>>, string>>, first: int, step: int, n: nat)
    requires step > 0 && OnGrid(rows, first, step) && Joined(rows).Ok? && rows != []
    ensures Increasing(Joined(rows).value)
    ensures forall k :: 0 <= k < |Joined(rows).value| ==> Joined(rows).value[k].ts <= CursorAt(first, step, |rows| - 1)
    ensures n < |rows| ==>
      rows[n].Ok? && (HasPoint(Joined(rows).value, CursorAt(first, step, n)) <==> rows[n].value.Some?)
    ensures n >= |rows| ==> !HasPoint(Joined(rows).value, CursorAt(first, step, n))
  {
    var last := |rows| - 1;
    var front := rows[..last];
    assert rows == front + [rows[last]];
    JoinedAppend(front, rows[last]);
    if front != [] {
      JoinedPoints(front, first, step, n);
      CursorIncreases(first, step, last - 1, last);
    }
    if rows[last].value.Some? {
      HasPointAppend(Joined(front).value, rows[last].value.value, CursorAt(first, step, n));
    }
    if n < last {
      CursorIncreases(first, step, n, last);
      assert front[n] == rows[n];
    } else if n > last {
      CursorIncreases(first, step, last, n);
    }
  }

  ghost predicate SomeoneSpoke(m: Math, posts: seq<Post>, at: int, maxAge: Option<int>) {
    exists i :: 0 <= i < |posts| && Contributes(m, posts[i], at, maxAge)
  }

  lemma SpokenAppend(m: Math, posts: seq<Post>, p: Post, at: int, maxAge: Option<int>)
    ensures SomeoneSpoke(m, posts + [p], at, maxAge) <==>
      SomeoneSpoke(m, posts, at, maxAge) || Contributes(m, p, at, maxAge)
  {
    if SomeoneSpoke(m, posts, at, maxAge) {
      var i :| 0 <= i < |posts| && Contributes(m, posts[i], at, maxAge);
      assert (posts + [p])[i] == posts[i];
    }
    assert (posts + [p])[|posts|] == p;
  }

  lemma CountAppend(m: Math, posts: seq<Post>, p: Post, at: int, rate: real, maxAge: Option<int>)
    ensures Collect(m, posts + [p], at, rate, maxAge).count
      == Collect(m, posts, at, rate, maxAge).count + if Contributes(m, p, at, maxAge) then 1 else 0
  {
    CollectAppend(m, posts, p, at, rate, maxAge);
  }

  lemma {:induction false} CountedExactlyIfSpoken(m: Math, posts: seq<Post>, at: int, rate: real, maxAge: Option<int>)
    ensures Collect(m, posts, at, rate, maxAge).count > 0 <==> SomeoneSpoke(m, posts, at, maxAge)
  {
    if posts != [] {
      var front, p := posts[..|posts| - 1], posts[|posts| - 1];
      CountedExactlyIfSpoken(m, front, at, rate, maxAge);
      assert posts == front + [p];
      SpokenAppend(m, front, p, at, maxAge);
      CountAppend(m, front, p, at, rate, maxAge);
    }
  }

  lemma {:induction false} BarHasPoint(m: Math, posts: seq<Post>, prices: seq<PriceTick>, settings: Settings,
      cursor: int)
    requires BarAt(m, posts, prices, settings, cursor).Ok?
    ensures BarAt(m, posts, prices, settings, cursor).value.Some? <==>
      SomeoneSpoke(m, posts, cursor, Some(SIGNAL_MAX_AGE))
  {
    var h := HalfLifeAt(posts, prices, settings, cursor).value;
    CountedExactlyIfSpoken(m, posts, cursor, DecayLambda(m, h).value, Some(SIGNAL_MAX_AGE));
  }

  /**
   * Absence is not neutrality: each bar of the grid has a point exactly when some weighty post
   * of the last seven days stands behind it, and points come in time order, one per bar.
   */
  lemma {:induction false} PointsExactlyWhereSomeoneSpoke(m: Math, posts: seq<Post>, prices: seq<PriceTick>,
      settings: Settings, now: int, n: nat)
    requires posts != [] && SeriesOf(m, posts, prices, settings, now).Ok?
    ensures var points, cursor := SeriesOf(m, posts, prices, settings, now).value,
      CursorAt(FirstBar(posts, settings), settings.Step(), n);
      && Increasing(points)
      && (HasPoint(points, cursor) <==>
            cursor <= LastBar(posts, now) && SomeoneSpoke(m, posts, cursor, Some(SIGNAL_MAX_AGE)))
  {
    var first, end, step := FirstBar(posts, settings), LastBar(posts, now), settings.Step();
    var count := Bars(first, end, step);
    var rows := BarRows(m, posts, prices, settings, first, count);
    BarsReach(first, end, step, n);
    BarRowsOnGrid(m, posts, prices, settings, first, count);
    if count > 0 {
      JoinedPoints(rows, first, step, n);
      if n < count {
        assert IsBar(m, posts, prices, settings, first, rows, n);
        BarHasPoint(m, posts, prices, settings, CursorAt(first, step, n));
      }
    }
  }
}
