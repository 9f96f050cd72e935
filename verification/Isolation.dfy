/** What a walk-forward window can and cannot depend on. */
module Isolation {
  import opened Wrappers
  import opened Transcendental
  import opened Backtest

  lemma SameSliceSameWindow(m: Math, obs: seq<Observation>, other: seq<Observation>, config: Config, k: nat,
      origin: nat)
    requires config.WellPosed() && config.fallbackB > 0.0
    requires origin + config.Window() <= |obs| && origin + config.Window() <= |other|
    requires obs[origin..origin + config.Window()] == other[origin..origin + config.Window()]
    ensures WindowFrom(m, obs, config, k, origin) == WindowFrom(m, other, config, k, origin)
  {
    SameStretch(obs, other, origin, config.Window());
  }

  lemma SameStretch<T>(xs: seq<T>, ys: seq<T>, lo: nat, n: nat)
    requires lo + n <= |xs| && lo + n <= |ys| && xs[lo..lo + n] == ys[lo..lo + n]
    ensures Stretch(xs, lo, n) == Stretch(ys, lo, n)
  {
    forall i | 0 <= i < n
      ensures Stretch(xs, lo, n)[i] == Stretch(ys, lo, n)[i]
    {
      assert xs[lo..lo + n][i] == ys[lo..lo + n][i];
    }
  }

  /** A window's result depends on its own stretch of the history alone. */
  lemma {:induction false} WindowsAreLocal(m: Math, obs: seq<Observation>, other: seq<Observation>, config: Config,
      k: nat)
    requires config.WellPosed() && config.fallbackB > 0.0
    requires k < config.WindowCount(|obs|) && k < config.WindowCount(|other|)
    requires config.Origin(k) + config.Window() <= |obs| && config.Origin(k) + config.Window() <= |other|
    requires obs[config.Origin(k)..config.Origin(k) + config.Window()]
      == other[config.Origin(k)..config.Origin(k) + config.Window()]
    ensures Windows(m, obs, config)[k] == Windows(m, other, config)[k]
  {
    SameSliceSameWindow(m, obs, other, config, k, config.Origin(k));
  }

  predicate IsFittedOn(m: Math, w: WindowResult, train: seq<Observation>, config: Config)
    requires train != [] && config.grid != []
  {
    && FitB(m, train, config.fallbackB) == Ok(w.calibratedB)
    && w.responsiveness == FitResponsiveness(m, train, config.grid)
  }

  lemma FittedOnTraining(m: Math, slice: seq<Observation>, train: seq<Observation>, config: Config, k: nat, origin: nat)
    requires config.WellPosed() && config.fallbackB > 0.0 && |slice| == config.Window()
    requires train == slice[..config.trainSize]
    ensures IsFittedOn(m, WindowAt(m, slice, config, k, origin), train, config)
  {
    FitBSucceeds(m, train, config.fallbackB);
    WindowParts(m, slice, train, slice[config.trainSize..], config, k, origin,
      FitB(m, train, config.fallbackB).value, FitResponsiveness(m, train, config.grid));
  }

  lemma WindowIsFitted(m: Math, obs: seq<Observation>, config: Config, k: nat, origin: nat)
    requires config.WellPosed() && config.fallbackB > 0.0 && origin + config.Window() <= |obs|
    ensures IsFittedOn(m, WindowFrom(m, obs, config, k, origin), obs[origin..origin + config.trainSize], config)
  {
    PartsOfStretch(obs, origin, config.trainSize, config.Window());
    FittedOnTraining(m, Stretch(obs, origin, config.Window()), obs[origin..origin + config.trainSize], config, k,
      origin);
  }

  /**
   * Nothing of the test slice, nor of anything later, reaches the fitted parameters: in every window
   * of a walk they are those fitted to its training slice.
   */
  lemma {:induction false} TestDataDoesNotLeak(m: Math, obs: seq<Observation>, config: Config, k: nat)
    requires config.WellPosed() && config.fallbackB > 0.0 && k < config.WindowCount(|obs|)
    requires config.Origin(k) + config.Window() <= |obs|
    ensures IsFittedOn(m, Windows(m, obs, config)[k],
      obs[config.Origin(k)..config.Origin(k) + config.trainSize], config)
  {
    WindowIsFitted(m, obs, config, k, config.Origin(k));
  }

  /** No lookahead: more history only appends windows. */
  lemma {:induction false} LaterHistoryOnlyAppends(m: Math, obs: seq<Observation>, more: seq<Observation>,
      config: Config)
    requires config.WellPosed() && config.fallbackB > 0.0
    ensures Windows(m, obs, config) <= Windows(m, obs + more, config)
  {
    var all, longer := Windows(m, obs, config), Windows(m, obs + more, config);
    if all != [] {
      OriginFits(|obs|, config, |all| - 1);
      OriginFits(|obs + more|, config, |all| - 1);
    }
    forall k | 0 <= k < |all|
      ensures k < |longer| && all[k] == longer[k]
    {
      OriginFits(|obs|, config, k);
      OriginFits(|obs + more|, config, k);
      var lo, hi := config.Origin(k), config.Origin(k) + config.Window();
      assert (obs + more)[lo..hi] == obs[lo..hi];
      WindowsAreLocal(m, obs, obs + more, config, k);
    }
  }

  lemma {:induction false} OriginsSpread(config: Config, i: nat, j: nat)
    requires i < j
    ensures config.Origin(j) - config.Origin(i) >= config.Stride()
    ensures j == i + 1 ==> config.Origin(j) - config.Origin(i) == config.Stride()
    decreases j
  {
    if j > i + 1 {
      OriginsSpread(config, i, j - 1);
    }
  }

  /** No observation is tested twice exactly when the stride is at least the test size. */
  lemma {:induction false} TestBlocksAreDisjoint(m: Math, obs: seq<Observation>, config: Config)
    requires config.WellPosed() && config.fallbackB > 0.0
    requires config.WindowCount(|obs|) >= 2
    ensures config.Stride() >= config.testSize <==>
      forall i, j :: 0 <= i < j < config.WindowCount(|obs|) ==>
        Windows(m, obs, config)[i].testEnd <= Windows(m, obs, config)[j].testStart
  {
    var all := Windows(m, obs, config);
    WindowsAreWindows(m, obs, config);
    forall i, j | 0 <= i < j < |all|
      ensures config.Stride() >= config.testSize ==> all[i].testEnd <= all[j].testStart
      ensures j == i + 1 && all[i].testEnd <= all[j].testStart ==> config.Stride() >= config.testSize
    {
      assert IsWindow(m, obs, config, all, i) && IsWindow(m, obs, config, all, j);
      WindowBounds(m, obs, config, all, i);
      WindowBounds(m, obs, config, all, j);
      OriginsSpread(config, i, j);
    }
    if config.Stride() < config.testSize {
      assert !(all[0].testEnd <= all[1].testStart);
    }
  }

  /** Each window trains on `trainSize` observations and is tested on exactly the next `testSize`. */
  lemma {:induction false} WindowBounds(m: Math, obs: seq<Observation>, config: Config, all: seq<WindowResult>, k: nat)
    requires IsWindow(m, obs, config, all, k)
    ensures all[k].trainStart == config.Origin(k) && all[k].trainEnd == config.Origin(k) + config.trainSize
    ensures all[k].testStart == all[k].trainEnd && all[k].testEnd == all[k].testStart + config.testSize
    ensures all[k].nTest == config.testSize && all[k].index == k
  {
  }

  predicate SameSignalsAndPrices(obs: seq<Observation>, other: seq<Observation>) {
    && |obs| == |other|
    && forall i :: 0 <= i < |obs| ==>
         obs[i].signal == other[i].signal && obs[i].marketPrice == other[i].marketPrice
  }

  lemma {:induction false} PathIgnoresBooks(m: Math, obs: seq<Observation>, other: seq<Observation>, r: real, n: nat)
    requires SameSignalsAndPrices(obs, other) && obs != [] && n <= |obs|
    ensures PathLogit(m, obs, r, n) == PathLogit(m, other, r, n)
  {
    if n > 0 {
      PathIgnoresBooks(m, obs, other, r, n - 1);
    }
  }

  lemma {:induction false} SimulationIgnoresBooks(m: Math, obs: seq<Observation>, other: seq<Observation>, r: real)
    requires SameSignalsAndPrices(obs, other)
    ensures Path(m, obs, r) == Path(m, other, r)
    ensures Prices(obs) == Prices(other)
  {
    forall i | 0 <= i < |obs|
      ensures Path(m, obs, r)[i] == Path(m, other, r)[i]
    {
      PathIgnoresBooks(m, obs, other, r, i + 1);
    }
  }

  lemma {:induction false} FitIgnoresBooks(m: Math, train: seq<Observation>, other: seq<Observation>, grid: seq<real>)
    requires SameSignalsAndPrices(train, other) && train != [] && grid != []
    ensures FitResponsiveness(m, train, grid) == FitResponsiveness(m, other, grid)
  {
    forall r
      ensures ErrorOn(m, train)(r) == ErrorOn(m, other)(r)
    {
      SimulationIgnoresBooks(m, train, other, r);
    }
    SameErrorsSameMinimiser(ErrorOn(m, train), ErrorOn(m, other), grid);
  }

  lemma {:induction false} SameErrorsSameMinimiser(error: real -> real, other: real -> real, grid: seq<real>)
    requires grid != []
    requires forall r :: error(r) == other(r)
    ensures FirstMinimiser(error, grid) == FirstMinimiser(other, grid)
  {
    if |grid| > 1 {
      SameErrorsSameMinimiser(error, other, grid[..|grid| - 1]);
    }
  }

  /**
   * The book decides the reported `b` and nothing else: over histories with the same signals and
   * prices, every window fits the same responsiveness and scores the same errors.
   */
  lemma {:induction false} BooksOnlyMoveTheReportedB(m: Math, slice: seq<Observation>, other: seq<Observation>,
      config: Config,
      index: nat, origin: nat)
    requires config.WellPosed() && config.fallbackB > 0.0
    requires |slice| == |other| == config.Window()
    requires SameSignalsAndPrices(slice, other)
    ensures var w, v := WindowAt(m, slice, config, index, origin), WindowAt(m, other, config, index, origin);
      w == v.(calibratedB := w.calibratedB)
  {
    var n := config.trainSize;
    var w, v := WindowAt(m, slice, config, index, origin), WindowAt(m, other, config, index, origin);
    FitIgnoresBooks(m, slice[..n], other[..n], config.grid);
    SimulationIgnoresBooks(m, slice[n..], other[n..], w.responsiveness);
  }
}
