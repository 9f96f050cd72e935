/** Walk-forward backtesting of the synthetic market. */
module Backtest {
  import opened Wrappers
  import opened Transcendental
  import opened BinaryMarket
  import opened DepthCalibration
  import Correlation
  import Primes

  datatype Observation = Observation(timestamp: int, signal: real, marketPrice: real, quote: Quote)

  datatype Config = Config(
    trainSize: nat, testSize: nat, step: Option<nat>, grid: seq<real>, fallbackB: real)
  {
    function Stride(): nat {
      step.GetOr(testSize)
    }

    function Window(): nat {
      trainSize + testSize
    }

    /** Where window `k` starts. */
    function Origin(k: nat): nat {
      if k == 0 then 0 else Origin(k - 1) + Stride()
    }

    /** What `WalkForward` rejects up front. */
    function Rejection(): Option<string> {
      if trainSize == 0 || testSize == 0 then Some("train_size and test_size must be positive")
      else if grid == [] then Some("responsiveness_grid must not be empty")
      else if Stride() == 0 then Some("step must be positive")
      else None
    }

    predicate WellPosed() {
      Rejection() == None
    }

    /** What makes the first window throw. */
    predicate Runnable() {
      fallbackB > 0.0 && forall i :: 0 <= i < |grid| ==> ValidResponsiveness(grid[i])
    }

    /** How many complete windows `n` observations hold. */
    function WindowCount(n: int): nat
      requires WellPosed()
      decreases if n < 0 then 0 else n
    {
      if n < Window() then 0 else 1 + WindowCount(n - Stride())
    }
  }

  datatype WindowResult = WindowResult(
    index: nat, trainStart: nat, trainEnd: nat, testStart: nat, testEnd: nat,
    calibratedB: real, responsiveness: real, mse: real, mseBaseline: real, correlation: real, nTest: nat)
  {
    predicate BeatsBaseline() {
      mse < mseBaseline
    }
  }

  datatype Summary = Summary(
    windows: seq<WindowResult>, meanMse: real, meanBaselineMse: real, windowsBeatingBaseline: nat,
    bMin: real, bMax: real, bMean: real, bVariation: real)

  const EMPTY_SUMMARY := Summary([], 0.0, 0.0, 0, 0.0, 0.0, 0.0, 0.0)

  function SignalToProbability(signal: real): real {
    (signal + 1.0) / 2.0
  }

  // --------------------------------------------------------------------- the simulated path

  predicate ValidResponsiveness(r: real) {
    0.0 < r <= 1.0
  }

  /**
   * The log-odds after `n` observations: anchored on the first price, then a fixed fraction of
   * each remaining gap. No liquidity occurs in it.
   */
  function PathLogit(m: Math, obs: seq<Observation>, r: real, n: nat): real
    requires obs != [] && n <= |obs|
  {
    if n == 0 then m.Logit(obs[0].marketPrice)
    else Towards(PathLogit(m, obs, r, n - 1), m.Logit(SignalToProbability(obs[n - 1].signal)), r)
  }

  /** The simulated price after each observation. */
  function Path(m: Math, obs: seq<Observation>, r: real): (path: seq<real>)
    ensures |path| == |obs|
    ensures forall i :: 0 <= i < |obs| ==> path[i] == m.Sigmoid(PathLogit(m, obs, r, i + 1))
  {
    seq(|obs|, i requires 0 <= i < |obs| => m.Sigmoid(PathLogit(m, obs, r, i + 1)))
  }

  /** Driving the market with liquidity `b` yields a path in which `b` has no part. */
  method SimulatePath(m: Math, observations: seq<Observation>, start: nat, end: nat, b: real, r: real)
    returns (result: Result<seq<real>, string>)
    requires m.Lawful()
    ensures start >= end || end > |observations| ==> result == Ok([])
    ensures start < end <= |observations| ==> (result.Ok? <==> b > 0.0 && ValidResponsiveness(r))
    ensures start < end <= |observations| && result.Ok? ==> result.value == Path(m, observations[start..end], r)
  {
    if start >= end || end > |observations| {
      return Ok([]);
    }
    if b <= 0.0 {
      return Err("liquidity parameter b must be positive");
    }
    var market := OpenAt(m, b, observations[start].marketPrice);
    result := Drive(market, observations, start, end, r);
  }

  /** One step of an anchored market per observation. */
  method Drive(market: LmsrMarket, observations: seq<Observation>, start: nat, end: nat, r: real)
    returns (result: Result<seq<real>, string>)
    requires market.Valid() && market.Snapshot().InBand(market.m)
    requires start < end <= |observations|
    requires market.Snapshot().Imbalance() == market.m.Logit(observations[start].marketPrice)
    modifies market
    ensures result.Ok? <==> ValidResponsiveness(r)
    ensures result.Ok? ==> result.value == Path(market.m, observations[start..end], r)
  {
    var path := [];
    ghost var obs := observations[start..end];
    for i := start to end
      invariant market.Valid() && market.Snapshot().InBand(market.m)
      invariant market.Snapshot().Imbalance() == PathLogit(market.m, obs, r, i - start)
      invariant i > start ==> ValidResponsiveness(r)
      invariant |path| == i - start
      invariant forall j :: 0 <= j < i - start ==> path[j] == market.m.Sigmoid(PathLogit(market.m, obs, r, j + 1))
    {
      assert obs[i - start] == observations[i];
      var price := Observe(market, observations[i].signal, r);
      if price.Err? {
        return Err(price.error);
      }
      path := path + [price.value];
    }
    result := Ok(path);
  }

  /** A market of any liquidity, anchored on `price`. */
  method OpenAt(m: Math, b: real, price: real) returns (market: LmsrMarket)
    requires m.Lawful() && b > 0.0
    ensures fresh(market) && market.Valid() && market.m == m && market.b == b
    ensures market.Snapshot().InBand(m) && market.Snapshot().Imbalance() == m.Logit(price)
  {
    market := new LmsrMarket(m, b, 0.0, 0.0);
    AnchorLands(m, b, price);
    var _ := market.MoveToPrice(ClampProbability(price));
  }

  /** One observation closes the fraction `r` of the gap to the signal's forecast. */
  method Observe(market: LmsrMarket, signal: real, r: real) returns (price: Result<real, string>)
    requires market.Valid() && market.Snapshot().InBand(market.m)
    modifies market
    ensures market.Valid() && market.Snapshot().InBand(market.m) && market.b == old(market.b)
    ensures price.Ok? <==> ValidResponsiveness(r)
    ensures price.Ok? ==>
      && market.Snapshot().Imbalance() ==
           Towards(old(market.Snapshot()).Imbalance(), market.m.Logit(SignalToProbability(signal)), r)
      && price.value == market.m.Sigmoid(market.Snapshot().Imbalance())
  {
    ghost var op := Step(SignalToProbability(signal), r, None);
    NextFollowsLogit(market.m, market.Snapshot(), op);
    NextKeepsTheBand(market.m, market.Snapshot(), op);
    var step := market.StepFromSignal(SignalToProbability(signal), r, None);
    if step.Err? {
      return Err(step.error);
    }
    price := Ok(market.Price());
  }

  /** The opening position carries the clamped anchor price, whatever the liquidity. */
  lemma {:induction false} AnchorLands(m: Math, b: real, price: real)
    requires m.Lawful() && b > 0.0
    ensures var t := Next(m, Position(b, 0.0, 0.0), Move(ClampProbability(price)));
      t.Imbalance() == m.Logit(price) && t.InBand(m)
  {
    FreshIsInBand(m, Position(b, 0.0, 0.0));
    MoveLands(m, Position(b, 0.0, 0.0), ClampProbability(price));
    m.LogitInBand(price);
    m.LogitOfClamped(price);
  }

  // ---------------------------------------------------------------------- mean squared error

  function Square(x: real): real {
    Times(x, x)
  }

  function SquaredErrors(predicted: seq<real>, actual: seq<real>): real
    requires |predicted| == |actual|
  {
    if predicted == [] then 0.0
    else
      var n := |predicted| - 1;
      SquaredErrors(predicted[..n], actual[..n]) + Square(predicted[n] - actual[n])
  }

  function MeanSquared(predicted: seq<real>, actual: seq<real>): real
    requires |predicted| == |actual| > 0
  {
    SquaredErrors(predicted, actual) / |predicted| as real
  }

  /** `None` stands for NaN. */
  method MeanSquaredError(predicted: seq<real>, actual: seq<real>) returns (mse: Option<real>)
    ensures mse.None? <==> |predicted| != |actual| || |predicted| == 0
    ensures mse.Some? ==> mse.value == MeanSquared(predicted, actual)
  {
    if |predicted| != |actual| || |predicted| == 0 {
      return None;
    }
    var total := 0.0;
    for i := 0 to |predicted|
      invariant total == SquaredErrors(predicted[..i], actual[..i])
    {
      assert predicted[..i + 1][..i] == predicted[..i] && actual[..i + 1][..i] == actual[..i];
      var error := predicted[i] - actual[i];
      total := total + Square(error);
    }
    assert predicted[..|predicted|] == predicted && actual[..|actual|] == actual;
    mse := Some(total / |predicted| as real);
  }

  /** The error is zero exactly for a perfect prediction. */
  lemma {:induction false} ZeroErrorMeansEqual(predicted: seq<real>, actual: seq<real>)
    requires |predicted| == |actual|
    ensures SquaredErrors(predicted, actual) >= 0.0
    ensures SquaredErrors(predicted, actual) == 0.0 <==> predicted == actual
  {
    if predicted != [] {
      var n := |predicted| - 1;
      ZeroErrorMeansEqual(predicted[..n], actual[..n]);
      SquareSign(predicted[n] - actual[n]);
      assert predicted == predicted[..n] + [predicted[n]] && actual == actual[..n] + [actual[n]];
    }
  }

  // ----------------------------------------------------------- fitting on the training slice

  function Prices(obs: seq<Observation>): (prices: seq<real>)
    ensures |prices| == |obs| && forall i :: 0 <= i < |obs| ==> prices[i] == obs[i].marketPrice
  {
    seq(|obs|, i requires 0 <= i < |obs| => obs[i].marketPrice)
  }

  predicate TwoSided(o: Observation) {
    o.quote.yesBid.Some? && o.quote.yesAsk.Some?
  }

  /** Calibrated from the latest two-sided book of the slice, or the fallback. */
  function FitB(m: Math, train: seq<Observation>, fallback: real): Result<real, string> {
    if train == [] then Ok(fallback)
    else
      var last := train[|train| - 1];
      if TwoSided(last) then CalibrateB(m, last.quote, Mean, fallback)
      else FitB(m, train[..|train| - 1], fallback)
  }

  function TrainError(m: Math, train: seq<Observation>, r: real): real
    requires train != []
  {
    MeanSquared(Path(m, train, r), Prices(train))
  }

  /** The candidate a left-to-right search for strictly smaller errors ends on. */
  function FirstMinimiser(error: real -> real, grid: seq<real>): (r: real)
    requires grid != []
  {
    var n := |grid| - 1;
    if n == 0 then grid[0]
    else
      var best := FirstMinimiser(error, grid[..n]);
      if error(grid[n]) < error(best) then grid[n] else best
  }

  /** Nothing in the grid does better, and nothing earlier does as well. */
  lemma {:induction false} NothingEarlierIsAsGood(error: real -> real, grid: seq<real>) returns (j: nat)
    requires grid != []
    ensures j < |grid| && FirstMinimiser(error, grid) == grid[j]
    ensures forall i :: 0 <= i < |grid| ==> error(grid[j]) <= error(grid[i])
    ensures forall i :: 0 <= i < j ==> error(grid[j]) < error(grid[i])
  {
    var n := |grid| - 1;
    if n == 0 {
      j := 0;
    } else {
      j := NothingEarlierIsAsGood(error, grid[..n]);
      assert forall i :: 0 <= i < n ==> grid[..n][i] == grid[i];
      if error(grid[n]) < error(grid[j]) {
        j := n;
      }
    }
  }

  /** Responsiveness is fitted to the training slice, and to nothing else. */
  function FitResponsiveness(m: Math, train: seq<Observation>, grid: seq<real>): (r: real)
    requires train != [] && grid != []
  {
    FirstMinimiser(ErrorOn(m, train), grid)
  }

  function ErrorOn(m: Math, train: seq<Observation>): real -> real
    requires train != []
  {
    r => TrainError(m, train, r)
  }

  ghost predicate IsErrorOn(m: Math, train: seq<Observation>, error: real -> real, r: real)
    requires train != []
  {
    error(r) == TrainError(m, train, r)
  }

  method SearchB(m: Math, observations: seq<Observation>, trainStart: nat, trainEnd: nat, fallback: real)
    returns (b: Result<real, string>)
    requires trainStart <= trainEnd <= |observations|
    ensures b == FitB(m, observations[trainStart..trainEnd], fallback)
  {
    var i := trainEnd;
    ghost var train := observations[trainStart..trainEnd];
    assert train[..i - trainStart] == train;
    while i > trainStart
      invariant trainStart <= i <= trainEnd
      invariant FitB(m, train, fallback) == FitB(m, train[..i - trainStart], fallback)
    {
      i := i - 1;
      assert train[..i + 1 - trainStart][..i - trainStart] == train[..i - trainStart];
      if TwoSided(observations[i]) {
        return CalibrateB(m, observations[i].quote, Mean, fallback);
      }
    }
    b := Ok(fallback);
  }

  /** The error of one candidate on the training window: never NaN, and out-of-range parameters throw. */
  method ErrorOfCandidate(m: Math, observations: seq<Observation>, trainStart: nat, trainEnd: nat,
      actual: seq<real>, b: real, r: real, ghost error: real -> real)
    returns (mse: Result<real, string>)
    requires m.Lawful() && trainStart < trainEnd <= |observations|
    requires actual == Prices(observations[trainStart..trainEnd])
    requires IsErrorOn(m, observations[trainStart..trainEnd], error, r)
    ensures mse.Ok? <==> b > 0.0 && ValidResponsiveness(r)
    ensures mse.Ok? ==> mse.value == error(r)
  {
    var path := SimulatePath(m, observations, trainStart, trainEnd, b, r);
    if path.Err? {
      return Err(path.error);
    }
    var mean := MeanSquaredError(path.value, actual);
    mse := Ok(mean.value);
  }

  predicate Tried(b: real, grid: seq<real>, n: nat)
    requires n <= |grid|
  {
    forall i :: 0 <= i < n ==> b > 0.0 && ValidResponsiveness(grid[i])
  }

  /** `at` keeps the best candidate so far with its error, replaced only by a strictly better one. */
  ghost predicate KeepsBetter(at: nat -> (real, Option<real>), error: real -> real, grid: seq<real>, n: nat)
    requires n < |grid|
  {
    var (best, mse) := at(n);
    at(n + 1) == if mse.None? || error(grid[n]) < mse.value then (grid[n], Some(error(grid[n]))) else (best, mse)
  }

  ghost predicate FollowsSearch(at: nat -> (real, Option<real>), error: real -> real, grid: seq<real>)
    requires grid != []
  {
    at(0) == (grid[0], None) && forall n: nat :: n < |grid| ==> KeepsBetter(at, error, grid, n)
  }

  ghost predicate ErrsOn(m: Math, train: seq<Observation>, error: real -> real)
    requires train != []
  {
    forall r :: IsErrorOn(m, train, error, r)
  }

  /** One candidate of the grid. */
  method TryCandidate(m: Math, observations: seq<Observation>, trainStart: nat, trainEnd: nat, actual: seq<real>,
      b: real, grid: seq<real>, n: nat, state: (real, Option<real>),
      ghost error: real -> real, ghost at: nat -> (real, Option<real>))
    returns (r: Result<(real, Option<real>), string>)
    requires m.Lawful() && trainStart < trainEnd <= |observations| && n < |grid|
    requires actual == Prices(observations[trainStart..trainEnd])
    requires ErrsOn(m, observations[trainStart..trainEnd], error)
    requires FollowsSearch(at, error, grid) && state == at(n)
    ensures r.Ok? <==> b > 0.0 && ValidResponsiveness(grid[n])
    ensures r.Ok? ==> r.value == at(n + 1)
  {
    assert IsErrorOn(m, observations[trainStart..trainEnd], error, grid[n]);
    assert KeepsBetter(at, error, grid, n);
    var mse := ErrorOfCandidate(m, observations, trainStart, trainEnd, actual, b, grid[n], error);
    if mse.Err? {
      return Err(mse.error);
    }
    if state.1.None? || mse.value < state.1.value {
      return Ok((grid[n], Some(mse.value)));
    }
    r := Ok(state);
  }

  /** The grid search, for any `error` that agrees with the training error and any `at` that follows the search. */
  method SearchAlong(m: Math, observations: seq<Observation>, trainStart: nat, trainEnd: nat,
      b: real, grid: seq<real>, ghost error: real -> real, ghost at: nat -> (real, Option<real>))
    returns (best: Result<real, string>)
    requires m.Lawful() && trainStart < trainEnd <= |observations| && grid != []
    requires ErrsOn(m, observations[trainStart..trainEnd], error)
    requires FollowsSearch(at, error, grid)
    ensures best.Ok? <==> b > 0.0 && forall i :: 0 <= i < |grid| ==> ValidResponsiveness(grid[i])
    ensures best.Ok? ==> best.value == at(|grid|).0
  {
    var state := (grid[0], None);  // no error is infinite
    var actual := Prices(observations[trainStart..trainEnd]);
    for n := 0 to |grid|
      invariant Tried(b, grid, n)
      invariant state == at(n)
    {
      var better := TryCandidate(m, observations, trainStart, trainEnd, actual, b, grid, n, state, error, at);
      if better.Err? {
        return Err(better.error);
      }
      state := better.value;
    }
    best := Ok(state.0);
  }

  /** The best of the first `n` candidates with its error, or the first candidate with none. */
  ghost function SearchState(error: real -> real, grid: seq<real>, n: nat): (real, Option<real>)
    requires grid != []
  {
    if n == 0 || n > |grid| then (grid[0], None)
    else
      var best := FirstMinimiser(error, grid[..n]);
      (best, Some(error(best)))
  }

  lemma {:induction false} SearchStateSnoc(error: real -> real, grid: seq<real>, n: nat)
    requires n < |grid|
    ensures KeepsBetter((k: nat) => SearchState(error, grid, k), error, grid, n)
  {
    assert grid[..n + 1][..n] == grid[..n];
  }

  method SearchGrid(m: Math, observations: seq<Observation>, trainStart: nat, trainEnd: nat,
      b: real, grid: seq<real>, ghost error: real -> real)
    returns (best: Result<real, string>)
    requires m.Lawful() && trainStart < trainEnd <= |observations| && grid != []
    requires ErrsOn(m, observations[trainStart..trainEnd], error)
    ensures best.Ok? <==> b > 0.0 && forall i :: 0 <= i < |grid| ==> ValidResponsiveness(grid[i])
    ensures best.Ok? ==> best.value == FirstMinimiser(error, grid)
  {
    ghost var at := (k: nat) => SearchState(error, grid, k);
    forall n: nat | n < |grid|
      ensures KeepsBetter(at, error, grid, n)
    {
      SearchStateSnoc(error, grid, n);
    }
    best := SearchAlong(m, observations, trainStart, trainEnd, b, grid, error, at);
    assert grid[..|grid|] == grid;
  }

  method SearchResponsiveness(m: Math, observations: seq<Observation>, trainStart: nat, trainEnd: nat,
      b: real, grid: seq<real>)
    returns (best: Result<real, string>)
    requires m.Lawful() && trainStart < trainEnd <= |observations| && grid != []
    ensures best.Ok? <==> b > 0.0 && forall i :: 0 <= i < |grid| ==> ValidResponsiveness(grid[i])
    ensures best.Ok? ==> best.value == FitResponsiveness(m, observations[trainStart..trainEnd], grid)
  {
    best := SearchGrid(m, observations, trainStart, trainEnd, b, grid, ErrorOn(m, observations[trainStart..trainEnd]));
  }

  // ------------------------------------------------------------------------------- windows

  function Constant(x: real, n: nat): (xs: seq<real>)
    ensures |xs| == n && forall i :: 0 <= i < n ==> xs[i] == x
  {
    seq(n, _ => x)
  }

  /** The fitted parameters, and the last-price baseline, scored on a test slice. */
  function Evaluated(m: Math, lastPrice: real, test: seq<Observation>, index: nat, origin: nat, testStart: nat,
      b: real, r: real): WindowResult
    requires test != []
  {
    var actual := Prices(test);
    WindowResult(
      index, origin, testStart, testStart, testStart + |test|, b, r,
      MeanSquared(Path(m, test, r), actual), MeanSquared(Constant(lastPrice, |test|), actual),
      Correlation.OfDifferences(m, Path(m, test, r), actual), |test|)
  }

  /** One window's result, from its own observations alone. */
  function WindowAt(m: Math, slice: seq<Observation>, config: Config, index: nat, origin: nat): WindowResult
    requires config.WellPosed() && config.fallbackB > 0.0 && |slice| == config.Window()
  {
    var train, test := slice[..config.trainSize], slice[config.trainSize..];
    FitBSucceeds(m, train, config.fallbackB);
    Evaluated(m, train[|train| - 1].marketPrice, test, index, origin, origin + config.trainSize,
      FitB(m, train, config.fallbackB).value, FitResponsiveness(m, train, config.grid))
  }

  lemma {:induction false} FitBSucceeds(m: Math, train: seq<Observation>, fallback: real)
    ensures InRange(FitB(m, train, fallback), fallback) || (FitB(m, train, fallback) == Ok(fallback) && fallback <= 0.0)
  {
    if train != [] {
      var last := train[|train| - 1];
      CalibrationIsPositive(m, last.quote, Mean, fallback);
      FitBSucceeds(m, train[..|train| - 1], fallback);
    }
  }

  /** Window `k` exists exactly when it fits. */
  lemma {:induction false} OriginFits(n: int, config: Config, k: nat)
    requires config.WellPosed()
    ensures k < config.WindowCount(n) <==> config.Origin(k) + config.Window() <= n
    decreases k
  {
    if k > 0 {
      OriginFits(n - config.Stride(), config, k - 1);
    }
  }

  /** There are `floor((n - window) / step) + 1` windows, `step` apart. */
  lemma {:induction false} WindowCountFormula(n: int, config: Config)
    requires config.WellPosed() && n >= config.Window()
    ensures config.WindowCount(n) == (n - config.Window()) / config.Stride() + 1
    decreases n
  {
    var room, step := n - config.Window(), config.Stride();
    if room < step {
      Primes.ModUnique(step, room, 0, room);
    } else {
      WindowCountFormula(n - step, config);
      var q := (room - step) / step;
      assert room - step == q * step + (room - step) % step;
      assert (q + 1) * step == q * step + step;
      Primes.ModUnique(step, room, q + 1, (room - step) % step);
    }
  }

  lemma {:induction false} OriginFormula(config: Config, k: nat)
    ensures config.Origin(k) == k * config.Stride()
  {
    if k > 0 {
      OriginFormula(config, k - 1);
      assert k * config.Stride() == (k - 1) * config.Stride() + config.Stride();
    }
  }

  /** The `n` values from `lo` on. */
  function Stretch<T>(xs: seq<T>, lo: nat, n: nat): (ys: seq<T>)
    requires lo + n <= |xs|
    ensures |ys| == n
  {
    seq(n, i requires 0 <= i < n => xs[lo + i])
  }

  /** The result of the window that starts at `origin`. */
  function WindowFrom(m: Math, observations: seq<Observation>, config: Config, k: nat, origin: nat): WindowResult
    requires config.WellPosed() && config.fallbackB > 0.0
    requires origin + config.Window() <= |observations|
  {
    WindowAt(m, Stretch(observations, origin, config.Window()), config, k, origin)
  }

  function WindowOf(m: Math, observations: seq<Observation>, config: Config, k: nat): WindowResult
    requires config.WellPosed() && config.fallbackB > 0.0
    requires k < config.WindowCount(|observations|)
  {
    OriginFits(|observations|, config, k);
    WindowFrom(m, observations, config, k, config.Origin(k))
  }

  function Windows(m: Math, observations: seq<Observation>, config: Config): (windows: seq<WindowResult>)
    requires config.WellPosed()
    requires |observations| >= config.Window() ==> config.fallbackB > 0.0
    ensures |windows| == config.WindowCount(|observations|)
    ensures forall k :: 0 <= k < |windows| ==> windows[k] == WindowOf(m, observations, config, k)
  {
    seq(config.WindowCount(|observations|), k requires 0 <= k < config.WindowCount(|observations|) =>
      WindowOf(m, observations, config, k))
  }

  lemma WindowParts(m: Math, slice: seq<Observation>, train: seq<Observation>, test: seq<Observation>, config: Config,
      index: nat, origin: nat, b: real, best: real)
    requires config.WellPosed() && config.fallbackB > 0.0 && |slice| == config.Window()
    requires train == slice[..config.trainSize] && test == slice[config.trainSize..]
    requires FitB(m, train, config.fallbackB) == Ok(b) && best == FitResponsiveness(m, train, config.grid)
    ensures WindowAt(m, slice, config, index, origin) ==
      Evaluated(m, train[|train| - 1].marketPrice, test, index, origin, origin + config.trainSize, b, best)
  {
  }

  method RunWindow(m: Math, observations: seq<Observation>, config: Config, index: nat, origin: nat)
    returns (r: Result<WindowResult, string>)
    requires m.Lawful() && config.WellPosed() && origin + config.Window() <= |observations|
    ensures r.Ok? <==> config.Runnable()
    ensures r.Ok? ==> r.value == WindowFrom(m, observations, config, index, origin)
  {
    r := RunSlice(m, observations, config, index, origin, Stretch(observations, origin, config.Window()));
  }

  lemma PartsOfStretch<T>(xs: seq<T>, lo: nat, a: nat, n: nat)
    requires a <= n && lo + n <= |xs|
    ensures Stretch(xs, lo, n)[..a] == xs[lo..lo + a]
    ensures Stretch(xs, lo, n)[a..] == xs[lo + a..lo + n]
    ensures a > 0 ==> Stretch(xs, lo, n)[..a][a - 1] == xs[lo + a - 1]
  {
  }

  method RunSlice(m: Math, observations: seq<Observation>, config: Config, index: nat, origin: nat,
      ghost slice: seq<Observation>)
    returns (r: Result<WindowResult, string>)
    requires m.Lawful() && config.WellPosed() && origin + config.Window() <= |observations|
    requires slice == Stretch(observations, origin, config.Window())
    ensures r.Ok? <==> config.Runnable()
    ensures r.Ok? ==> r.value == WindowAt(m, slice, config, index, origin)
  {
    PartsOfStretch(observations, origin, config.trainSize, config.Window());
    ghost var train, test := slice[..config.trainSize], slice[config.trainSize..];
    r := RunParts(m, observations, config, index, origin, train, test, train[config.trainSize - 1]);
    if r.Ok? {
      WindowParts(m, slice, train, test, config, index, origin, r.value.calibratedB, r.value.responsiveness);
    }
  }

  ghost predicate IsRun(m: Math, w: WindowResult, train: seq<Observation>, test: seq<Observation>, last: Observation,
      config: Config, index: nat, origin: nat)
    requires config.WellPosed() && test != [] && train != []
  {
    && FitB(m, train, config.fallbackB) == Ok(w.calibratedB)
    && w.responsiveness == FitResponsiveness(m, train, config.grid)
    && w == Evaluated(
         m, last.marketPrice, test, index, origin, origin + config.trainSize, w.calibratedB, w.responsiveness)
  }

  method RunParts(m: Math, observations: seq<Observation>, config: Config, index: nat, origin: nat,
      ghost train: seq<Observation>, ghost test: seq<Observation>, ghost last: Observation)
    returns (r: Result<WindowResult, string>)
    requires m.Lawful() && config.WellPosed() && origin + config.Window() <= |observations|
    requires train == observations[origin..origin + config.trainSize]
    requires test == observations[origin + config.trainSize..origin + config.Window()]
    requires last == observations[origin + config.trainSize - 1]
    ensures r.Ok? <==> config.Runnable()
    ensures r.Ok? ==> IsRun(m, r.value, train, test, last, config, index, origin)
  {
    var trainEnd, testEnd := origin + config.trainSize, origin + config.Window();
    var fitted := FitWindow(m, observations, config, origin, trainEnd, train);
    if fitted.Err? {
      return Err(fitted.error);
    }
    var (b, best) := fitted.value;
    var result := EvaluateWindow(m, observations, index, origin, trainEnd, testEnd, b, best, test);
    r := Ok(result);
  }

  /** The liquidity and the responsiveness, from the training slice. */
  method FitWindow(m: Math, observations: seq<Observation>, config: Config, origin: nat, trainEnd: nat,
      ghost train: seq<Observation>)
    returns (r: Result<(real, real), string>)
    requires m.Lawful() && config.WellPosed() && trainEnd == origin + config.trainSize <= |observations|
    requires train == observations[origin..trainEnd]
    ensures r.Ok? <==> config.Runnable()
    ensures r.Ok? ==> FitB(m, train, config.fallbackB) == Ok(r.value.0) && r.value.0 > 0.0
    ensures r.Ok? ==> r.value.1 == FitResponsiveness(m, train, config.grid)
    ensures r.Ok? ==> ValidResponsiveness(r.value.1)
  {
    FitBSucceeds(m, train, config.fallbackB);
    var b := SearchB(m, observations, origin, trainEnd, config.fallbackB);
    if b.Err? {
      return Err(b.error);
    }
    var best := SearchResponsiveness(m, observations, origin, trainEnd, b.value, config.grid);
    if best.Err? {
      return Err(best.error);
    }
    FirstMinimiserInGrid(ErrorOn(m, train), config.grid);
    r := Ok((b.value, best.value));
  }

  lemma {:induction false} FirstMinimiserInGrid(error: real -> real, grid: seq<real>)
    requires grid != []
    ensures exists j :: 0 <= j < |grid| && grid[j] == FirstMinimiser(error, grid)
  {
    var j := NothingEarlierIsAsGood(error, grid);
  }

  method EvaluateWindow(m: Math, observations: seq<Observation>, index: nat, origin: nat, testStart: nat, testEnd: nat,
      b: real, best: real, ghost test: seq<Observation>)
    returns (r: WindowResult)
    requires m.Lawful() && 0 < testStart < testEnd <= |observations|
    requires b > 0.0 && ValidResponsiveness(best)
    requires test == observations[testStart..testEnd]
    ensures r == Evaluated(m, observations[testStart - 1].marketPrice, test, index, origin, testStart, b, best)
  {
    var actual := Prices(observations[testStart..testEnd]);
    var path := SimulatePath(m, observations, testStart, testEnd, b, best);
    var mse := MeanSquaredError(path.value, actual);
    var baseline := MeanSquaredError(Constant(observations[testStart - 1].marketPrice, |actual|), actual);
    var correlation := Correlation.DifferenceCorrelation(m, path.value, actual);
    r := WindowResult(
      index, origin, testStart, testStart, testEnd, b, best, mse.value, baseline.value, correlation, |actual|);
  }

  // ------------------------------------------------------------------------------- summary

  function BeatingBaseline(windows: seq<WindowResult>): nat {
    if windows == [] then 0
    else BeatingBaseline(windows[..|windows| - 1]) + if windows[|windows| - 1].BeatsBaseline() then 1 else 0
  }

  function Mses(windows: seq<WindowResult>): (errors: seq<real>)
    ensures |errors| == |windows|
  {
    seq(|windows|, k requires 0 <= k < |windows| => windows[k].mse)
  }

  function BaselineMses(windows: seq<WindowResult>): (errors: seq<real>)
    ensures |errors| == |windows|
  {
    seq(|windows|, k requires 0 <= k < |windows| => windows[k].mseBaseline)
  }

  function FittedBs(windows: seq<WindowResult>): (bs: seq<real>)
    ensures |bs| == |windows|
  {
    seq(|windows|, k requires 0 <= k < |windows| => windows[k].calibratedB)
  }

  ghost predicate Summarises(m: Math, summary: Summary, windows: seq<WindowResult>) {
    if windows == [] then summary == EMPTY_SUMMARY
    else
      && summary.windows == windows
      && summary.meanMse == Correlation.Mean(Mses(windows))
      && summary.meanBaselineMse == Correlation.Mean(BaselineMses(windows))
      && summary.bMean == Correlation.Mean(FittedBs(windows))
      && summary.bVariation == Correlation.Variation(m, FittedBs(windows))
      && summary.windowsBeatingBaseline == BeatingBaseline(windows)
      && AreEnds(summary.bMin, summary.bMax, FittedBs(windows))
  }

  predicate AreEnds(low: real, high: real, xs: seq<real>) {
    low in xs && high in xs && forall k :: 0 <= k < |xs| ==> low <= xs[k] <= high
  }

  method SumScores(windows: seq<WindowResult>) returns (mse: real, baseline: real, beating: nat)
    ensures mse == Correlation.Total(Mses(windows), |windows|)
    ensures baseline == Correlation.Total(BaselineMses(windows), |windows|)
    ensures beating == BeatingBaseline(windows)
  {
    mse, baseline, beating := 0.0, 0.0, 0;
    for k := 0 to |windows|
      invariant mse == Correlation.Total(Mses(windows), k)
      invariant baseline == Correlation.Total(BaselineMses(windows), k)
      invariant beating == BeatingBaseline(windows[..k])
    {
      var w := windows[k];
      assert windows[..k + 1][..k] == windows[..k];
      mse := mse + w.mse;
      baseline := baseline + w.mseBaseline;
      if w.BeatsBaseline() {
        beating := beating + 1;
      }
    }
    assert windows[..|windows|] == windows;
  }

  method Range(xs: seq<real>) returns (low: real, high: real)
    requires xs != []
    ensures AreEnds(low, high, xs)
  {
    low, high := xs[0], xs[0];
    for k := 0 to |xs|
      invariant low in xs && high in xs
      invariant forall j :: 0 <= j < k ==> low <= xs[j] <= high
    {
      low, high := Min(low, xs[k]), Max(high, xs[k]);
    }
  }

  method Summarise(m: Math, windows: seq<WindowResult>) returns (summary: Summary)
    ensures Summarises(m, summary, windows)
  {
    if windows == [] {
      return EMPTY_SUMMARY;
    }
    var bs, n := FittedBs(windows), |windows| as real;
    var mse, baseline, beating := SumScores(windows);
    var bMin, bMax := Range(bs);
    var b := Correlation.Sum(bs);
    var variation := Correlation.CoefficientOfVariation(m, bs, b / n);
    summary := Summary(windows, mse / n, baseline / n, beating, bMin, bMax, b / n, variation);
  }

  /** Every complete window, in order, each fitted on its own training slice. */
  method WalkForward(m: Math, observations: seq<Observation>, config: Config) returns (r: Result<Summary, string>)
    requires m.Lawful()
    ensures r.Ok? <==> config.WellPosed() && (|observations| < config.Window() || config.Runnable())
    ensures r.Ok? ==> Summarises(m, r.value, Windows(m, observations, config))
  {
    if config.Rejection().Some? {
      return Err(config.Rejection().value);
    }
    if |observations| < config.Window() {
      return Ok(EMPTY_SUMMARY);
    }
    ghost var all := if config.Runnable() then Windows(m, observations, config) else [];
    if config.Runnable() {
      WindowsAreWindows(m, observations, config);
    }
    var windows := RunWindows(m, observations, config, all);
    if windows.Err? {
      return Err(windows.error);
    }
    var summary := Summarise(m, windows.value);
    r := Ok(summary);
  }

  /** `all[k]` is the result of window `k`. */
  ghost predicate IsWindow(m: Math, observations: seq<Observation>, config: Config, all: seq<WindowResult>, k: nat) {
    && config.WellPosed() && config.fallbackB > 0.0
    && k < |all| && config.Origin(k) + config.Window() <= |observations|
    && all[k] == WindowFrom(m, observations, config, k, config.Origin(k))
  }

  lemma {:induction false} WindowsAreWindows(m: Math, observations: seq<Observation>, config: Config)
    requires config.WellPosed() && config.fallbackB > 0.0
    ensures forall k :: 0 <= k < config.WindowCount(|observations|) ==>
      IsWindow(m, observations, config, Windows(m, observations, config), k)
  {
    forall k | 0 <= k < config.WindowCount(|observations|)
      ensures IsWindow(m, observations, config, Windows(m, observations, config), k)
    {
      WindowIsWindow(m, observations, config, Windows(m, observations, config), k);
    }
  }

  lemma WindowIsWindow(m: Math, observations: seq<Observation>, config: Config, all: seq<WindowResult>, k: nat)
    requires config.WellPosed() && config.fallbackB > 0.0 && k < config.WindowCount(|observations|)
    requires k < |all| && all[k] == WindowOf(m, observations, config, k)
    ensures IsWindow(m, observations, config, all, k)
  {
    OriginFits(|observations|, config, k);
  }

  ghost predicate AreWindows(m: Math, observations: seq<Observation>, config: Config, all: seq<WindowResult>)
    requires config.WellPosed()
  {
    && |all| == config.WindowCount(|observations|)
    && forall k :: 0 <= k < |all| ==> IsWindow(m, observations, config, all, k)
  }

  lemma PrefixGrows<T>(xs: seq<T>, all: seq<T>, x: T)
    requires xs <= all && |xs| < |all| && x == all[|xs|]
    ensures xs + [x] <= all
  {
  }

  /** Where the walk stands: the next origin, and a prefix of all results, or none when the first window throws. */
  ghost predicate Walked(config: Config, windows: seq<WindowResult>, origin: nat, all: seq<WindowResult>) {
    origin == config.Origin(|windows|) && if config.Runnable() then windows <= all else windows == []
  }

  lemma {:induction false} WalkEnds(n: int, config: Config, windows: seq<WindowResult>, origin: nat,
      all: seq<WindowResult>)
    requires config.WellPosed() && n >= config.Window() && origin + config.Window() > n
    requires Walked(config, windows, origin, all)
    requires config.Runnable() ==> |all| == config.WindowCount(n)
    ensures config.Runnable() && windows == all
  {
    OriginFits(n, config, |windows|);
  }

  /** The walk itself, against any list `all` of the window results. */
  method RunWindows(m: Math, observations: seq<Observation>, config: Config, ghost all: seq<WindowResult>)
    returns (r: Result<seq<WindowResult>, string>)
    requires m.Lawful() && config.WellPosed() && |observations| >= config.Window()
    requires config.Runnable() ==> AreWindows(m, observations, config, all)
    ensures r.Ok? <==> config.Runnable()
    ensures r.Ok? ==> r.value == all
  {
    var windows: seq<WindowResult> := [];
    var origin := 0;
    while origin + config.Window() <= |observations|
      invariant Walked(config, windows, origin, all)
      decreases |observations| - origin
    {
      var grown := RunNext(m, observations, config, windows, origin, all);
      if grown.Err? {
        return Err(grown.error);
      }
      windows := grown.value;
      origin := origin + config.Stride();
    }
    WalkEnds(|observations|, config, windows, origin, all);
    r := Ok(windows);
  }

  method RunNext(m: Math, observations: seq<Observation>, config: Config, windows: seq<WindowResult>, origin: nat,
      ghost all: seq<WindowResult>)
    returns (r: Result<seq<WindowResult>, string>)
    requires m.Lawful() && config.WellPosed() && origin + config.Window() <= |observations|
    requires Walked(config, windows, origin, all)
    requires config.Runnable() ==> AreWindows(m, observations, config, all)
    ensures r.Ok? <==> config.Runnable()
    ensures r.Ok? ==> Walked(config, r.value, origin + config.Stride(), all)
  {
    OriginFits(|observations|, config, |windows|);
    var window := RunWindowNumber(m, observations, config, |windows|, origin, all);
    if window.Err? {
      return Err(window.error);
    }
    PrefixGrows(windows, all, window.value);
    r := Ok(windows + [window.value]);
  }

  method RunWindowNumber(m: Math, observations: seq<Observation>, config: Config, k: nat, origin: nat,
      ghost all: seq<WindowResult>)
    returns (r: Result<WindowResult, string>)
    requires m.Lawful() && config.WellPosed()
    requires origin == config.Origin(k) && origin + config.Window() <= |observations|
    requires config.Runnable() ==> IsWindow(m, observations, config, all, k)
    ensures r.Ok? <==> config.Runnable()
    ensures r.Ok? ==> r.value == all[k]
  {
    r := RunWindow(m, observations, config, k, origin);
  }
}
