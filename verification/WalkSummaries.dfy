/** What a walk-forward backtest reports, in sums over the observations. */
module WalkSummaries {
  import opened Wrappers
  import opened Transcendental
  import opened BinaryMarket
  import opened DepthCalibration
  import opened Backtest
  import Correlation

  // ------------------------------------------------------------------------------- errors

  /** The squared gaps between the first `n` prices of a path and the market's, added up. */
  function Gaps(path: seq<real>, obs: seq<Observation>, n: nat): real
    requires n <= |path| && n <= |obs|
  {
    if n == 0 then 0.0
    else
      var gap := path[n - 1] - obs[n - 1].marketPrice;
      Gaps(path, obs, n - 1) + Times(gap, gap)
  }

  /** So for a forecast that never moves. */
  function GapsFrom(price: real, obs: seq<Observation>, n: nat): real
    requires n <= |obs|
  {
    if n == 0 then 0.0
    else
      var gap := price - obs[n - 1].marketPrice;
      GapsFrom(price, obs, n - 1) + Times(gap, gap)
  }

  lemma {:induction false} ErrorsAreGaps(path: seq<real>, actual: seq<real>, obs: seq<Observation>, n: nat)
    requires |path| == |actual| == |obs| && n <= |obs|
    requires forall i :: 0 <= i < |obs| ==> actual[i] == obs[i].marketPrice
    ensures SquaredErrors(path[..n], actual[..n]) == Gaps(path, obs, n)
  {
    if n > 0 {
      ErrorsAreGaps(path, actual, obs, n - 1);
      assert path[..n][..n - 1] == path[..n - 1] && actual[..n][..n - 1] == actual[..n - 1];
    }
  }

  lemma {:induction false} ConstantGaps(price: real, path: seq<real>, obs: seq<Observation>, n: nat)
    requires |path| == |obs| && n <= |obs| && forall i :: 0 <= i < |obs| ==> path[i] == price
    ensures Gaps(path, obs, n) == GapsFrom(price, obs, n)
  {
    if n > 0 {
      ConstantGaps(price, path, obs, n - 1);
    }
  }

  lemma {:induction false} MeanIsOfGaps(path: seq<real>, obs: seq<Observation>)
    requires |path| == |obs| > 0
    ensures Times(MeanSquared(path, Prices(obs)), |obs| as real) == Gaps(path, obs, |obs|)
  {
    ErrorsAreGaps(path, Prices(obs), obs, |obs|);
    assert path[..|obs|] == path && Prices(obs)[..|obs|] == Prices(obs);
    QuotientTimes(SquaredErrors(path, Prices(obs)), |obs| as real);
  }

  // --------------------------------------------------------------------------- the windows

  /** The observations apart: each `step`, by default one test block. */
  function Apart(config: Config): nat {
    if config.step.Some? then config.step.value else config.testSize
  }

  /** Where window `k` of a walk lies: its blocks adjoin, and windows start `step` apart. */
  predicate LiesAt(w: WindowResult, config: Config, k: nat) {
    && w.index == k
    && w.trainStart == k * Apart(config)
    && w.trainEnd == w.testStart == w.trainStart + config.trainSize
    && w.testEnd == w.testStart + config.testSize
    && w.nTest == config.testSize
  }

  lemma {:induction false} WindowsLieApart(m: Math, observations: seq<Observation>, config: Config, k: nat)
    requires config.WellPosed() && config.fallbackB > 0.0 && k < config.WindowCount(|observations|)
    ensures LiesAt(Windows(m, observations, config)[k], config, k)
    ensures Windows(m, observations, config)[k].testEnd <= |observations|
  {
    OriginFits(|observations|, config, k);
    OriginFormula(config, k);
  }

  /** Without a step the test blocks follow on one another. */
  lemma {:induction false} DefaultTestBlocksFollowOn(m: Math, observations: seq<Observation>, config: Config, k: nat)
    requires config.WellPosed() && config.fallbackB > 0.0 && config.step.None?
    requires k + 1 < config.WindowCount(|observations|)
    ensures var windows := Windows(m, observations, config);
      windows[0].testStart == config.trainSize && windows[k + 1].testStart == windows[k].testEnd
  {
    WindowsLieApart(m, observations, config, 0);
    WindowsLieApart(m, observations, config, k);
    WindowsLieApart(m, observations, config, k + 1);
    assert (k + 1) * config.testSize == k * config.testSize + config.testSize;
  }

  /** The last observation with both quotes. */
  ghost predicate IsLastQuoted(train: seq<Observation>, i: int) {
    && 0 <= i < |train| && BothQuoted(train[i])
    && forall j :: i < j < |train| ==> !BothQuoted(train[j])
  }

  predicate BothQuoted(o: Observation) {
    o.quote.yesBid.Some? && o.quote.yesAsk.Some?
  }

  /** Fitted to the last book with both quotes, else the fallback. */
  ghost predicate IsLastFit(m: Math, train: seq<Observation>, fallback: real, b: Result<real, string>) {
    && ((forall i :: 0 <= i < |train| ==> !BothQuoted(train[i])) ==> b == Ok(fallback))
    && forall i :: IsLastQuoted(train, i) ==> b == CalibrateB(m, train[i].quote, Mean, fallback)
  }

  lemma {:induction false} LastQuotedOfFront(train: seq<Observation>, i: int)
    requires train != [] && !BothQuoted(train[|train| - 1]) && IsLastQuoted(train, i)
    ensures IsLastQuoted(train[..|train| - 1], i)
  {
  }

  lemma {:induction false} LastBookIsFitted(m: Math, train: seq<Observation>, fallback: real)
    ensures IsLastFit(m, train, fallback, FitB(m, train, fallback))
  {
    if train != [] && !BothQuoted(train[|train| - 1]) {
      var front := train[..|train| - 1];
      LastBookIsFitted(m, front, fallback);
      forall i | IsLastQuoted(train, i)
        ensures FitB(m, train, fallback) == CalibrateB(m, train[i].quote, Mean, fallback)
      {
        LastQuotedOfFront(train, i);
      }
      assert forall i :: 0 <= i < |front| ==> front[i] == train[i];
    }
  }

  /** The training error of a pace, times the number of observations. */
  function TrainingGaps(m: Math, train: seq<Observation>, r: real): real {
    Gaps(Path(m, train, r), train, |train|)
  }

  lemma GapsOrder(x: real, y: real, n: real, a: real, b: real)
    requires n > 0.0 && Times(x, n) == a && Times(y, n) == b
    ensures x <= y <==> a <= b
    ensures x < y <==> a < b
  {
    Correlation.QuotientOrder(x, y, n);
    Correlation.QuotientOrder(y, x, n);
  }

  /** The first of the candidates with the least error on the training block. */
  ghost predicate IsBestPace(m: Math, train: seq<Observation>, grid: seq<real>, r: real) {
    exists j :: 0 <= j < |grid| && grid[j] == r && BeatsAll(m, train, grid, j)
  }

  ghost predicate BeatsAll(m: Math, train: seq<Observation>, grid: seq<real>, j: int)
    requires 0 <= j < |grid|
  {
    && (forall i :: 0 <= i < |grid| ==> TrainingGaps(m, train, grid[j]) <= TrainingGaps(m, train, grid[i]))
    && forall i :: 0 <= i < j ==> TrainingGaps(m, train, grid[j]) < TrainingGaps(m, train, grid[i])
  }

  lemma {:induction false} TrainErrorOrder(m: Math, train: seq<Observation>, r: real, s: real)
    requires train != []
    ensures TrainError(m, train, r) <= TrainError(m, train, s) <==>
      TrainingGaps(m, train, r) <= TrainingGaps(m, train, s)
    ensures TrainError(m, train, r) < TrainError(m, train, s) <==>
      TrainingGaps(m, train, r) < TrainingGaps(m, train, s)
  {
    MeanIsOfGaps(Path(m, train, r), train);
    MeanIsOfGaps(Path(m, train, s), train);
    GapsOrder(TrainError(m, train, r), TrainError(m, train, s), |train| as real,
      TrainingGaps(m, train, r), TrainingGaps(m, train, s));
  }

  lemma {:induction false} FittedPaceIsBest(m: Math, train: seq<Observation>, grid: seq<real>)
    requires train != [] && grid != []
    ensures IsBestPace(m, train, grid, FitResponsiveness(m, train, grid))
  {
    var error := ErrorOn(m, train);
    var j := NothingEarlierIsAsGood(error, grid);
    forall i | 0 <= i < |grid|
      ensures error(grid[j]) <= error(grid[i]) <==>
        TrainingGaps(m, train, grid[j]) <= TrainingGaps(m, train, grid[i])
      ensures error(grid[j]) < error(grid[i]) <==>
        TrainingGaps(m, train, grid[j]) < TrainingGaps(m, train, grid[i])
    {
      TrainErrorOrder(m, train, grid[j], grid[i]);
    }
    assert BeatsAll(m, train, grid, j);
  }

  /** What a window reports of its two blocks. */
  ghost predicate Reports(m: Math, w: WindowResult, train: seq<Observation>, test: seq<Observation>, config: Config)
    requires train != [] && test != []
  {
    && IsLastFit(m, train, config.fallbackB, Ok(w.calibratedB))
    && IsBestPace(m, train, config.grid, w.responsiveness)
    && Times(w.mse, |test| as real) == Gaps(Path(m, test, w.responsiveness), test, |test|)
    && Times(w.mseBaseline, |test| as real) == GapsFrom(train[|train| - 1].marketPrice, test, |test|)
    && w.correlation == Correlation.OfDifferences(m, Path(m, test, w.responsiveness), Prices(test))
  }

  lemma {:induction false} EvaluatedReports(m: Math, w: WindowResult, train: seq<Observation>, test: seq<Observation>,
      config: Config, index: nat, origin: nat)
    requires config.WellPosed() && train != [] && test != []
    requires IsRun(m, w, train, test, train[|train| - 1], config, index, origin)
    ensures Reports(m, w, train, test, config)
  {
    var last := train[|train| - 1].marketPrice;
    LastBookIsFitted(m, train, config.fallbackB);
    FittedPaceIsBest(m, train, config.grid);
    MeanIsOfGaps(Path(m, test, w.responsiveness), test);
    MeanIsOfGaps(Constant(last, |test|), test);
    ConstantGaps(last, Constant(last, |test|), test, |test|);
  }

  lemma {:induction false} SliceIsRun(m: Math, slice: seq<Observation>, train: seq<Observation>,
      test: seq<Observation>, config: Config, k: nat, origin: nat)
    requires config.WellPosed() && config.fallbackB > 0.0 && |slice| == config.Window()
    requires train == slice[..config.trainSize] && test == slice[config.trainSize..]
    ensures IsRun(m, WindowAt(m, slice, config, k, origin), train, test, train[|train| - 1], config, k, origin)
  {
    FitBSucceeds(m, train, config.fallbackB);
    WindowParts(m, slice, train, test, config, k, origin,
      FitB(m, train, config.fallbackB).value, FitResponsiveness(m, train, config.grid));
  }

  lemma {:induction false} SliceReports(m: Math, observations: seq<Observation>, config: Config, k: nat, origin: nat,
      train: seq<Observation>, test: seq<Observation>)
    requires config.WellPosed() && config.fallbackB > 0.0 && origin + config.Window() <= |observations|
    requires train == observations[origin..origin + config.trainSize]
    requires test == observations[origin + config.trainSize..origin + config.Window()]
    ensures Reports(m, WindowFrom(m, observations, config, k, origin), train, test, config)
  {
    var slice := Stretch(observations, origin, config.Window());
    PartsOfStretch(observations, origin, config.trainSize, config.Window());
    SliceIsRun(m, slice, train, test, config, k, origin);
    EvaluatedReports(m, WindowAt(m, slice, config, k, origin), train, test, config, k, origin);
  }

  /** What the window reports of its own stretch of the observations. */
  ghost predicate ReportsOn(m: Math, w: WindowResult, observations: seq<Observation>, config: Config) {
    && w.trainStart < w.trainEnd == w.testStart < w.testEnd <= |observations|
    && Reports(m, w, observations[w.trainStart..w.trainEnd], observations[w.testStart..w.testEnd], config)
  }

  /**
   * Window by window: the liquidity of the last quoted training book, the first pace with the least
   * training error, and on the test block the squared errors of that pace and of the last training price.
   */
  lemma {:induction false} WindowsReportTheirBlocks(m: Math, observations: seq<Observation>, config: Config, k: nat)
    requires config.WellPosed() && config.fallbackB > 0.0 && k < config.WindowCount(|observations|)
    ensures LiesAt(Windows(m, observations, config)[k], config, k)
    ensures ReportsOn(m, Windows(m, observations, config)[k], observations, config)
  {
    WindowsLieApart(m, observations, config, k);
    OriginFits(|observations|, config, k);
    OriginFormula(config, k);
    var w, origin := Windows(m, observations, config)[k], config.Origin(k);
    SliceReports(m, observations, config, k, origin, observations[w.trainStart..w.trainEnd],
      observations[w.testStart..w.testEnd]);
  }

  // --------------------------------------------------------------------------- the summary

  lemma {:induction false} BeatingCounts(windows: seq<WindowResult>)
    ensures BeatingBaseline(windows) == |set k | 0 <= k < |windows| && windows[k].mse < windows[k].mseBaseline|
  {
    var all := set k | 0 <= k < |windows| && windows[k].mse < windows[k].mseBaseline;
    if windows != [] {
      var n := |windows| - 1;
      BeatingCounts(windows[..n]);
      var front := set k | 0 <= k < n && windows[..n][k].mse < windows[..n][k].mseBaseline;
      if windows[n].mse < windows[n].mseBaseline {
        assert all == front + {n};
      } else {
        assert all == front;
      }
    }
  }

  /** What the summary averages. */
  datatype Figure = Error | Baseline | Liquidity
  {
    function Of(w: WindowResult): real {
      match this
      case Error => w.mse
      case Baseline => w.mseBaseline
      case Liquidity => w.calibratedB
    }
  }

  /** `mean` is the arithmetic mean of one figure over the windows. */
  ghost predicate IsMeanOf(windows: seq<WindowResult>, figure: Figure, mean: real) {
    Times(mean, |windows| as real) == SumOf(windows, figure, |windows|)
  }

  ghost function SumOf(windows: seq<WindowResult>, figure: Figure, n: nat): real
    requires n <= |windows|
  {
    if n == 0 then 0.0 else SumOf(windows, figure, n - 1) + figure.Of(windows[n - 1])
  }

  lemma {:induction false} TotalIsSum(windows: seq<WindowResult>, figure: Figure, xs: seq<real>, n: nat)
    requires n <= |windows| == |xs| && forall k :: 0 <= k < |xs| ==> xs[k] == figure.Of(windows[k])
    ensures Correlation.Total(xs, n) == SumOf(windows, figure, n)
  {
    if n > 0 {
      TotalIsSum(windows, figure, xs, n - 1);
    }
  }

  lemma {:induction false} MeanIsSum(windows: seq<WindowResult>, figure: Figure, xs: seq<real>)
    requires windows != [] && |windows| == |xs| && forall k :: 0 <= k < |xs| ==> xs[k] == figure.Of(windows[k])
    ensures IsMeanOf(windows, figure, Correlation.Mean(xs))
  {
    TotalIsSum(windows, figure, xs, |xs|);
    QuotientTimes(Correlation.Total(xs, |xs|), |xs| as real);
  }

  /** The means of the summary, and how many windows did strictly better than their last training price. */
  lemma {:induction false} SummaryAverages(m: Math, summary: Summary, windows: seq<WindowResult>)
    requires windows != [] && Summarises(m, summary, windows)
    ensures summary.windows == windows
    ensures IsMeanOf(windows, Error, summary.meanMse)
    ensures IsMeanOf(windows, Baseline, summary.meanBaselineMse)
    ensures IsMeanOf(windows, Liquidity, summary.bMean)
    ensures summary.windowsBeatingBaseline ==
      |set k | 0 <= k < |windows| && windows[k].mse < windows[k].mseBaseline|
    ensures forall k :: 0 <= k < |windows| ==> summary.bMin <= windows[k].calibratedB <= summary.bMax
  {
    MeanIsSum(windows, Error, Mses(windows));
    MeanIsSum(windows, Baseline, BaselineMses(windows));
    MeanIsSum(windows, Liquidity, FittedBs(windows));
    BeatingCounts(windows);
    assert forall k :: 0 <= k < |windows| ==> FittedBs(windows)[k] == windows[k].calibratedB;
  }

  // ------------------------------------------------------------------------- the correlation

  /** First differences, less their mean, which is the whole change spread evenly. */
  ghost predicate AreCentredSteps(xs: seq<real>, a: seq<real>) {
    && |a| + 1 == |xs|
    && exists mean :: Times(mean, |a| as real) == xs[|a|] - xs[0] && SubtractsFromSteps(xs, a, mean)
  }

  predicate SubtractsFromSteps(xs: seq<real>, a: seq<real>, mean: real)
    requires |a| + 1 == |xs|
  {
    forall i :: 0 <= i < |a| ==> a[i] + mean == xs[i + 1] - xs[i]
  }

  lemma {:induction false} StepsTelescope(xs: seq<real>, n: nat)
    requires n < |xs|
    ensures Correlation.Total(Correlation.Steps(xs), n) == xs[n] - xs[0]
  {
    if n > 0 {
      StepsTelescope(xs, n - 1);
    }
  }

  lemma {:induction false} CentredStepsAre(xs: seq<real>)
    requires |xs| >= 2
    ensures AreCentredSteps(xs, Correlation.Centred(Correlation.Steps(xs)))
  {
    var ds := Correlation.Steps(xs);
    StepsTelescope(xs, |ds|);
    QuotientTimes(Correlation.Total(ds, |ds|), |ds| as real);
    assert SubtractsFromSteps(xs, Correlation.Centred(ds), Correlation.Mean(ds));
  }

  lemma {:induction false} CentredStepsAreUnique(xs: seq<real>, a: seq<real>, a': seq<real>)
    requires |xs| >= 2 && AreCentredSteps(xs, a) && AreCentredSteps(xs, a')
    ensures a == a'
  {
    var mean :| Times(mean, |a| as real) == xs[|a|] - xs[0] && SubtractsFromSteps(xs, a, mean);
    var mean' :| Times(mean', |a| as real) == xs[|a|] - xs[0] && SubtractsFromSteps(xs, a', mean');
    Correlation.QuotientOrder(mean, mean', |a| as real);
    forall i | 0 <= i < |a|
      ensures a[i] == a'[i]
    {
      assert a[i] + mean == xs[i + 1] - xs[i] == a'[i] + mean';
    }
  }

  /** The sum of products of the first `n` entries. */
  function Products(a: seq<real>, b: seq<real>, n: nat): real
    requires n <= |a| && n <= |b|
  {
    if n == 0 then 0.0 else Products(a, b, n - 1) + Times(a[n - 1], b[n - 1])
  }

  lemma {:induction false} DotIsProducts(a: seq<real>, b: seq<real>, n: nat)
    requires n <= |a| && n <= |b|
    ensures Correlation.DotTo(a, b, n) == Products(a, b, n)
  {
    if n > 0 {
      DotIsProducts(a, b, n - 1);
    }
  }

  /** Pearson's quotient: the sign of the products, and its square times both sums of squares is theirs squared. */
  ghost predicate IsPearson(r: real, ab: real, aa: real, bb: real) {
    if aa <= 0.0 || bb <= 0.0 then r == 0.0
    else (r >= 0.0 <==> ab >= 0.0) && Times(Times(r, r), Times(aa, bb)) == Times(ab, ab)
  }

  lemma PearsonQuotient(ab: real, aa: real, bb: real, scale: real)
    requires scale > 0.0 && Times(scale, scale) == Times(aa, bb)
    ensures (ab / scale >= 0.0 <==> ab >= 0.0) && Times(Times(ab / scale, ab / scale), Times(aa, bb)) == Times(ab, ab)
  {
    var r := ab / scale;
    assert r * scale == ab;
    assert Times(Times(r, r), Times(scale, scale)) == Times(Times(r, scale), Times(r, scale)) by {
      SquareOfProduct(r, scale);
    }
    if r >= 0.0 {
      MulMonotone(0.0, r, scale);
    } else {
      MulMonotone(r, 0.0, scale);
    }
  }

  lemma SquareOfProduct(x: real, y: real)
    ensures Times(Times(x, x), Times(y, y)) == Times(Times(x, y), Times(x, y))
  {
    assert x * x * (y * y) == x * y * (x * y);
  }

  /** The reported correlation is that of the first differences of the two rows. */
  lemma {:induction false} CorrelationIsPearson(m: Math, left: seq<real>, right: seq<real>, a: seq<real>, b: seq<real>)
    requires m.Lawful() && |left| == |right| >= 3 && AreCentredSteps(left, a) && AreCentredSteps(right, b)
    ensures IsPearson(Correlation.OfDifferences(m, left, right),
      Products(a, b, |a|), Products(a, a, |a|), Products(b, b, |b|))
  {
    CentredStepsAre(left);
    CentredStepsAre(right);
    CentredStepsAreUnique(left, a, Correlation.Centred(Correlation.Steps(left)));
    CentredStepsAreUnique(right, b, Correlation.Centred(Correlation.Steps(right)));
    DotIsProducts(a, b, |a|);
    DotIsProducts(a, a, |a|);
    DotIsProducts(b, b, |b|);
    var ab, aa, bb := Products(a, b, |a|), Products(a, a, |a|), Products(b, b, |b|);
    if aa > 0.0 && bb > 0.0 {
      Correlation.ScaleIsPositive(m, aa, bb);
      PearsonQuotient(ab, aa, bb, m.Root(Times(aa, bb)));
    }
  }

  /** The root of the mean square of the distances. */
  predicate IsDeviation(deviation: real, distances: seq<real>) {
    && deviation >= 0.0
    && Times(Times(deviation, deviation), |distances| as real) == Products(distances, distances, |distances|)
  }

  /** The coefficient of variation is the standard deviation in units of the mean. */
  lemma {:induction false} VariationSquares(m: Math, xs: seq<real>, mean: real, a: seq<real>)
    requires m.Lawful() && xs != [] && Times(mean, |xs| as real) == Correlation.Total(xs, |xs|)
    requires |a| == |xs| && forall i :: 0 <= i < |a| ==> a[i] == xs[i] - mean
    ensures mean <= 0.0 ==> Correlation.Variation(m, xs) == 0.0
    ensures mean > 0.0 ==> IsDeviation(Times(Correlation.Variation(m, xs), mean), a)
  {
    QuotientTimes(Correlation.Total(xs, |xs|), |xs| as real);
    Correlation.QuotientOrder(mean, Correlation.Mean(xs), |xs| as real);
    assert a == Correlation.Centred(xs);
    DotIsProducts(a, a, |a|);
    if mean > 0.0 {
      var variance := Correlation.Variance(xs);
      Correlation.SquaresSign(a, |a|);
      Correlation.QuotientSignOf(Correlation.Dot(a, a), |xs| as real);
      QuotientTimes(Correlation.Dot(a, a), |xs| as real);
      assert m.Holds(RootSquares(variance));
      QuotientTimes(m.Root(variance), mean);
      assert m.Root(variance) >= 0.0;
    }
  }
}
