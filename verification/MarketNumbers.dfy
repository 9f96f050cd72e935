/** The binary market and its calibrations in plain numbers: exponentials, share counts and distances. */
module MarketNumbers {
  import opened Wrappers
  import opened Transcendental
  import opened Lmsr
  import opened BinaryMarket
  import opened DepthCalibration
  import opened Calibration

  // --------------------------------------------------------------------------- price and cost

  lemma UndoTimes(x: real, b: real)
    requires b > 0.0
    ensures Times(b, x) / b == x
  {
  }

  lemma TwoTerms(m: Math, x: real, y: real)
    ensures SumExp(m, [x, y], 0.0) == m.Exp(x) + m.Exp(y)
  {
    assert [x, y][..1] == [x] && [x][..0] == [];
    assert x - 0.0 == x && y - 0.0 == y;
    assert SumExp(m, [x], 0.0) == SumExp(m, [], 0.0) + m.Exp(x);
  }

  /** The exponential of the scaled cost is the sum of those of the scaled share counts. */
  lemma {:induction false} CostSumsExponentials(m: Math, p: Position)
    requires m.Lawful() && p.b > 0.0
    ensures m.Exp(p.CostValue(m) / p.b) == m.Exp(p.qYes / p.b) + m.Exp(p.qNo / p.b)
  {
    var x, y := p.qYes / p.b, p.qNo / p.b;
    assert Scaled([p.qYes, p.qNo], p.b) == [x, y];
    TwoTerms(m, x, y);
    m.Positive(x);
    m.Positive(y);
    m.Restores(m.Exp(x) + m.Exp(y));
    UndoTimes(m.Ln(m.Exp(x) + m.Exp(y)), p.b);
  }

  lemma ShareOfOdds(price: real, odds: real)
    requires 0.0 < price < 1.0 && Odds(price) == odds
    ensures price == Times(odds, 1.0 - price)
  {
  }

  lemma ScaledOdds(m: Math, p: Position)
    requires m.Lawful() && p.b > 0.0
    ensures m.Exp(p.qYes / p.b) == Times(m.Exp(p.Imbalance()), m.Exp(p.qNo / p.b))
  {
    DivideSum(p.qYes - p.qNo, p.qNo, p.b);
    m.Adds(p.Imbalance(), p.qNo / p.b);
  }

  lemma CrossOdds(price: real, odds: real, yes: real, no: real)
    requires price == Times(odds, 1.0 - price) && yes == Times(odds, no)
    ensures Times(price, no) == Times(1.0 - price, yes)
  {
    assert odds * (1.0 - price) * no == (1.0 - price) * (odds * no);
  }

  /** YES and NO are priced in proportion to those exponentials. */
  lemma {:induction false} PriceIsTheExponentialShare(m: Math, p: Position)
    requires m.Lawful() && p.b > 0.0
    ensures 0.0 < p.Price(m) < 1.0
    ensures Times(p.Price(m), m.Exp(p.qNo / p.b)) == Times(1.0 - p.Price(m), m.Exp(p.qYes / p.b))
  {
    m.SigmoidIsLogistic(p.Imbalance());
    ShareOfOdds(p.Price(m), m.Exp(p.Imbalance()));
    ScaledOdds(m, p);
    CrossOdds(p.Price(m), m.Exp(p.Imbalance()), m.Exp(p.qYes / p.b), m.Exp(p.qNo / p.b));
  }

  // --------------------------------------------------------------------------- capped steps

  function Distance(x: real, y: real): real {
    Abs(x - y)
  }

  /** `x` is as near to `full` as anything between `-cap` and `cap`. */
  ghost predicate IsNearestWithin(x: real, full: real, cap: real) {
    -cap <= x <= cap && forall y :: -cap <= y <= cap ==> Distance(x, full) <= Distance(y, full)
  }

  /** The YES shares an operation adds; no operation but a recalibration touches the NO side. */
  function Added(m: Math, p: Position, op: Op): real
    requires p.b > 0.0
  {
    Next(m, p, op).qYes - p.qYes
  }

  /**
   * A capped step buys, or sells, the share count nearest to the uncapped one that the cap allows:
   * that count itself when it fits, else the whole cap in its direction.
   */
  lemma {:induction false} CappedStepIsNearest(m: Math, p: Position, target: real, r: real, cap: real)
    requires p.b > 0.0 && 0.0 < r <= 1.0 && cap >= 0.0
    ensures var full, capped := Added(m, p, Step(target, r, None)), Added(m, p, Step(target, r, Some(cap)));
      && IsNearestWithin(capped, full, cap)
      && (full >= cap ==> capped == cap)
      && (full <= -cap ==> capped == -cap)
      && (-cap <= full <= cap ==> capped == full)
    ensures var t := Next(m, p, Step(target, r, Some(cap))); t.qNo == p.qNo && t.b == p.b
  {
  }

  lemma RatioTimes(d: real, newB: real, b: real)
    requires b > 0.0
    ensures Times(d * (newB / b), b) == Times(d, newB)
  {
    var ratio := newB / b;
    assert ratio * b == newB;
    assert d * ratio * b == d * (ratio * b);
  }

  /** Recalibrating rewrites the imbalance on the YES side alone, in proportion to `b`. */
  lemma {:induction false} RecalibrationScalesTheImbalance(m: Math, p: Position, newB: real)
    requires p.b > 0.0 && newB > 0.0
    ensures var t := Next(m, p, Recalibrate(newB));
      t.b == newB && t.qNo == 0.0 && Times(t.qYes, p.b) == Times(p.qYes - p.qNo, newB)
  {
    RatioTimes(p.qYes - p.qNo, newB, p.b);
  }

  // ------------------------------------------------------------------------- the fitted depth

  /** No `b` of the band comes nearer to taking `depth` over `width`. */
  ghost predicate FitsBest(b: real, depth: real, width: real) {
    && 1.0 <= b <= 1000000.0
    && forall c :: 1.0 <= c <= 1000000.0 ==> Distance(Times(b, width), depth) <= Distance(Times(c, width), depth)
  }

  lemma FitsBestInstance(b: real, c: real, depth: real, width: real, ideal: real)
    requires width > 0.0 && Times(ideal, width) == depth && b == Min(1000000.0, Max(1.0, ideal))
    requires 1.0 <= c <= 1000000.0
    ensures Distance(Times(b, width), depth) <= Distance(Times(c, width), depth)
  {
    if ideal < b {
      ScalesUp(ideal, b, width);
      ScalesUp(b, c, width);
    } else if ideal > b {
      ScalesUp(b, ideal, width);
      ScalesUp(c, b, width);
    } else {
      assert Distance(Times(b, width), depth) == 0.0;
    }
  }

  lemma {:induction false} ClippedFitsBest(depth: real, width: real, fallback: real)
    requires width > 0.0 && depth > 0.0
    ensures FitsBest(FromDepth(depth, width, fallback), depth, width)
  {
    var ideal := depth / width;
    assert Times(ideal, width) == depth;
    var b := FromDepth(depth, width, fallback);
    forall c | 1.0 <= c <= 1000000.0
      ensures Distance(Times(b, width), depth) <= Distance(Times(c, width), depth)
    {
      FitsBestInstance(b, c, depth, width, ideal);
    }
  }

  /** The sizes the mode counts, when they are positive. */
  predicate Counts(quote: Quote, side: DepthSide, size: real) {
    || (side != Bid && quote.depthAsk == Some(size) && size > 0.0)
    || (side != Ask && quote.depthBid == Some(size) && size > 0.0)
  }

  /** The mean of the counted positive sizes: one alone, or halfway between two. */
  predicate IsDepth(quote: Quote, side: DepthSide, depth: real) {
    if side == Mean && quote.depthAsk.GetOr(0.0) > 0.0 && quote.depthBid.GetOr(0.0) > 0.0
    then 2.0 * depth == quote.depthAsk.value + quote.depthBid.value
    else Counts(quote, side, depth)
  }

  /** Two quotes in range and in order, and something to tell their log-odds apart. */
  predicate HasWidth(quote: Quote) {
    && quote.yesBid.Some? && quote.yesAsk.Some?
    && 0.0 <= quote.yesBid.value < quote.yesAsk.value <= 1.0
    && quote.yesAsk.value > EPS && quote.yesBid.value < 1.0 - EPS
  }

  /** The engine fits the `b` of the band nearest to the counted depth, and falls back without a width or a depth. */
  lemma {:induction false} EngineFitsTheDepth(m: Math, quote: Quote, side: DepthSide, fallback: real)
    requires m.Lawful() && fallback > 0.0
    ensures !HasWidth(quote) || (forall x :: !Counts(quote, side, x)) ==>
      CalibrateB(m, quote, side, fallback) == Ok(fallback)
    ensures HasWidth(quote) ==> forall depth :: IsDepth(quote, side, depth) ==>
      && CalibrateB(m, quote, side, fallback).Ok?
      && FitsBest(CalibrateB(m, quote, side, fallback).value, depth,
           m.Logit(quote.yesAsk.value) - m.Logit(quote.yesBid.value))
  {
    if HasWidth(quote) {
      WidthIsPositive(m, quote);
      EngineFit(m, quote, side, fallback);
      var mean := PositiveMean(CountedAsk(quote, side), CountedBid(quote, side));
      if mean > 0.0 {
        ClippedFitsBest(mean, quote.Width(m), fallback);
      }
      DepthIsTheMean(quote, side, mean);
    } else {
      if quote.Usable(m) {
        WidthIsPositive(m, quote);
      }
    }
  }

  lemma {:induction false} DepthIsTheMean(quote: Quote, side: DepthSide, mean: real)
    requires mean == PositiveMean(CountedAsk(quote, side), CountedBid(quote, side))
    ensures forall depth :: IsDepth(quote, side, depth) ==> depth == mean && mean > 0.0
    ensures (forall x :: !Counts(quote, side, x)) ==> mean <= 0.0
  {
    if mean > 0.0 {
      if CountedAsk(quote, side) > 0.0 {
        assert Counts(quote, side, CountedAsk(quote, side));
      } else {
        assert Counts(quote, side, CountedBid(quote, side));
      }
    }
  }

  /** The service counts every size that is not zero, negative ones too. */
  predicate CountsNonzero(quote: Quote, side: DepthSide, size: real) {
    || (side != Bid && quote.depthAsk == Some(size) && size != 0.0)
    || (side != Ask && quote.depthBid == Some(size) && size != 0.0)
  }

  predicate IsServiceDepth(quote: Quote, side: DepthSide, depth: real) {
    if side == Mean && quote.depthAsk.GetOr(0.0) != 0.0 && quote.depthBid.GetOr(0.0) != 0.0
    then 2.0 * depth == quote.depthAsk.value + quote.depthBid.value
    else CountsNonzero(quote, side, depth)
  }

  /** The service fits the counted depth in the same way, and falls back when the mean comes out negative or zero. */
  lemma {:induction false} ServiceFitsTheDepth(m: Math, quote: Quote, side: DepthSide, fallback: real)
    requires m.Lawful() && fallback > 0.0
    ensures !HasWidth(quote) || (forall x :: !CountsNonzero(quote, side, x)) ==>
      CalibrateFromDepth(m, quote, side, fallback) == Ok(fallback)
    ensures HasWidth(quote) ==> forall depth :: IsServiceDepth(quote, side, depth) ==>
      && CalibrateFromDepth(m, quote, side, fallback).Ok?
      && if depth > 0.0
         then FitsBest(CalibrateFromDepth(m, quote, side, fallback).value, depth,
                m.Logit(quote.yesAsk.value) - m.Logit(quote.yesBid.value))
         else CalibrateFromDepth(m, quote, side, fallback).value == fallback
  {
    if HasWidth(quote) {
      WidthIsPositive(m, quote);
      ServiceFit(m, quote, side, fallback);
      var mean := NonzeroMean(CountedAsk(quote, side), CountedBid(quote, side));
      if mean > 0.0 {
        ClippedFitsBest(mean, quote.Width(m), fallback);
      }
      ServiceDepthIsTheMean(quote, side, mean);
    } else {
      if quote.Usable(m) {
        WidthIsPositive(m, quote);
      }
    }
  }

  lemma {:induction false} ServiceDepthIsTheMean(quote: Quote, side: DepthSide, mean: real)
    requires mean == NonzeroMean(CountedAsk(quote, side), CountedBid(quote, side))
    ensures forall depth :: IsServiceDepth(quote, side, depth) ==> depth == mean
    ensures (forall x :: !CountsNonzero(quote, side, x)) ==> mean == 0.0
  {
    if mean != 0.0 {
      if CountedAsk(quote, side) != 0.0 {
        assert CountsNonzero(quote, side, CountedAsk(quote, side));
      } else {
        assert CountsNonzero(quote, side, CountedBid(quote, side));
      }
    }
  }

  // ------------------------------------------------------------------------ signals as odds

  /** The affine map and the logistic map undone: `2p - 1` is the signal, and the odds of `p` are `exp(a + b s)`. */
  lemma {:induction false} MappingsInvert(m: Math, s: real, mapping: Mapping, params: Option<Platt>)
    requires m.Lawful()
    ensures var p := ToProbability(m, s, mapping, params);
      && (p.Ok? <==> -1.0 <= s <= 1.0 && (mapping == Logistic ==> params.Some?))
      && (p.Ok? && mapping == Affine ==> 2.0 * p.value - 1.0 == s)
      && (p.Ok? && mapping == Logistic ==>
            p.value == Times(m.Exp(params.value.a + Times(params.value.b, s)), 1.0 - p.value))
  {
    if mapping == Logistic && params.Some? {
      var x := params.value.a + Times(params.value.b, s);
      m.SigmoidIsLogistic(x);
      ShareOfOdds(m.Sigmoid(x), m.Exp(x));
    }
  }
}
