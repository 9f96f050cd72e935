/** Fitting the liquidity parameter to a quoted book: the engine's version and the signal service's. */
module DepthCalibration {
  import opened Wrappers
  import opened Transcendental
  import opened Lmsr
  import opened BinaryMarket

  const B_MIN: real := 1.0
  const B_MAX: real := 1000000.0
  const DEFAULT_FALLBACK: real := 100.0

  datatype DepthSide = Bid | Ask | Mean

  datatype Quote = Quote(depthBid: Option<real>, depthAsk: Option<real>, yesBid: Option<real>, yesAsk: Option<real>)
  {
    function Width(m: Math): real
      requires yesBid.Some? && yesAsk.Some?
    {
      m.Logit(yesAsk.value) - m.Logit(yesBid.value)
    }

    /** Two-sided, uncrossed, in range, and of positive logit width. */
    predicate Usable(m: Math) {
      && yesBid.Some? && yesAsk.Some?
      && 0.0 <= yesBid.value < yesAsk.value <= 1.0
      && Width(m) > 0.0
    }
  }

  function FromDepth(depth: real, width: real, fallback: real): real
    requires width > 0.0
  {
    if depth <= 0.0 then fallback else Min(B_MAX, Max(B_MIN, depth / width))
  }

  /** The engine sums the positive depths of the chosen sides. */
  function CalibrateB(m: Math, quote: Quote, side: DepthSide, fallback: real): Result<real, string> {
    if fallback <= 0.0 then Err("fallback must be positive")
    else if !quote.Usable(m) then Ok(fallback)
    else
      var ask := side != Bid && quote.depthAsk.Some? && quote.depthAsk.value > 0.0;
      var bid := side != Ask && quote.depthBid.Some? && quote.depthBid.value > 0.0;
      var sum := (if ask then quote.depthAsk.value else 0.0) + (if bid then quote.depthBid.value else 0.0);
      var count := (if ask then 1.0 else 0.0) + (if bid then 1.0 else 0.0);
      if count == 0.0 then Ok(fallback) else Ok(FromDepth(sum / count, quote.Width(m), fallback))
  }

  function Truthy(size: real): seq<real> {
    if size != 0.0 then [size] else []
  }

  function Average(sizes: seq<real>): real
    requires sizes != []
  {
    SumReal(sizes) / |sizes| as real
  }

  /** The signal service collects the truthy depths: present and not zero. */
  function CalibrateFromDepth(m: Math, quote: Quote, side: DepthSide, fallback: real): Result<real, string> {
    if fallback <= 0.0 then Err("fallback must be positive")
    else if !quote.Usable(m) then Ok(fallback)
    else
      var candidates :=
        (if side != Bid then Truthy(quote.depthAsk.GetOr(0.0)) else [])
        + (if side != Ask then Truthy(quote.depthBid.GetOr(0.0)) else []);
      if candidates == [] then Ok(fallback)
      else Ok(FromDepth(Average(candidates), quote.Width(m), fallback))
  }

  predicate InRange(r: Result<real, string>, fallback: real) {
    if fallback <= 0.0 then r.Err?
    else r.Ok? && r.value > 0.0 && (r.value == fallback || B_MIN <= r.value <= B_MAX)
  }

  /** The fitted `b` is positive, and in its band unless it is the fallback; only a bad fallback throws. */
  lemma {:induction false} CalibrationIsPositive(m: Math, quote: Quote, side: DepthSide, fallback: real)
    ensures InRange(CalibrateB(m, quote, side, fallback), fallback)
    ensures InRange(CalibrateFromDepth(m, quote, side, fallback), fallback)
  {
    if quote.Usable(m) {
      FromDepthInRange(quote.Width(m), fallback);
    }
  }

  lemma {:induction false} FromDepthInRange(width: real, fallback: real)
    requires width > 0.0
    ensures forall depth :: fallback > 0.0 ==> InRange(Ok(FromDepth(depth, width, fallback)), fallback)
  {
  }

  /** A quoted range has a logit width exactly when the probability clamp leaves both ends apart. */
  lemma {:induction false} WidthIsPositive(m: Math, quote: Quote)
    requires m.Lawful()
    requires quote.yesBid.Some? && quote.yesAsk.Some? && 0.0 <= quote.yesBid.value < quote.yesAsk.value <= 1.0
    ensures quote.Usable(m) <==> quote.yesAsk.value > EPS && quote.yesBid.value < 1.0 - EPS
  {
    m.LogitCompares(quote.yesBid.value, quote.yesAsk.value);
  }

  /** The size counted on either side: none when the mode or the book leaves it out. */
  function CountedAsk(quote: Quote, side: DepthSide): real {
    if side != Bid then quote.depthAsk.GetOr(0.0) else 0.0
  }

  function CountedBid(quote: Quote, side: DepthSide): real {
    if side != Ask then quote.depthBid.GetOr(0.0) else 0.0
  }

  /** The mean of the positive sizes, 0 without any. */
  function PositiveMean(x: real, y: real): real {
    if x > 0.0 && y > 0.0 then (x + y) / 2.0 else if x > 0.0 then x else if y > 0.0 then y else 0.0
  }

  /** The mean of the sizes that are not zero, 0 without any. */
  function NonzeroMean(x: real, y: real): real {
    if x != 0.0 && y != 0.0 then (x + y) / 2.0 else if x != 0.0 then x else y
  }

  lemma EngineFit(m: Math, quote: Quote, side: DepthSide, fallback: real)
    requires fallback > 0.0 && quote.Usable(m)
    ensures CalibrateB(m, quote, side, fallback) ==
      Ok(FromDepth(PositiveMean(CountedAsk(quote, side), CountedBid(quote, side)), quote.Width(m), fallback))
  {
  }

  lemma ProductOfQuotient(depth: real, width: real, b: real)
    requires width > 0.0
    ensures b * width == depth <==> b == depth / width
  {
    var q := depth / width;
    assert q * width == depth;
    if b * width == depth {
      assert (b - q) * width == 0.0;
    }
  }

  /** At the fit to `depth`, walking the price across the quotes takes it, unless it is none or the fit was clamped. */
  ghost predicate WalkTakes(m: Math, quote: Quote, b: real, depth: real)
    requires quote.Usable(m)
  {
    (SharesToMovePrice(m, quote.yesBid.value, quote.yesAsk.value, b) == depth)
    <==> B_MIN <= depth / quote.Width(m) <= B_MAX
  }

  lemma {:induction false} FitTakesTheDepth(m: Math, quote: Quote, b: real, depth: real, fallback: real)
    requires quote.Usable(m) && fallback > 0.0 && b == FromDepth(depth, quote.Width(m), fallback)
    ensures WalkTakes(m, quote, b, depth)
  {
    ProductOfQuotient(depth, quote.Width(m), b);
    if depth <= 0.0 {
      SameSign(fallback, quote.Width(m));
    }
  }

  /**
   * The calibration's defining equation: at the fitted `b`, walking the synthetic price across
   * the quoted range takes exactly the depth resting there, or else nothing rests or `b` was clamped.
   */
  lemma {:induction false} WalkingTheQuotesTakesTheDepth(m: Math, quote: Quote, side: DepthSide, fallback: real)
    requires m.Lawful() && fallback > 0.0 && quote.Usable(m)
    ensures CalibrateB(m, quote, side, fallback).Ok?
    ensures WalkTakes(m, quote, CalibrateB(m, quote, side, fallback).value,
      PositiveMean(CountedAsk(quote, side), CountedBid(quote, side)))
  {
    EngineFit(m, quote, side, fallback);
    FitTakesTheDepth(m, quote, CalibrateB(m, quote, side, fallback).value,
      PositiveMean(CountedAsk(quote, side), CountedBid(quote, side)), fallback);
  }

  // ------------------------------------------------------------------ where the versions part

  predicate MixedSigns(x: real, y: real) {
    x < 0.0 < y || y < 0.0 < x
  }

  /** The engine fits the positive size `y` alone; the service averages in the negative size `x`. */
  predicate MixedFitsMeet(x: real, y: real, width: real, fallback: real)
    requires width > 0.0
  {
    if x + y <= 0.0 then Min(B_MAX, Max(B_MIN, y / width)) == fallback
    else y / width <= B_MIN || (x + y) / (2.0 * width) >= B_MAX
  }

  lemma SumOfAtMostTwo(x: real, y: real)
    ensures SumReal([x]) == x && SumReal([y]) == y && SumReal([x, y]) == x + y
  {
    assert [x, y][..1] == [x] && [x][..0] == [] && [y][..0] == [];
  }

  lemma AverageOfOne(x: real)
    ensures Average([x]) == x
  {
    SumOfAtMostTwo(x, x);
  }

  lemma AverageOfTwo(x: real, y: real)
    ensures Average([x, y]) == (x + y) / 2.0
  {
    SumOfAtMostTwo(x, y);
  }

  lemma ServiceFit(m: Math, quote: Quote, side: DepthSide, fallback: real)
    requires fallback > 0.0 && quote.Usable(m)
    ensures CalibrateFromDepth(m, quote, side, fallback) ==
      Ok(FromDepth(NonzeroMean(CountedAsk(quote, side), CountedBid(quote, side)), quote.Width(m), fallback))
  {
    var ask, bid := CountedAsk(quote, side), CountedBid(quote, side);
    if ask != 0.0 && bid != 0.0 {
      assert Truthy(ask) + Truthy(bid) == [ask, bid];
      AverageOfTwo(ask, bid);
    } else if ask != 0.0 {
      assert Truthy(ask) + [] == [ask];
      AverageOfOne(ask);
    } else if bid != 0.0 {
      assert [] + Truthy(bid) == [bid];
      AverageOfOne(bid);
    }
  }

  /** So it is for the service's fit, with every nonzero size averaged in. */
  lemma {:induction false} ServiceWalkTakesTheDepth(m: Math, quote: Quote, side: DepthSide, fallback: real)
    requires m.Lawful() && fallback > 0.0 && quote.Usable(m)
    ensures CalibrateFromDepth(m, quote, side, fallback).Ok?
    ensures WalkTakes(m, quote, CalibrateFromDepth(m, quote, side, fallback).value,
      NonzeroMean(CountedAsk(quote, side), CountedBid(quote, side)))
  {
    ServiceFit(m, quote, side, fallback);
    FitTakesTheDepth(m, quote, CalibrateFromDepth(m, quote, side, fallback).value,
      NonzeroMean(CountedAsk(quote, side), CountedBid(quote, side)), fallback);
  }

  lemma {:induction false} MixedAgreement(x: real, y: real, width: real, fallback: real)
    requires width > 0.0 && fallback > 0.0 && x < 0.0 < y
    ensures FromDepth(y, width, fallback) == FromDepth((x + y) / 2.0, width, fallback)
      <==> MixedFitsMeet(x, y, width, fallback)
  {
    if x + y > 0.0 {
      var q := (x + y) / 2.0 / width;
      DivideMonotone((x + y) / 2.0, y, width);
      assert q * width == (x + y) / 2.0;
      ProductOfQuotient(x + y, 2.0 * width, q);
    }
  }

  lemma {:induction false} MeansAgree(x: real, y: real, width: real, fallback: real)
    requires width > 0.0 && fallback > 0.0
    ensures FromDepth(PositiveMean(x, y), width, fallback) == FromDepth(NonzeroMean(x, y), width, fallback)
      <==> (MixedSigns(x, y) ==> MixedFitsMeet(Min(x, y), Max(x, y), width, fallback))
  {
    if MixedSigns(x, y) {
      MixedAgreement(Min(x, y), Max(x, y), width, fallback);
    }
  }

  /**
   * The two implementations agree on every book but those with one size below zero and one
   * above; on those, exactly when the fallback or the clamp hides the difference.
   */
  lemma {:induction false} ImplementationsAgreeExactlyWhen(m: Math, quote: Quote, side: DepthSide, fallback: real)
    ensures CalibrateB(m, quote, side, fallback) == CalibrateFromDepth(m, quote, side, fallback)
      <==> (fallback > 0.0 && quote.Usable(m) && MixedSigns(CountedAsk(quote, side), CountedBid(quote, side)) ==>
              MixedFitsMeet(Min(CountedAsk(quote, side), CountedBid(quote, side)),
                Max(CountedAsk(quote, side), CountedBid(quote, side)), quote.Width(m), fallback))
  {
    if fallback > 0.0 && quote.Usable(m) {
      EngineFit(m, quote, side, fallback);
      ServiceFit(m, quote, side, fallback);
      MeansAgree(CountedAsk(quote, side), CountedBid(quote, side), quote.Width(m), fallback);
    }
  }

  /** With a negative size they need not: the engine drops it, the service averages it in. */
  lemma {:induction false} NegativeDepthDivides(m: Math)
    requires m.Lawful()
    ensures var quote := Quote(Some(-2000.0), Some(1000.0), Some(0.0), Some(1.0));
      && CalibrateFromDepth(m, quote, Mean, 0.5) == Ok(0.5)
      && CalibrateB(m, quote, Mean, 0.5).Ok? && CalibrateB(m, quote, Mean, 0.5).value >= B_MIN
  {
    var quote := Quote(Some(-2000.0), Some(1000.0), Some(0.0), Some(1.0));
    WidthIsPositive(m, quote);
    EngineFit(m, quote, Mean, 0.5);
    ServiceFit(m, quote, Mean, 0.5);
  }
}
