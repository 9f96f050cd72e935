/** What a simulation shows, in terms of the forecasts and prices it is given. */
module SimulatedPrices {
  import opened Wrappers
  import opened Transcendental
  import opened Lmsr
  import opened BinaryMarket
  import opened DepthCalibration
  import opened Timeline
  import opened MarketData
  import opened LogitMoves
  import opened MakerLoss
  import opened Simulation
  import opened Lookahead

  /** The forecast where there is one, else the signal rescaled to a probability. */
  function Forecast(point: SignalPoint): real {
    match point.value.pHat
    case Some(p) => p
    case None => (point.value.sT + 1.0) / 2.0
  }

  lemma LogitMovesOn(m: Math, anchor: real, ordered: seq<SignalPoint>, r: real, n: nat)
    requires n < |ordered|
    ensures SimLogit(m, anchor, ordered, r, n + 1) ==
      Towards(SimLogit(m, anchor, ordered, r, n), m.Logit(Forecast(ordered[n])), r)
  {
  }

  /** The price before tick `n`: the tick before it, and at first the anchor. */
  function PriceBefore(ticks: seq<SimTick>, anchor: real, n: nat): real
    requires n < |ticks|
  {
    if n == 0 then Bounded(anchor) else ticks[n - 1].simPrice
  }

  lemma {:induction false} BeforeIsOnThePath(m: Math, ticks: seq<SimTick>, anchor: real, ordered: seq<SignalPoint>,
      r: real, n: nat)
    requires m.Lawful() && n < |ticks| == |ordered|
    requires n > 0 ==> ticks[n - 1].simPrice == m.Sigmoid(SimLogit(m, anchor, ordered, r, n))
    ensures PriceBefore(ticks, anchor, n) == m.Sigmoid(SimLogit(m, anchor, ordered, r, n))
  {
    if n == 0 {
      PriceOfLogit(m, anchor);
    }
  }

  lemma {:induction false} SimulatedBefore(m: Math, signals: seq<SignalPoint>, prices: seq<PriceTick>, r: real,
      initial: Option<real>, n: nat, ticks: seq<SimTick>, anchor: real)
    requires m.Lawful() && 0.0 < r <= 1.0 && n < |signals|
    requires ticks == Simulated(m, signals, prices, r, initial) && anchor == AnchorPrice(BookRows(prices), initial)
    ensures |ticks| == |signals|
    ensures PriceBefore(ticks, anchor, n) == m.Sigmoid(SimLogit(m, anchor, Sort(signals), r, n))
  {
    SimulatedPrice(m, signals, prices, r, initial, if n == 0 then 0 else n - 1);
    BeforeIsOnThePath(m, ticks, anchor, Sort(signals), r, n);
  }

  /** Every signal in time order moves the price towards its forecast, and all the way exactly at full pace. */
  lemma {:induction false} TicksFollowTheForecasts(m: Math, signals: seq<SignalPoint>, prices: seq<PriceTick>, r: real,
      initial: Option<real>, n: nat)
    requires m.Lawful() && 0.0 < r <= 1.0 && n < |signals|
    ensures |Simulated(m, signals, prices, r, initial)| == |signals|
    ensures var ticks := Simulated(m, signals, prices, r, initial);
      MovesTowards(PriceBefore(ticks, AnchorPrice(BookRows(prices), initial), n), ticks[n].simPrice,
        Bounded(Forecast(Sort(signals)[n])), r)
  {
    var anchor, ordered := AnchorPrice(BookRows(prices), initial), Sort(signals);
    SimulatedBefore(m, signals, prices, r, initial, n, Simulated(m, signals, prices, r, initial), anchor);
    SimulatedPrice(m, signals, prices, r, initial, n);
    LogitMovesOn(m, anchor, ordered, r, n);
    PriceOfLogit(m, Forecast(ordered[n]));
    PricesMove(m, SimLogit(m, anchor, ordered, r, n), m.Logit(Forecast(ordered[n])), r);
  }

  /** At full pace every tick shows its own forecast. */
  lemma {:induction false} FullPaceShowsTheForecast(m: Math, signals: seq<SignalPoint>, prices: seq<PriceTick>,
      initial: Option<real>, n: nat)
    requires m.Lawful() && n < |signals|
    ensures |Simulated(m, signals, prices, 1.0, initial)| == |signals|
    ensures Simulated(m, signals, prices, 1.0, initial)[n].simPrice ==
      match Sort(signals)[n].value.pHat
      case Some(p) => Bounded(p)
      case None => Bounded((Sort(signals)[n].value.sT + 1.0) / 2.0)
  {
    TicksFollowTheForecasts(m, signals, prices, 1.0, initial, n);
  }

  // --------------------------------------------------------------------------- raised forecasts

  /** The same instants, and no forecast lower in `ys`. */
  predicate RaisedTo(xs: seq<SignalPoint>, ys: seq<SignalPoint>) {
    |xs| == |ys| && forall i :: 0 <= i < |xs| ==> RaisedPoint(xs[i], ys[i])
  }

  predicate RaisedPoint(x: SignalPoint, y: SignalPoint) {
    x.ts == y.ts && Forecast(x) <= Forecast(y)
  }

  lemma {:induction false} InsertKeepsRaised(xs: seq<SignalPoint>, ys: seq<SignalPoint>, x: SignalPoint, y: SignalPoint)
    requires RaisedTo(xs, ys) && RaisedPoint(x, y)
    ensures RaisedTo(Insert(xs, x), Insert(ys, y))
  {
    if xs != [] {
      var n := |xs| - 1;
      assert RaisedPoint(xs[n], ys[n]);
      if xs[n].ts > x.ts {
        InsertKeepsRaised(xs[..n], ys[..n], x, y);
      }
    }
  }

  lemma {:induction false} SortKeepsRaised(xs: seq<SignalPoint>, ys: seq<SignalPoint>)
    requires RaisedTo(xs, ys)
    ensures RaisedTo(Sort(xs), Sort(ys))
  {
    if xs != [] {
      var n := |xs| - 1;
      SortKeepsRaised(xs[..n], ys[..n]);
      assert RaisedPoint(xs[n], ys[n]);
      InsertKeepsRaised(Sort(xs[..n]), Sort(ys[..n]), xs[n], ys[n]);
    }
  }

  lemma {:induction false} LogitsAreMonotone(m: Math, anchor: real, xs: seq<SignalPoint>, ys: seq<SignalPoint>, r: real,
      n: nat)
    requires m.Lawful() && 0.0 < r <= 1.0 && RaisedTo(xs, ys) && n <= |xs|
    ensures SimLogit(m, anchor, xs, r, n) <= SimLogit(m, anchor, ys, r, n)
  {
    if n > 0 {
      var i := n - 1;
      LogitsAreMonotone(m, anchor, xs, ys, r, i);
      LogitMovesOn(m, anchor, xs, r, i);
      LogitMovesOn(m, anchor, ys, r, i);
      assert RaisedPoint(xs[i], ys[i]);
      LogitIsMonotone(m, Forecast(xs[i]), Forecast(ys[i]));
      TowardsIsMonotone(SimLogit(m, anchor, xs, r, i), SimLogit(m, anchor, ys, r, i), m.Logit(Forecast(xs[i])),
        m.Logit(Forecast(ys[i])), r);
    }
  }

  /** Raising a forecast never lowers a price, then or later. */
  lemma {:induction false} RaisedForecastsRaisePrices(m: Math, signals: seq<SignalPoint>, raised: seq<SignalPoint>,
      prices: seq<PriceTick>, r: real, initial: Option<real>, n: nat)
    requires m.Lawful() && 0.0 < r <= 1.0 && RaisedTo(signals, raised) && n < |signals|
    ensures |Simulated(m, signals, prices, r, initial)| == |Simulated(m, raised, prices, r, initial)| == |signals|
    ensures Simulated(m, signals, prices, r, initial)[n].simPrice
      <= Simulated(m, raised, prices, r, initial)[n].simPrice
  {
    var anchor := AnchorPrice(BookRows(prices), initial);
    SimulatedPrice(m, signals, prices, r, initial, n);
    SimulatedPrice(m, raised, prices, r, initial, n);
    SortKeepsRaised(signals, raised);
    LogitsAreMonotone(m, anchor, Sort(signals), Sort(raised), r, n + 1);
    SigmoidIsMonotone(m, SimLogit(m, anchor, Sort(signals), r, n + 1), SimLogit(m, anchor, Sort(raised), r, n + 1));
  }

  // ---------------------------------------------------------------------------------- the anchor

  /** Every book row, and nothing else. */
  lemma {:induction false} BooksAreTheBookRows(ticks: seq<PriceTick>)
    ensures forall tick :: tick in BookRows(ticks) <==> tick in ticks && tick.value.source == Book
  {
    if ticks != [] {
      BooksAreTheBookRows(ticks[..|ticks| - 1]);
      assert ticks == ticks[..|ticks| - 1] + [ticks[|ticks| - 1]];
    }
  }

  lemma {:induction false} BooksConcat(ticks: seq<PriceTick>, more: seq<PriceTick>)
    ensures BookRows(ticks + more) == BookRows(ticks) + BookRows(more)
  {
    if more == [] {
      assert ticks + more == ticks;
    } else {
      BooksConcat(ticks, more[..|more| - 1]);
      assert (ticks + more)[..|ticks + more| - 1] == ticks + more[..|more| - 1];
    }
  }

  /** Candles can come and go: only book rows reach the simulation. */
  lemma {:induction false} CandlesAreIgnored(m: Math, signals: seq<SignalPoint>, before: seq<PriceTick>,
      candle: PriceTick, after: seq<PriceTick>, r: real, initial: Option<real>)
    requires candle.value.source == Candle
    ensures Simulated(m, signals, before + [candle] + after, r, initial)
      == Simulated(m, signals, before + after, r, initial)
  {
    BooksConcat(before + [candle], after);
    BooksConcat(before, [candle]);
    BooksConcat(before, after);
    assert [candle][..0] == [] && BookRows([candle]) == [];
    assert BookRows(before) + [] == BookRows(before);
  }

  /** The anchor: the price given, else the middle of the last book's quotes, else one half. */
  lemma {:induction false} AnchorIsGivenOrQuoted(books: seq<PriceTick>, initial: Option<real>)
    ensures initial.Some? ==> AnchorPrice(books, initial) == initial.value
    ensures initial.None? && books == [] ==> AnchorPrice(books, initial) == 0.5
    ensures initial.None? && books != [] ==>
      exists i :: 0 <= i < |books| && IsLast(books, i) && AnchorsOn(books[i].value, AnchorPrice(books, initial))
  {
    if initial.None? && books != [] {
      var i := LastIsListed(books);
    }
  }

  /** No other record is later, and none after it is as late. */
  ghost predicate IsLast<T>(xs: seq<Timed<T>>, i: int) {
    && 0 <= i < |xs|
    && (forall j :: 0 <= j < |xs| ==> xs[j].ts <= xs[i].ts) && (forall j :: i < j < |xs| ==> xs[j].ts < xs[i].ts)
  }

  lemma {:induction false} LastIsListed<T>(xs: seq<Timed<T>>) returns (i: nat)
    requires xs != []
    ensures IsLast(xs, i) && Sort(xs)[|xs| - 1] == xs[i]
  {
    var n := |xs| - 1;
    if n == 0 {
      i := 0;
    } else {
      i := LastIsListed(xs[..n]);
      if xs[i].ts <= xs[n].ts {
        i := n;
      }
    }
  }

  /** Twice the anchor is the sum of the quotes; unquoted, it is the last trade, or one half without any. */
  predicate AnchorsOn(tick: Tick, anchor: real) {
    if tick.quote.yesBid.Some? && tick.quote.yesAsk.Some?
    then 2.0 * anchor == tick.quote.yesBid.value + tick.quote.yesAsk.value
    else if tick.yesPrice.Some? then anchor == tick.yesPrice.value else anchor == 0.5
  }

  // ------------------------------------------------------------------------------ the liquidity

  /** The latest record at or before `t`, of equally late ones the last. */
  ghost predicate IsLatestBy<T>(xs: seq<Timed<T>>, t: int, i: int) {
    && 0 <= i < |xs| && xs[i].ts <= t
    && (forall j :: 0 <= j < |xs| && xs[j].ts <= t ==> xs[j].ts <= xs[i].ts)
    && (forall j :: i < j < |xs| && xs[j].ts <= t ==> xs[j].ts < xs[i].ts)
  }

  lemma {:induction false} ScanIsLatest<T>(xs: seq<Timed<T>>, t: int, i: int)
    requires IsLatestBy(xs, t, i)
    ensures ScanLatest(xs, t) == Some(xs[i])
  {
    var n := |xs| - 1;
    if i < n {
      ScanIsLatest(xs[..n], t, i);
    }
  }

  /** The earliest record, of equally early ones the first. */
  ghost predicate IsEarliest<T>(xs: seq<Timed<T>>, i: int) {
    && 0 <= i < |xs|
    && (forall j :: 0 <= j < |xs| ==> xs[i].ts <= xs[j].ts) && (forall j :: 0 <= j < i ==> xs[i].ts < xs[j].ts)
  }

  lemma {:induction false} InsertHead<T>(ys: seq<Timed<T>>, x: Timed<T>)
    requires Sorted(ys)
    ensures Insert(ys, x)[0] == if ys != [] && ys[0].ts <= x.ts then ys[0] else x
  {
    if |ys| > 1 && ys[|ys| - 1].ts > x.ts {
      InsertHead(ys[..|ys| - 1], x);
    }
  }

  lemma {:induction false} SortedHead<T>(xs: seq<Timed<T>>, i: int)
    requires IsEarliest(xs, i)
    ensures Sort(xs)[0] == xs[i]
  {
    var n := |xs| - 1;
    SortSorts(xs[..n]);
    InsertHead(Sort(xs[..n]), xs[n]);
    if i < n {
      SortedHead(xs[..n], i);
    } else if n > 0 {
      SortContains(xs[..n]);
    }
  }

  lemma SortContains<T>(xs: seq<Timed<T>>)
    requires xs != []
    ensures Sort(xs)[0] in xs
  {
    SortSorts(xs);
    assert Sort(xs)[0] in multiset(Sort(xs));
  }

  /** The book in force: the latest by then, or while there is none the earliest to come. */
  ghost predicate IsInForce(books: seq<PriceTick>, at: int, i: int) {
    if exists j :: 0 <= j < |books| && books[j].ts <= at then IsLatestBy(books, at, i) else IsEarliest(books, i)
  }

  lemma {:induction false} InForceFits(m: Math, books: seq<PriceTick>, first: int, at: int, i: int)
    requires IsInForce(books, at, i) && first <= at
    ensures LiquidityAt(m, books, Calibrate(m, OpeningBook(books, first)), at) == Calibrate(m, Some(books[i]))
  {
    if j :| 0 <= j < |books| && books[j].ts <= at {
      ScanIsLatest(books, at, i);
    } else {
      SortedHead(books, i);
    }
  }

  lemma {:induction false} TickIsSized(m: Math, signals: seq<SignalPoint>, prices: seq<PriceTick>, r: real,
      initial: Option<real>, n: nat)
    requires n < |signals|
    ensures |Simulated(m, signals, prices, r, initial)| == |signals| == |Sort(signals)|
    ensures Sort(signals)[0].ts <= Sort(signals)[n].ts
    ensures var tick := Simulated(m, signals, prices, r, initial)[n];
      && tick.ts == Sort(signals)[n].ts
      && tick.b == LiquidityAt(m, BookRows(prices), Calibrate(m, OpeningBook(BookRows(prices), Sort(signals)[0].ts)),
           tick.ts)
  {
    var books, ordered := BookRows(prices), Sort(signals);
    SortSorts(signals);
    TicksTrackTheBook(m, books, ordered, r, SetupOf(m, books, ordered[0].ts, initial), n);
  }

  ghost predicate IsSizedBy(m: Math, books: seq<PriceTick>, tick: SimTick) {
    && (books == [] ==> tick.b == 100.0)
    && forall i :: IsInForce(books, tick.ts, i) ==>
      CalibrateFromDepth(m, books[i].value.quote, Mean, 100.0) == Ok(tick.b)
  }

  /** Every tick is sized by the book in force at it, fitted from both sides; without any book, `b` is 100. */
  lemma {:induction false} TicksAreSizedByTheirBook(m: Math, signals: seq<SignalPoint>, prices: seq<PriceTick>, r: real,
      initial: Option<real>, n: nat)
    requires n < |signals|
    ensures |Simulated(m, signals, prices, r, initial)| == |signals|
    ensures IsSizedBy(m, BookRows(prices), Simulated(m, signals, prices, r, initial)[n])
  {
    var books, ordered := BookRows(prices), Sort(signals);
    TickIsSized(m, signals, prices, r, initial, n);
    var tick := Simulated(m, signals, prices, r, initial)[n];
    forall i | IsInForce(books, tick.ts, i)
      ensures CalibrateFromDepth(m, books[i].value.quote, Mean, 100.0) == Ok(tick.b)
    {
      InForceFits(m, books, ordered[0].ts, tick.ts, i);
      CalibrationIsPositive(m, books[i].value.quote, Mean, 100.0);
    }
  }

  // ----------------------------------------------------------------------------------- the ticks

  lemma {:induction false} NoShortLeg(m: Math, books: seq<PriceTick>, ordered: seq<SignalPoint>, r: real, setup: Setup,
      n: nat)
    requires setup.openingB > 0.0 && n <= |ordered|
    ensures PositionAfter(m, books, ordered, r, setup, n).qNo == 0.0
    decreases n
  {
    if n > 0 {
      NoShortLeg(m, books, ordered, r, setup, n - 1);
    }
  }

  /** What a tick says is consistent: all shares are YES, they make the price, and the cost is theirs. */
  ghost predicate IsQuoted(m: Math, tick: SimTick) {
    && tick.b > 0.0 && tick.qNo == 0.0
    && tick.qYes == Times(tick.b, m.Logit(tick.simPrice))
    && tick.cost == Times(tick.b, m.Ln(1.0 + m.Exp(m.Logit(tick.simPrice))))
  }

  lemma {:induction false} QuotedPosition(m: Math, p: Position)
    requires m.Lawful() && p.b > 0.0 && p.qNo == 0.0 && p.InBand(m)
    ensures p.qYes == Times(p.b, m.Logit(p.Price(m)))
    ensures p.CostValue(m) == Times(p.b, m.Ln(1.0 + m.Exp(m.Logit(p.Price(m)))))
  {
    m.LogitOfSigmoid(p.Imbalance());
    IsAt(p);
    CostAt(m, p.b, p.Imbalance());
  }

  lemma SimulationOf(m: Math, signals: seq<SignalPoint>, prices: seq<PriceTick>, r: real, initial: Option<real>)
    returns (setup: Setup)
    requires signals != []
    ensures setup.openingB > 0.0 && setup.anchor == AnchorPrice(BookRows(prices), initial)
    ensures Simulated(m, signals, prices, r, initial) == Ticks(m, BookRows(prices), Sort(signals), r, setup)
  {
    setup := SetupOf(m, BookRows(prices), Sort(signals)[0].ts, initial);
  }

  lemma {:induction false} QuotedTick(m: Math, point: SignalPoint, before: Position, after: Position)
    requires m.Lawful() && after.b > 0.0 && after.qNo == 0.0 && after.InBand(m)
    ensures IsQuoted(m, TickOf(m, point, before, after))
  {
    QuotedPosition(m, after);
  }

  lemma {:induction false} TickIsQuoted(m: Math, books: seq<PriceTick>, ordered: seq<SignalPoint>, r: real,
      setup: Setup, n: nat)
    requires m.Lawful() && 0.0 < r <= 1.0 && setup.openingB > 0.0 && n < |ordered|
    ensures var tick := TickAfter(m, books, ordered, r, setup, n);
      IsQuoted(m, tick) && tick.ts == ordered[n].ts && tick.signal == ordered[n].value.sT
  {
    NoShortLeg(m, books, ordered, r, setup, n + 1);
    OnTheLogitPath(m, books, ordered, r, setup, n + 1);
    QuotedTick(m, ordered[n], Rebased(m, PositionAfter(m, books, ordered, r, setup, n),
      ScanLatest(books, ordered[n].ts)), PositionAfter(m, books, ordered, r, setup, n + 1));
  }

  /** Every tick carries its signal's stamp and value, and its shares, price and cost fit together. */
  lemma {:induction false} TicksAreQuoted(m: Math, signals: seq<SignalPoint>, prices: seq<PriceTick>, r: real,
      initial: Option<real>, n: nat)
    requires m.Lawful() && 0.0 < r <= 1.0 && n < |signals|
    ensures |Simulated(m, signals, prices, r, initial)| == |signals|
    ensures var tick := Simulated(m, signals, prices, r, initial)[n];
      IsQuoted(m, tick) && tick.ts == Sort(signals)[n].ts && tick.signal == Sort(signals)[n].value.sT
  {
    var setup := SimulationOf(m, signals, prices, r, initial);
    TickIsQuoted(m, BookRows(prices), Sort(signals), r, setup, n);
  }

  lemma SharesMoved(b: real, x: real, y: real)
    ensures Times(b, y) - Times(b, x) == Times(b, y - x)
  {
  }

  /** The trade of a tick is what moves the log-odds from where they were to its own, at its own liquidity. */
  lemma {:induction false} TickTrades(m: Math, books: seq<PriceTick>, ordered: seq<SignalPoint>, r: real,
      setup: Setup, n: nat)
    requires m.Lawful() && 0.0 < r <= 1.0 && setup.openingB > 0.0 && n < |ordered|
    ensures var tick := TickAfter(m, books, ordered, r, setup, n);
      tick.tradeSize == Times(tick.b, m.Logit(tick.simPrice)
        - m.Logit(m.Sigmoid(SimLogit(m, setup.anchor, ordered, r, n))))
  {
    var before, book := PositionAfter(m, books, ordered, r, setup, n), ScanLatest(books, ordered[n].ts);
    var rebased, tick := Rebased(m, before, book), TickAfter(m, books, ordered, r, setup, n);
    NoShortLeg(m, books, ordered, r, setup, n);
    OnTheLogitPath(m, books, ordered, r, setup, n);
    RebasingKeepsTheImbalance(m, before, book);
    IsAt(rebased);
    m.LogitOfSigmoid(rebased.Imbalance());
    TickIsQuoted(m, books, ordered, r, setup, n);
    SharesMoved(rebased.b, rebased.Imbalance(), m.Logit(tick.simPrice));
  }

  /** The trade of tick `n` is what moves the log-odds from the previous price to its own, at its own liquidity. */
  ghost predicate TradesFrom(m: Math, ticks: seq<SimTick>, anchor: real, n: nat) {
    && n < |ticks|
    && ticks[n].tradeSize ==
         Times(ticks[n].b, m.Logit(ticks[n].simPrice) - m.Logit(PriceBefore(ticks, anchor, n)))
  }

  lemma {:induction false} TickTradesFrom(m: Math, books: seq<PriceTick>, ordered: seq<SignalPoint>, r: real,
      setup: Setup, ticks: seq<SimTick>, n: nat)
    requires m.Lawful() && 0.0 < r <= 1.0 && setup.openingB > 0.0 && n < |ticks| == |ordered|
    requires ticks[n] == TickAfter(m, books, ordered, r, setup, n)
    requires PriceBefore(ticks, setup.anchor, n) == m.Sigmoid(SimLogit(m, setup.anchor, ordered, r, n))
    ensures TradesFrom(m, ticks, setup.anchor, n)
  {
    TickTrades(m, books, ordered, r, setup, n);
  }

  lemma {:induction false} TradesMoveThePrice(m: Math, signals: seq<SignalPoint>, prices: seq<PriceTick>, r: real,
      initial: Option<real>, n: nat)
    requires m.Lawful() && 0.0 < r <= 1.0 && n < |signals|
    ensures TradesFrom(m, Simulated(m, signals, prices, r, initial), AnchorPrice(BookRows(prices), initial), n)
  {
    var ticks := Simulated(m, signals, prices, r, initial);
    var setup := SimulationOf(m, signals, prices, r, initial);
    SimulatedBefore(m, signals, prices, r, initial, n, ticks, setup.anchor);
    TickTradesFrom(m, BookRows(prices), Sort(signals), r, setup, ticks, n);
  }
}
