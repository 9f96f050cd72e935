/** What a simulated run can see: its liquidity, its anchor, and its future. */
module Lookahead {
  import opened Wrappers
  import opened Transcendental
  import opened BinaryMarket
  import opened DepthCalibration
  import opened Timeline
  import opened MarketData
  import opened Simulation

  // ------------------------------------------------------------------- the run in logit space

  /** Where the imbalance goes; no book and no `b` in sight. */
  function SimLogit(m: Math, anchor: real, ordered: seq<SignalPoint>, r: real, n: nat): real
    requires n <= |ordered|
  {
    if n == 0 then m.Logit(anchor)
    else Towards(SimLogit(m, anchor, ordered, r, n - 1), m.Logit(ordered[n - 1].value.Target()), r)
  }

  lemma {:induction false} RebasingKeepsTheImbalance(m: Math, p: Position, book: Option<PriceTick>)
    requires p.b > 0.0
    ensures Rebased(m, p, book).Imbalance() == p.Imbalance()
  {
    if book.Some? {
      RecalibrationKeepsThePrice(p, Calibrate(m, book));
    }
  }

  /** Every simulated market is on the book-free path, and inside the logit band. */
  lemma {:induction false} OnTheLogitPath(m: Math, books: seq<PriceTick>, ordered: seq<SignalPoint>, r: real,
      setup: Setup, n: nat)
    requires m.Lawful() && setup.openingB > 0.0 && 0.0 < r <= 1.0 && n <= |ordered|
    ensures PositionAfter(m, books, ordered, r, setup, n).InBand(m)
    ensures PositionAfter(m, books, ordered, r, setup, n).Imbalance() == SimLogit(m, setup.anchor, ordered, r, n)
    decreases n
  {
    if n == 0 {
      var fresh0 := Position(setup.openingB, 0.0, 0.0);
      FreshIsInBand(m, fresh0);
      MoveLands(m, fresh0, setup.anchor);
      NextKeepsTheBand(m, fresh0, Move(setup.anchor));
    } else {
      OnTheLogitPath(m, books, ordered, r, setup, n - 1);
      var before := PositionAfter(m, books, ordered, r, setup, n - 1);
      var rebased := Rebased(m, before, ScanLatest(books, ordered[n - 1].ts));
      RebasingKeepsTheImbalance(m, before, ScanLatest(books, ordered[n - 1].ts));
      var op := Step(ordered[n - 1].value.Target(), r, None);
      NextFollowsLogit(m, rebased, op);
      NextKeepsTheBand(m, rebased, op);
    }
  }

  /** Two anchors close in on each other geometrically. */
  lemma {:induction false} AnchorsConverge(m: Math, anchor: real, other: real, ordered: seq<SignalPoint>, r: real,
      n: nat)
    requires n <= |ordered|
    ensures SimLogit(m, anchor, ordered, r, n) - SimLogit(m, other, ordered, r, n)
      == Decayed(m.Logit(anchor) - m.Logit(other), 1.0 - r, n)
  {
    if n > 0 {
      AnchorsConverge(m, anchor, other, ordered, r, n - 1);
      TowardsContracts(SimLogit(m, anchor, ordered, r, n - 1), SimLogit(m, other, ordered, r, n - 1),
        m.Logit(ordered[n - 1].value.Target()), r, Decayed(m.Logit(anchor) - m.Logit(other), 1.0 - r, n - 1));
    }
  }

  lemma TowardsContracts(x: real, y: real, target: real, r: real, gap: real)
    requires x - y == gap
    ensures Towards(x, target, r) - Towards(y, target, r) == Times(gap, 1.0 - r)
  {
  }

  lemma {:induction false} NothingLeft(gap: real, keep: real, n: nat)
    ensures Decayed(gap, keep, n) == 0.0 <==> gap == 0.0 || (keep == 0.0 && n > 0)
  {
    if n > 0 {
      NothingLeft(gap, keep, n - 1);
      if Decayed(gap, keep, n - 1) != 0.0 && keep != 0.0 {
        NonzeroProduct(Decayed(gap, keep, n - 1), keep);
      }
    }
  }

  lemma {:induction false} SimulatedPrice(m: Math, signals: seq<SignalPoint>, prices: seq<PriceTick>, r: real,
      initial: Option<real>, n: nat)
    requires m.Lawful() && 0.0 < r <= 1.0 && n < |signals|
    ensures |Simulated(m, signals, prices, r, initial)| == |signals|
    ensures Simulated(m, signals, prices, r, initial)[n].simPrice
      == m.Sigmoid(SimLogit(m, AnchorPrice(BookRows(prices), initial), Sort(signals), r, n + 1))
  {
    var ordered, books := Sort(signals), BookRows(prices);
    OnTheLogitPath(m, books, ordered, r, SetupOf(m, books, ordered[0].ts, initial), n + 1);
  }

  lemma {:induction false} PathsMeet(m: Math, anchor: real, other: real, ordered: seq<SignalPoint>, r: real, n: nat)
    requires m.Lawful() && 0.0 < r <= 1.0 && 0 < n <= |ordered|
    ensures m.Sigmoid(SimLogit(m, anchor, ordered, r, n)) == m.Sigmoid(SimLogit(m, other, ordered, r, n))
      <==> r == 1.0 || ClampProbability(anchor) == ClampProbability(other)
  {
    m.SigmoidIncreases(SimLogit(m, anchor, ordered, r, n), SimLogit(m, other, ordered, r, n));
    AnchorsConverge(m, anchor, other, ordered, r, n);
    NothingLeft(m.Logit(anchor) - m.Logit(other), 1.0 - r, n);
    m.LogitCompares(anchor, other);
    m.LogitCompares(other, anchor);
  }

  /**
   * Recorded books move the simulated prices through the anchor and no other way: two book
   * histories give one price at a step exactly when their clamped anchors agree, or when each
   * step goes the whole way.
   */
  lemma {:induction false} BooksMovePricesThroughTheAnchorOnly(m: Math, signals: seq<SignalPoint>,
      prices: seq<PriceTick>,
      others: seq<PriceTick>, r: real, initial: Option<real>, otherInitial: Option<real>, n: nat)
    requires m.Lawful() && 0.0 < r <= 1.0 && n < |signals|
    ensures |Simulated(m, signals, prices, r, initial)| == |Simulated(m, signals, others, r, otherInitial)| == |signals|
    ensures Simulated(m, signals, prices, r, initial)[n].simPrice ==
      Simulated(m, signals, others, r, otherInitial)[n].simPrice
      <==> r == 1.0 || ClampProbability(AnchorPrice(BookRows(prices), initial))
                       == ClampProbability(AnchorPrice(BookRows(others), otherInitial))
  {
    SimulatedPrice(m, signals, prices, r, initial, n);
    SimulatedPrice(m, signals, others, r, otherInitial, n);
    PathsMeet(m, AnchorPrice(BookRows(prices), initial), AnchorPrice(BookRows(others), otherInitial), Sort(signals), r,
      n + 1);
  }

  // -------------------------------------------------------------------------- the liquidity

  /** The `b` in force at a time: the latest book's, or the opening one before any book. */
  function LiquidityAt(m: Math, books: seq<PriceTick>, openingB: real, at: int): real {
    var book := ScanLatest(books, at);
    if book.Some? then Calibrate(m, book) else openingB
  }

  /** Each tick is sized by the latest book at or before it: what the code says it tracks. */
  lemma {:induction false} TicksTrackTheBook(m: Math, books: seq<PriceTick>, ordered: seq<SignalPoint>, r: real,
      setup: Setup, n: nat)
    requires setup.openingB > 0.0 && n < |ordered| && Sorted(ordered)
    ensures PositionAfter(m, books, ordered, r, setup, n + 1).b == LiquidityAt(m, books, setup.openingB, ordered[n].ts)
    ensures PositionAfter(m, books, ordered, r, setup, n + 1).qNo == 0.0
    decreases n
  {
    var before := PositionAfter(m, books, ordered, r, setup, n);
    if n > 0 {
      TicksTrackTheBook(m, books, ordered, r, setup, n - 1);
      assert ordered[n - 1].ts <= ordered[n].ts;
    }
    var rebased := Rebased(m, before, ScanLatest(books, ordered[n].ts));
    assert PositionAfter(m, books, ordered, r, setup, n + 1) ==
      Next(m, rebased, Step(ordered[n].value.Target(), r, None));
  }

  // ----------------------------------------------------------------------------- the future

  lemma {:induction false} BookRowsUpTo(prices: seq<PriceTick>, t: int)
    ensures BookRows(UpTo(prices, t)) == UpTo(BookRows(prices), t)
  {
    if prices != [] {
      var front, last := prices[..|prices| - 1], prices[|prices| - 1];
      BookRowsUpTo(front, t);
      if last.ts <= t {
        assert (UpTo(front, t) + [last])[..|UpTo(front, t)|] == UpTo(front, t);
      } else {
        assert UpTo(front, t) + [] == UpTo(front, t);
      }
      if last.value.source == Book {
        UpToSnoc(BookRows(front), last, t);
      } else {
        assert BookRows(front) + [] == BookRows(front);
      }
    }
  }

  lemma {:induction false} SamePastSameScan(books: seq<PriceTick>, others: seq<PriceTick>, t: int, now: int)
    requires SamePast(books, others, t) && now <= t
    ensures ScanLatest(books, now) == ScanLatest(others, now)
  {
    ScanIgnoresFuture(books, t, now);
    ScanIgnoresFuture(others, t, now);
  }

  /** Sorted, equal pasts are equal prefixes. */
  lemma {:induction false} SamePastSamePrefix<T>(xs: seq<Timed<T>>, ys: seq<Timed<T>>, t: int)
    requires SamePast(xs, ys, t)
    ensures var k := |UpTo(xs, t)|; k <= |xs| && k <= |ys| && Sort(xs)[..k] == Sort(ys)[..k] == Sort(UpTo(xs, t))
    ensures forall i :: 0 <= i < |xs| ==> (Sort(xs)[i].ts <= t <==> i < |UpTo(xs, t)|)
  {
    SortUpTo(xs, t);
    SortUpTo(ys, t);
    SortSorts(xs);
    SortSorts(ys);
    PastIsPrefix(Sort(xs), t);
    PastIsPrefix(Sort(ys), t);
  }

  lemma {:induction false} EarliestIsPast(books: seq<PriceTick>, t: int)
    requires UpTo(books, t) != []
    ensures Earliest(books) == Earliest(UpTo(books, t))
  {
    SamePastSamePrefix(books, books, t);
    var k := |UpTo(books, t)|;
    assert Sort(books)[..k][0] == Sort(books)[0];
  }

  /** A past book fixes the opening liquidity, even one that arrived after the first signal. */
  lemma {:induction false} SamePastSameOpening(books: seq<PriceTick>, others: seq<PriceTick>, t: int, first: int)
    requires SamePast(books, others, t) && first <= t && UpTo(books, t) != []
    ensures OpeningBook(books, first) == OpeningBook(others, first)
  {
    SamePastSameScan(books, others, t, first);
    EarliestIsPast(books, t);
    EarliestIsPast(others, t);
  }

  lemma {:induction false} SamePastSamePosition(m: Math, books: seq<PriceTick>, others: seq<PriceTick>,
      ordered: seq<SignalPoint>, otherOrdered: seq<SignalPoint>, r: real, setup: Setup, t: int, n: nat)
    requires setup.openingB > 0.0 && SamePast(books, others, t)
    requires n <= |ordered| && n <= |otherOrdered| && ordered[..n] == otherOrdered[..n]
    requires forall i :: 0 <= i < n ==> ordered[i].ts <= t
    ensures PositionAfter(m, books, ordered, r, setup, n) == PositionAfter(m, others, otherOrdered, r, setup, n)
    decreases n
  {
    if n > 0 {
      assert ordered[..n][..n - 1] == ordered[..n - 1] && otherOrdered[..n][..n - 1] == otherOrdered[..n - 1];
      SamePastSamePosition(m, books, others, ordered, otherOrdered, r, setup, t, n - 1);
      assert ordered[n - 1] == ordered[..n][n - 1] == otherOrdered[n - 1];
      SamePastSameScan(books, others, t, ordered[n - 1].ts);
    }
  }

  lemma {:induction false} SamePastSameTicks(m: Math, books: seq<PriceTick>, others: seq<PriceTick>,
      ordered: seq<SignalPoint>, otherOrdered: seq<SignalPoint>, r: real, setup: Setup, t: int, k: nat)
    requires setup.openingB > 0.0 && SamePast(books, others, t)
    requires k <= |ordered| && k <= |otherOrdered| && ordered[..k] == otherOrdered[..k]
    requires forall i :: 0 <= i < k ==> ordered[i].ts <= t
    ensures Ticks(m, books, ordered, r, setup)[..k] == Ticks(m, others, otherOrdered, r, setup)[..k]
  {
    forall n | 0 <= n < k
      ensures TickAfter(m, books, ordered, r, setup, n) == TickAfter(m, others, otherOrdered, r, setup, n)
    {
      assert ordered[..k][..n] == ordered[..n] && otherOrdered[..k][..n] == otherOrdered[..n];
      assert ordered[..k][..n + 1] == ordered[..n + 1] && otherOrdered[..k][..n + 1] == otherOrdered[..n + 1];
      assert ordered[n] == ordered[..k][n] == otherOrdered[n];
      SamePastSamePosition(m, books, others, ordered, otherOrdered, r, setup, t, n);
      SamePastSamePosition(m, books, others, ordered, otherOrdered, r, setup, t, n + 1);
      SamePastSameScan(books, others, t, ordered[n].ts);
    }
  }

  /** The ticks of the signals at or before `t`. */
  function PastTicks(m: Math, signals: seq<SignalPoint>, prices: seq<PriceTick>, r: real, initial: Option<real>,
      t: int): seq<SimTick>
  {
    var ticks := Simulated(m, signals, prices, r, initial);
    if |UpTo(signals, t)| <= |ticks| then ticks[..|UpTo(signals, t)|] else ticks
  }

  lemma {:induction false} PastOfTicks(m: Math, signals: seq<SignalPoint>, prices: seq<PriceTick>, r: real,
      initial: Option<real>, t: int)
    requires UpTo(signals, t) != []
    ensures |UpTo(signals, t)| <= |signals|
    ensures PastTicks(m, signals, prices, r, initial, t)
      == Ticks(m, BookRows(prices), Sort(signals), r,
           SetupOf(m, BookRows(prices), Sort(signals)[0].ts, initial))[..|UpTo(signals, t)|]
  {
    SamePastSamePrefix(signals, signals, t);
  }

  lemma {:induction false} SamePastSameBooks(prices: seq<PriceTick>, later: seq<PriceTick>, t: int)
    requires SamePast(prices, later, t)
    ensures SamePast(BookRows(prices), BookRows(later), t)
    ensures UpTo(BookRows(prices), t) == BookRows(UpTo(prices, t))
  {
    BookRowsUpTo(prices, t);
    BookRowsUpTo(later, t);
  }

  /** Given a price to open at and a book by `t`, no addition after `t` reaches a tick at or before it. */
  lemma {:induction false} NoLookahead(m: Math, signals: seq<SignalPoint>, later: seq<SignalPoint>,
      prices: seq<PriceTick>,
      laterPrices: seq<PriceTick>, r: real, initial: Option<real>, t: int)
    requires SamePast(signals, later, t) && SamePast(prices, laterPrices, t)
    requires initial.Some? && BookRows(UpTo(prices, t)) != []
    ensures PastTicks(m, signals, prices, r, initial, t) == PastTicks(m, later, laterPrices, r, initial, t)
  {
    var k := |UpTo(signals, t)|;
    if k > 0 {
      PastOfTicks(m, signals, prices, r, initial, t);
      PastOfTicks(m, later, laterPrices, r, initial, t);
      SamePastSamePrefix(signals, later, t);
      SamePastSameBooks(prices, laterPrices, t);
      var ordered, otherOrdered := Sort(signals), Sort(later);
      assert ordered[0] == ordered[..k][0] == otherOrdered[..k][0];
      SamePastSameOpening(BookRows(prices), BookRows(laterPrices), t, ordered[0].ts);
      SamePastSameTicks(m, BookRows(prices), BookRows(laterPrices), ordered, otherOrdered, r,
        SetupOf(m, BookRows(prices), ordered[0].ts, initial), t, k);
    }
  }

  // ----------------------------------------------------------------- when the future is seen

  /** A book row recorded just after `t`, its last trade at `price`. */
  function FutureBook(t: int, price: real, quote: Quote): PriceTick {
    Timed(t + 1, Tick(Book, Some(price), quote))
  }

  function WithFuture(prices: seq<PriceTick>, t: int, price: real, quote: Quote): seq<PriceTick> {
    UpTo(prices, t) + [FutureBook(t, price, quote)]
  }

  lemma {:induction false} FutureIsLast(prices: seq<PriceTick>, t: int, price: real, quote: Quote)
    ensures var book, all := FutureBook(t, price, quote), WithFuture(prices, t, price, quote);
      && SamePast(prices, all, t)
      && BookRows(all) == BookRows(UpTo(prices, t)) + [book]
      && SamePast(BookRows(prices), BookRows(all), t)
      && Sort(BookRows(all)) == Sort(BookRows(UpTo(prices, t))) + [book]
  {
    var past, book, all := UpTo(prices, t), FutureBook(t, price, quote), WithFuture(prices, t, price, quote);
    PastOfPast(prices, t);
    UpToSnoc(past, book, t);
    assert all[..|past|] == past;
    SamePastSameBooks(prices, all, t);
    var rows := BookRows(past);
    assert (rows + [book])[..|rows|] == rows;
    SortUpTo(BookRows(prices), t);
  }

  /** What a step trades from the logit `x` towards `target`. */
  function TradeFrom(b: real, x: real, target: real, r: real): real {
    Times(Times(b, target - x), r)
  }

  lemma {:induction false} StepTrades(m: Math, p: Position, target: real, r: real)
    requires m.Lawful() && p.b > 0.0 && p.InBand(m) && 0.0 < r <= 1.0
    ensures Next(m, p, Step(target, r, None)).qYes - p.qYes == TradeFrom(p.b, p.Imbalance(), m.Logit(target), r)
  {
    m.LogitOfSigmoid(p.Imbalance());
    m.LogitOfClamped(target);
  }

  lemma {:induction false} FirstTick(m: Math, books: seq<PriceTick>, ordered: seq<SignalPoint>, r: real, setup: Setup)
    requires m.Lawful() && 0.0 < r <= 1.0 && setup.openingB > 0.0 && ordered != [] && Sorted(ordered)
    ensures var tick := TickAfter(m, books, ordered, r, setup, 0);
      && tick.b == LiquidityAt(m, books, setup.openingB, ordered[0].ts)
      && tick.tradeSize == TradeFrom(tick.b, m.Logit(setup.anchor), m.Logit(ordered[0].value.Target()), r)
  {
    TicksTrackTheBook(m, books, ordered, r, setup, 0);
    OnTheLogitPath(m, books, ordered, r, setup, 0);
    var start := PositionAfter(m, books, ordered, r, setup, 0);
    var book := ScanLatest(books, ordered[0].ts);
    RebasingKeepsTheImbalance(m, start, book);
    var rebased := Rebased(m, start, book);
    StepTrades(m, rebased, ordered[0].value.Target(), r);
  }

  lemma DifferentTrades(b: real, x: real, y: real, target: real, r: real)
    requires b > 0.0 && r > 0.0 && x != y
    ensures TradeFrom(b, x, target, r) != TradeFrom(b, y, target, r)
  {
    NonzeroProduct(b, x - y);
    assert Times(b, target - y) - Times(b, target - x) == b * (x - y);
    NonzeroProduct(Times(b, target - y) - Times(b, target - x), r);
  }

  /** What the first tick is sized by when one book follows `t`. */
  function FirstB(m: Math, prices: seq<PriceTick>, t: int, price: real, quote: Quote, first: int): real {
    var past := BookRows(UpTo(prices, t));
    if past == [] then Calibrate(m, Some(FutureBook(t, price, quote)))
    else LiquidityAt(m, past, Calibrate(m, OpeningBook(past, first)), first)
  }

  lemma {:induction false} FutureLiquidity(m: Math, prices: seq<PriceTick>, t: int, price: real, quote: Quote,
      first: int)
    requires first <= t
    ensures var rows := BookRows(WithFuture(prices, t, price, quote));
      LiquidityAt(m, rows, Calibrate(m, OpeningBook(rows, first)), first) == FirstB(m, prices, t, price, quote, first)
  {
    FutureIsLast(prices, t, price, quote);
    var past, rows := BookRows(UpTo(prices, t)), BookRows(WithFuture(prices, t, price, quote));
    BookRowsUpTo(prices, t);
    PastOfPast(BookRows(prices), t);
    assert SamePast(past, rows, t);
    SamePastSameScan(past, rows, t, first);
    if past == [] {
      ScanIgnoresFuture(rows, t, first);
    } else {
      SamePastSameOpening(past, rows, t, first);
    }
  }

  lemma {:induction false} FutureAnchor(prices: seq<PriceTick>, t: int, price: real)
    ensures AnchorPrice(BookRows(WithFuture(prices, t, price, NO_QUOTE)), None) == price
  {
    FutureIsLast(prices, t, price, NO_QUOTE);
  }

  lemma {:induction false} FirstPastTick(m: Math, signals: seq<SignalPoint>, prices: seq<PriceTick>, r: real, t: int,
      price: real, quote: Quote, initial: Option<real>)
    requires m.Lawful() && 0.0 < r <= 1.0 && UpTo(signals, t) != []
    ensures signals != [] && Sort(signals)[0].ts <= t
    ensures var all, first := WithFuture(prices, t, price, quote), Sort(signals)[0];
      var ticks := PastTicks(m, signals, all, r, initial, t);
      var b := FirstB(m, prices, t, price, quote, first.ts);
      && ticks != [] && ticks[0].b == b && b > 0.0
      && ticks[0].tradeSize
           == TradeFrom(b, m.Logit(AnchorPrice(BookRows(all), initial)), m.Logit(first.value.Target()), r)
  {
    SamePastSamePrefix(signals, signals, t);
    SortSorts(signals);
    var all, ordered := WithFuture(prices, t, price, quote), Sort(signals);
    PastOfTicks(m, signals, all, r, initial, t);
    FutureLiquidity(m, prices, t, price, quote, ordered[0].ts);
    FirstTick(m, BookRows(all), ordered, r, SetupOf(m, BookRows(all), ordered[0].ts, initial));
  }

  /** With no price given the anchor is the last book's, however late that book is. */
  lemma {:induction false} FutureAnchorShows(m: Math, signals: seq<SignalPoint>, prices: seq<PriceTick>, r: real,
      t: int)
    requires m.Lawful() && 0.0 < r <= 1.0 && UpTo(signals, t) != []
    ensures PastTicks(m, signals, WithFuture(prices, t, 0.25, NO_QUOTE), r, None, t)
      != PastTicks(m, signals, WithFuture(prices, t, 0.75, NO_QUOTE), r, None, t)
  {
    FirstPastTick(m, signals, prices, r, t, 0.25, NO_QUOTE, None);
    FirstPastTick(m, signals, prices, r, t, 0.75, NO_QUOTE, None);
    FutureAnchor(prices, t, 0.25);
    FutureAnchor(prices, t, 0.75);
    m.LogitCompares(0.25, 0.75);
    var first := Sort(signals)[0];
    var b := FirstB(m, prices, t, 0.25, NO_QUOTE, first.ts);
    DifferentTrades(b, m.Logit(0.25), m.Logit(0.75), m.Logit(first.value.Target()), r);
  }

  /** A quote that calibrates to twice the fallback. */
  function DeepQuote(m: Math): Quote {
    var depth := Times(2.0 * DEFAULT_FALLBACK, m.Logit(0.75) - m.Logit(0.25));
    Quote(Some(depth), Some(depth), Some(0.25), Some(0.75))
  }

  lemma DoubleDepth(width: real)
    requires width > 0.0
    ensures var depth := Times(2.0 * DEFAULT_FALLBACK, width);
      depth > 0.0 && FromDepth(NonzeroMean(depth, depth), width, DEFAULT_FALLBACK) == 2.0 * DEFAULT_FALLBACK
  {
    var depth := Times(2.0 * DEFAULT_FALLBACK, width);
    SameSign(2.0 * DEFAULT_FALLBACK, width);
    ProductOfQuotient(depth, width, 2.0 * DEFAULT_FALLBACK);
  }

  lemma {:induction false} DeepQuoteIsDeep(m: Math, t: int)
    requires m.Lawful()
    ensures Calibrate(m, Some(FutureBook(t, 0.5, DeepQuote(m)))) == 2.0 * DEFAULT_FALLBACK
  {
    m.LogitCompares(0.25, 0.75);
    var quote := DeepQuote(m);
    DoubleDepth(quote.Width(m));
    ServiceFit(m, quote, Mean, DEFAULT_FALLBACK);
  }

  /** With no book by `t` the opening liquidity is that of the first book to come. */
  lemma {:induction false} FutureDepthShows(m: Math, signals: seq<SignalPoint>, prices: seq<PriceTick>, r: real,
      initial: Option<real>, t: int)
    requires m.Lawful() && 0.0 < r <= 1.0 && UpTo(signals, t) != []
    requires BookRows(UpTo(prices, t)) == []
    ensures PastTicks(m, signals, WithFuture(prices, t, 0.5, NO_QUOTE), r, initial, t)
      != PastTicks(m, signals, WithFuture(prices, t, 0.5, DeepQuote(m)), r, initial, t)
  {
    FirstPastTick(m, signals, prices, r, t, 0.5, NO_QUOTE, initial);
    FirstPastTick(m, signals, prices, r, t, 0.5, DeepQuote(m), initial);
    DeepQuoteIsDeep(m, t);
  }

  /** No additions after `t` reach the ticks at or before it. */
  ghost predicate BlindAfter(m: Math, signals: seq<SignalPoint>, prices: seq<PriceTick>, r: real,
      initial: Option<real>, t: int)
  {
    forall later: seq<SignalPoint>, laterPrices: seq<PriceTick> ::
      SamePast(signals, later, t) && SamePast(prices, laterPrices, t) ==>
        PastTicks(m, signals, prices, r, initial, t) == PastTicks(m, later, laterPrices, r, initial, t)
  }

  /**
   * Exactly when a simulation does not look ahead: it was given its opening price and some book
   * had been recorded by `t`, or nothing had been simulated by then anyway.
   */
  lemma {:induction false} BlindExactlyWhen(m: Math, signals: seq<SignalPoint>, prices: seq<PriceTick>, r: real,
      initial: Option<real>, t: int)
    requires m.Lawful() && 0.0 < r <= 1.0
    ensures BlindAfter(m, signals, prices, r, initial, t)
      <==> UpTo(signals, t) == [] || (initial.Some? && BookRows(UpTo(prices, t)) != [])
  {
    if UpTo(signals, t) == [] {
    } else if initial.Some? && BookRows(UpTo(prices, t)) != [] {
      forall later: seq<SignalPoint>, laterPrices: seq<PriceTick>
        | SamePast(signals, later, t) && SamePast(prices, laterPrices, t)
        ensures PastTicks(m, signals, prices, r, initial, t) == PastTicks(m, later, laterPrices, r, initial, t)
      {
        NoLookahead(m, signals, later, prices, laterPrices, r, initial, t);
      }
    } else if initial.None? {
      FutureAnchorShows(m, signals, prices, r, t);
      FutureIsLast(prices, t, 0.25, NO_QUOTE);
      FutureIsLast(prices, t, 0.75, NO_QUOTE);
      SeenTwice(m, signals, prices, WithFuture(prices, t, 0.25, NO_QUOTE), WithFuture(prices, t, 0.75, NO_QUOTE), r,
        initial, t);
    } else {
      FutureDepthShows(m, signals, prices, r, initial, t);
      FutureIsLast(prices, t, 0.5, NO_QUOTE);
      FutureIsLast(prices, t, 0.5, DeepQuote(m));
      SeenTwice(m, signals, prices, WithFuture(prices, t, 0.5, NO_QUOTE), WithFuture(prices, t, 0.5, DeepQuote(m)), r,
        initial, t);
    }
  }

  lemma {:induction false} SeenTwice(m: Math, signals: seq<SignalPoint>, prices: seq<PriceTick>, one: seq<PriceTick>,
      other: seq<PriceTick>, r: real, initial: Option<real>, t: int)
    requires SamePast(prices, one, t) && SamePast(prices, other, t)
    requires PastTicks(m, signals, one, r, initial, t) != PastTicks(m, signals, other, r, initial, t)
    ensures !BlindAfter(m, signals, prices, r, initial, t)
  {
    assert SamePast(signals, signals, t);
  }
}
