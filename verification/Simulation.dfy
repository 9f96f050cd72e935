/** Driving the synthetic market from a signal series and recorded books. */
module Simulation {
  import opened Wrappers
  import opened Transcendental
  import opened BinaryMarket
  import opened DepthCalibration
  import opened Timeline
  import opened MarketData

  datatype Signal = Signal(sT: real, pHat: Option<real>)
  {
    function Target(): real {
      if pHat.Some? then pHat.value else (sT + 1.0) / 2.0
    }
  }

  type SignalPoint = Timed<Signal>

  datatype SimTick = SimTick(
    ts: int, simPrice: real, b: real, qYes: real, qNo: real, cost: real, tradeSize: real, signal: real)

  /** Only book rows carry depth. */
  function BookRows(ticks: seq<PriceTick>): (books: seq<PriceTick>)
    ensures forall i :: 0 <= i < |books| ==> books[i] in ticks && books[i].value.source == Book
  {
    if ticks == [] then []
    else
      var last := ticks[|ticks| - 1];
      BookRows(ticks[..|ticks| - 1]) + if last.value.source == Book then [last] else []
  }

  const NO_QUOTE := Quote(None, None, None, None)

  function Calibrate(m: Math, book: Option<PriceTick>): (b: real)
    ensures b > 0.0
    ensures book.None? ==> b == DEFAULT_FALLBACK
  {
    var quote := if book.Some? then book.value.value.quote else NO_QUOTE;
    CalibrationIsPositive(m, quote, Mean, DEFAULT_FALLBACK);
    CalibrateFromDepth(m, quote, Mean, DEFAULT_FALLBACK).value
  }

  function Earliest(books: seq<PriceTick>): Option<PriceTick> {
    if books == [] then None else Some(Sort(books)[0])
  }

  /** The last book at or before the first signal, or failing that the earliest there is. */
  function OpeningBook(books: seq<PriceTick>, first: int): Option<PriceTick> {
    var book := ScanLatest(books, first);
    if book.Some? then book else Earliest(books)
  }

  /** The given price, or the mid of the *last* book, or a half. */
  function AnchorPrice(books: seq<PriceTick>, initialPrice: Option<real>): real {
    if initialPrice.Some? then initialPrice.value
    else
      var final := LatestOf(Sort(books));
      if final.Some? && final.value.value.Mid().Some? then final.value.value.Mid().value else 0.5
  }

  function Rebased(m: Math, p: Position, book: Option<PriceTick>): (q: Position)
    requires p.b > 0.0
    ensures q.b > 0.0
  {
    if book.Some? && Calibrate(m, book) != p.b then Recalibrated(p, Calibrate(m, book)) else p
  }

  datatype Setup = Setup(openingB: real, anchor: real)

  function SetupOf(m: Math, books: seq<PriceTick>, first: int, initialPrice: Option<real>): (s: Setup)
    ensures s.openingB > 0.0
  {
    Setup(Calibrate(m, OpeningBook(books, first)), AnchorPrice(books, initialPrice))
  }

  /** The market after `n` of the ordered signals. */
  function PositionAfter(m: Math, books: seq<PriceTick>, ordered: seq<SignalPoint>, r: real, setup: Setup,
      n: nat): (p: Position)
    requires setup.openingB > 0.0 && n <= |ordered|
    ensures p.b > 0.0
    decreases n
  {
    if n == 0 then Next(m, Position(setup.openingB, 0.0, 0.0), Move(setup.anchor))
    else
      var point := ordered[n - 1];
      var rebased := Rebased(m, PositionAfter(m, books, ordered, r, setup, n - 1), ScanLatest(books, point.ts));
      Next(m, rebased, Step(point.value.Target(), r, None))
  }

  function TickOf(m: Math, point: SignalPoint, rebased: Position, after: Position): SimTick
    requires after.b > 0.0
  {
    SimTick(point.ts, after.Price(m), after.b, after.qYes, after.qNo, after.CostValue(m),
      after.qYes - rebased.qYes, point.value.sT)
  }

  function TickAfter(m: Math, books: seq<PriceTick>, ordered: seq<SignalPoint>, r: real, setup: Setup, n: nat): SimTick
    requires setup.openingB > 0.0 && n < |ordered|
  {
    var rebased := Rebased(m, PositionAfter(m, books, ordered, r, setup, n), ScanLatest(books, ordered[n].ts));
    TickOf(m, ordered[n], rebased, PositionAfter(m, books, ordered, r, setup, n + 1))
  }

  function Ticks(m: Math, books: seq<PriceTick>, ordered: seq<SignalPoint>, r: real,
      setup: Setup): (ticks: seq<SimTick>)
    requires setup.openingB > 0.0
    ensures |ticks| == |ordered|
    ensures forall n :: 0 <= n < |ordered| ==> ticks[n] == TickAfter(m, books, ordered, r, setup, n)
  {
    seq(|ordered|, n requires 0 <= n < |ordered| => TickAfter(m, books, ordered, r, setup, n))
  }

  /** The whole simulation, from unsorted inputs. */
  function Simulated(m: Math, signals: seq<SignalPoint>, prices: seq<PriceTick>, r: real,
      initialPrice: Option<real>): seq<SimTick>
  {
    if signals == [] then []
    else
      var books, ordered := BookRows(prices), Sort(signals);
      Ticks(m, books, ordered, r, SetupOf(m, books, ordered[0].ts, initialPrice))
  }

  // --------------------------------------------------------------------------- the loop

  method OpenMarket(m: Math, setup: Setup) returns (market: LmsrMarket)
    requires m.Lawful() && setup.openingB > 0.0
    ensures fresh(market) && market.Valid() && market.m == m && market.realizedCost == 0.0
    ensures market.Snapshot() == Next(m, Position(setup.openingB, 0.0, 0.0), Move(setup.anchor))
  {
    market := new LmsrMarket(m, setup.openingB, 0.0, 0.0);
    var _ := market.MoveToPrice(setup.anchor);
    market.realizedCost := 0.0;
  }

  /** One signal: follow the book, step, record. */
  method AdvanceMarket(market: LmsrMarket, book: Option<PriceTick>, point: SignalPoint, r: real)
    returns (tick: Result<SimTick, string>)
    requires market.Valid()
    modifies market
    ensures market.Valid()
    ensures tick.Ok? <==> 0.0 < r <= 1.0
    ensures tick.Ok? ==>
      var rebased := Rebased(market.m, old(market.Snapshot()), book);
      && market.Snapshot() == Next(market.m, rebased, Step(point.value.Target(), r, None))
      && tick.value == TickOf(market.m, point, rebased, market.Snapshot())
  {
    if book.Some? {
      var newB := Calibrate(market.m, book);
      if newB != market.b {
        var _ := market.Recalibrate(newB);
      }
    }
    var target := point.value.Target();
    var shares := market.StepFromSignal(target, r, None);
    if shares.Err? {
      return Err(shares.error);
    }
    var cost := market.CostValue();
    tick := Ok(SimTick(point.ts, market.Price(), market.b, market.qYes, market.qNo, cost, shares.value,
      point.value.sT));
  }

  /** `positions` is the trajectory of the simulation at step `n`. */
  ghost predicate Follows(m: Math, books: seq<PriceTick>, ordered: seq<SignalPoint>, r: real, positions: seq<Position>,
      n: nat)
  {
    && n + 1 < |positions| && n < |ordered| && positions[n].b > 0.0
    && positions[n + 1] ==
         Next(m, Rebased(m, positions[n], ScanLatest(books, ordered[n].ts)), Step(ordered[n].value.Target(), r, None))
  }

  ghost predicate Recorded(m: Math, books: seq<PriceTick>, ordered: seq<SignalPoint>, positions: seq<Position>, n: nat,
      tick: SimTick)
  {
    && n + 1 < |positions| && n < |ordered| && positions[n].b > 0.0 && positions[n + 1].b > 0.0
    && tick == TickOf(m, ordered[n], Rebased(m, positions[n], ScanLatest(books, ordered[n].ts)), positions[n + 1])
  }

  method AdvanceAlong(market: LmsrMarket, book: Option<PriceTick>, point: SignalPoint, r: real,
      ghost books: seq<PriceTick>, ghost ordered: seq<SignalPoint>, ghost positions: seq<Position>, ghost n: nat)
    returns (tick: Result<SimTick, string>)
    requires market.Valid()
    requires Follows(market.m, books, ordered, r, positions, n)
    requires market.Snapshot() == positions[n]
    requires point == ordered[n] && book == ScanLatest(books, point.ts)
    modifies market
    ensures market.Valid()
    ensures tick.Ok? <==> 0.0 < r <= 1.0
    ensures tick.Ok? ==> market.Snapshot() == positions[n + 1]
    ensures tick.Ok? ==> Recorded(market.m, books, ordered, positions, n, tick.value)
  {
    tick := AdvanceMarket(market, book, point, r);
  }

  method DriveSignals(market: LmsrMarket, sortedBooks: seq<PriceTick>, ordered: seq<SignalPoint>, r: real,
      ghost books: seq<PriceTick>, ghost positions: seq<Position>)
    returns (ticks: Result<seq<SimTick>, string>)
    requires market.Valid() && ordered != []
    requires sortedBooks == Sort(books) && |positions| == |ordered| + 1
    requires market.Snapshot() == positions[0]
    requires forall n :: 0 <= n < |ordered| ==> Follows(market.m, books, ordered, r, positions, n)
    modifies market
    ensures ticks.Ok? <==> 0.0 < r <= 1.0
    ensures ticks.Ok? ==> |ticks.value| == |ordered| && forall n :: 0 <= n < |ordered| ==>
      Recorded(market.m, books, ordered, positions, n, ticks.value[n])
  {
    var times := Stamps(sortedBooks);
    var recorded: seq<SimTick> := [];
    for n := 0 to |ordered|
      invariant market.Valid() && market.Snapshot() == positions[n]
      invariant n > 0 ==> 0.0 < r <= 1.0
      invariant |recorded| == n
      invariant forall k :: 0 <= k < n ==> Recorded(market.m, books, ordered, positions, k, recorded[k])
    {
      var book := LatestAt(sortedBooks, times, ordered[n].ts, books);
      var tick := AdvanceAlong(market, book, ordered[n], r, books, ordered, positions, n);
      if tick.Err? {
        return Err(tick.error);
      }
      recorded := recorded + [tick.value];
    }
    ticks := Ok(recorded);
  }

  /** The opening liquidity and the anchor, from the sorted books. */
  method Prepare(m: Math, books: seq<PriceTick>, first: int, initialPrice: Option<real>, ghost rows: seq<PriceTick>)
    returns (setup: Setup)
    requires books == Sort(rows)
    ensures setup == SetupOf(m, rows, first, initialPrice)
  {
    SortSorts(rows);
    var book := LatestAt(books, Stamps(books), first, rows);
    var opening := if book.Some? then book else if books == [] then None else Some(books[0]);
    var final := if books == [] then None else Some(books[|books| - 1]);
    var anchor := if initialPrice.Some? then initialPrice.value
                  else if final.Some? && final.value.value.Mid().Some? then final.value.value.Mid().value
                  else 0.5;
    setup := Setup(Calibrate(m, opening), anchor);
  }

  method SimulateOrdered(m: Math, ordered: seq<SignalPoint>, rows: seq<PriceTick>, r: real, setup: Setup)
    returns (ticks: Result<seq<SimTick>, string>)
    requires m.Lawful() && setup.openingB > 0.0 && ordered != []
    ensures ticks.Ok? <==> 0.0 < r <= 1.0
    ensures ticks.Ok? ==> ticks.value == Ticks(m, rows, ordered, r, setup)
  {
    var market := OpenMarket(m, setup);
    ghost var positions := Trajectory(m, rows, ordered, r, setup);
    ticks := DriveSignals(market, Sort(rows), ordered, r, rows, positions);
    if ticks.Ok? {
      RecordedTicks(m, rows, ordered, r, setup, positions, ticks.value);
    }
  }

  method SimulateLmsr(m: Math, signals: seq<SignalPoint>, prices: seq<PriceTick>, r: real, initialPrice: Option<real>)
    returns (ticks: Result<seq<SimTick>, string>)
    requires m.Lawful()
    ensures ticks.Ok? <==> signals == [] || 0.0 < r <= 1.0
    ensures ticks.Ok? ==> ticks.value == Simulated(m, signals, prices, r, initialPrice)
  {
    if signals == [] {
      return Ok([]);
    }
    var rows := BookRows(prices);
    var ordered := Sort(signals);
    var setup := Prepare(m, Sort(rows), ordered[0].ts, initialPrice, rows);
    ticks := SimulateOrdered(m, ordered, rows, r, setup);
  }

  lemma {:induction false} RecordedTicks(m: Math, books: seq<PriceTick>, ordered: seq<SignalPoint>, r: real,
      setup: Setup,
      positions: seq<Position>, ticks: seq<SimTick>)
    requires setup.openingB > 0.0 && positions == Trajectory(m, books, ordered, r, setup)
    requires |ticks| == |ordered|
    requires forall n :: 0 <= n < |ordered| ==> Recorded(m, books, ordered, positions, n, ticks[n])
    ensures ticks == Ticks(m, books, ordered, r, setup)
  {
    forall n | 0 <= n < |ordered|
      ensures ticks[n] == TickAfter(m, books, ordered, r, setup, n)
    {
      assert Recorded(m, books, ordered, positions, n, ticks[n]);
    }
  }

  ghost function Trajectory(m: Math, books: seq<PriceTick>, ordered: seq<SignalPoint>, r: real,
      setup: Setup): (positions: seq<Position>)
    requires setup.openingB > 0.0
    ensures |positions| == |ordered| + 1
    ensures forall n :: 0 <= n <= |ordered| ==> positions[n] == PositionAfter(m, books, ordered, r, setup, n)
    ensures forall n :: 0 <= n < |ordered| ==> Follows(m, books, ordered, r, positions, n)
  {
    seq(|ordered| + 1, n requires 0 <= n <= |ordered| => PositionAfter(m, books, ordered, r, setup, n))
  }
}
