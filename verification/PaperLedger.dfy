/** The paper portfolio: an append-only ledger, a position upserted by deltas, and their settlement. */
module PaperLedger {
  import opened Wrappers
  import opened Transcendental

  const MIN_EDGE: real := 0.05
  const TINY: real := 0.000000001

  datatype Key = Key(market: string, strategy: string)

  datatype Side = Yes | No
  datatype Deed = Buy | Sell | Settle

  datatype Fill = Fill(key: Key, side: Side, deed: Deed, quantity: real, price: real, cashFlow: real)

  datatype Position = Position(qtyYes: real, qtyNo: real, cash: real, realizedPnl: real, settled: bool)
  {
    function Net(): real {
      qtyYes - qtyNo
    }
  }

  const FLAT := Position(0.0, 0.0, 0.0, 0.0, false)

  datatype Books = Books(fills: seq<Fill>, positions: map<Key, Position>)
  {
    /** A missing row holds nothing. */
    function At(key: Key): Position {
      if key in positions then positions[key] else FLAT
    }

    function Recorded(fill: Fill): Books {
      this.(fills := fills + [fill])
    }

    /** Deltas accumulate, and once settled always settled. */
    function Applied(key: Key, dYes: real, dNo: real, dCash: real, dRealized: real, settled: bool): Books {
      var p := At(key);
      this.(positions := positions[key := Position(p.qtyYes + dYes, p.qtyNo + dNo, p.cash + dCash,
        p.realizedPnl + dRealized, p.settled || settled)])
    }
  }

  // --------------------------------------------------------------------------- the decisions

  function TargetPosition(cap: real, pHat: real, marketPrice: real): real {
    var edge := pHat - marketPrice;
    if Abs(edge) < MIN_EDGE then 0.0 else Max(-cap, Min(cap, Times(edge, cap)))
  }

  /** Long when the signal is above the market, short when below, flat within the minimum edge, never past the cap. */
  lemma {:induction false} TargetFollowsTheEdge(cap: real, pHat: real, price: real)
    requires cap > 0.0
    ensures var target, edge := TargetPosition(cap, pHat, price), pHat - price;
      && -cap <= target <= cap
      && (target > 0.0 <==> edge >= MIN_EDGE) && (target < 0.0 <==> edge <= -MIN_EDGE)
      && (Abs(edge) >= 1.0 ==> Abs(target) == cap)
      && (MIN_EDGE <= Abs(edge) <= 1.0 ==> target == Times(edge, cap))
  {
    EdgeScales(pHat - price, cap);
  }

  lemma EdgeScales(edge: real, cap: real)
    requires cap > 0.0
    ensures edge > 0.0 ==> Times(edge, cap) > 0.0
    ensures edge < 0.0 ==> Times(edge, cap) < 0.0
    ensures edge <= 1.0 <==> Times(edge, cap) <= cap
    ensures edge >= -1.0 <==> Times(edge, cap) >= -cap
    ensures edge >= 1.0 ==> Times(edge, cap) >= cap
    ensures edge <= -1.0 ==> Times(edge, cap) <= -cap
  {
    assert Times(0.0, cap) == 0.0 && Times(1.0, cap) == cap && Times(-1.0, cap) == -cap;
    TimesOrder(edge, 0.0, cap);
    TimesOrder(edge, 1.0, cap);
    TimesOrder(edge, -1.0, cap);
  }

  lemma TimesOrder(x: real, y: real, k: real)
    requires k > 0.0
    ensures x < y ==> Times(x, k) < Times(y, k)
    ensures x > y ==> Times(x, k) > Times(y, k)
  {
    if x < y {
      MulMonotone(x, y, k);
    } else {
      MulMonotone(y, x, k);
    }
  }

  /** No target without a forecast and a mark. */
  function TargetOf(cap: real, pHat: Option<real>, mark: Option<real>): Option<real> {
    if pHat.None? || mark.None? then None else Some(TargetPosition(cap, pHat.value, mark.value))
  }

  /** What a rebalance towards the target trades; slivers are left alone. */
  function Trade(books: Books, key: Key, target: Option<real>): real {
    if target.None? then 0.0
    else
      var delta := target.value - books.At(key).Net();
      if Abs(delta) < TINY then 0.0 else delta
  }

  function FillOf(key: Key, delta: real, mark: real): Fill {
    Fill(key, if delta > 0.0 then Yes else No, if delta > 0.0 then Buy else Sell, Abs(delta), mark, -Times(delta, mark))
  }

  function Rebalanced(books: Books, key: Key, target: Option<real>, mark: real): Books {
    var delta := Trade(books, key, target);
    if delta == 0.0 then books
    else
      var fill := FillOf(key, delta, mark);
      books.Recorded(fill).Applied(key, delta, 0.0, fill.cashFlow, 0.0, false)
  }

  predicate Settleable(p: Position) {
    !p.settled && !(p.qtyYes == 0.0 && p.qtyNo == 0.0)
  }

  function Payout(p: Position, outcome: real): real {
    Times(p.qtyYes, outcome) + Times(p.qtyNo, 1.0 - outcome)
  }

  function SettleFills(key: Key, p: Position, outcome: real): seq<Fill> {
    (if p.qtyYes != 0.0
     then [Fill(key, Yes, Settle, Abs(p.qtyYes), outcome, Times(p.qtyYes, outcome))] else [])
    + (if p.qtyNo != 0.0
       then [Fill(key, No, Settle, Abs(p.qtyNo), 1.0 - outcome, Times(p.qtyNo, 1.0 - outcome))] else [])
  }

  function Settled(books: Books, key: Key, outcome: real): Books {
    var p := books.At(key);
    if !Settleable(p) then books
    else
      books.(fills := books.fills + SettleFills(key, p, outcome))
        .Applied(key, -p.qtyYes, -p.qtyNo, Payout(p, outcome), Payout(p, outcome), true)
  }

  // --------------------------------------------------------------------------------- the events

  /** A signal as the target it implies, or a market's resolution. */
  datatype Event = Signal(key: Key, target: Option<real>, mark: real) | Resolution(key: Key, outcome: real)

  /** What a forecast and a quote amount to. */
  function Decision(cap: real, key: Key, pHat: Option<real>, mark: Option<real>): Event {
    Signal(key, TargetOf(cap, pHat, mark), mark.GetOr(0.0))
  }

  function Next(books: Books, event: Event): Books {
    match event
    case Signal(key, target, mark) => Rebalanced(books, key, target, mark)
    case Resolution(key, outcome) => Settled(books, key, outcome)
  }

  predicate CappedEvent(cap: real, event: Event) {
    event.Signal? && event.target.Some? ==> -cap <= event.target.value <= cap
  }

  predicate Capped(cap: real, events: seq<Event>) {
    forall i :: 0 <= i < |events| ==> CappedEvent(cap, events[i])
  }

  /** Every decision of the strategy respects the cap. */
  lemma {:induction false} DecisionsAreCapped(cap: real, key: Key, pHat: Option<real>, mark: Option<real>)
    requires cap >= 0.0
    ensures CappedEvent(cap, Decision(cap, key, pHat, mark))
  {
    if pHat.Some? && mark.Some? {
      var edge := pHat.value - mark.value;
      var scaled := Times(edge, cap);
      assert -cap <= Max(-cap, Min(cap, scaled)) <= cap;
    }
  }

  // --------------------------------------------------------------------------- the repository

  class Ledger {
    var fills: seq<Fill>
    var positions: map<Key, Position>

    function Snapshot(): Books
      reads this
    {
      Books(fills, positions)
    }

    constructor ()
      ensures Snapshot() == Books([], map[])
    {
      fills := [];
      positions := map[];
    }

    method RecordFill(fill: Fill)
      modifies this`fills
      ensures Snapshot() == old(Snapshot()).Recorded(fill)
    {
      fills := fills + [fill];
    }

    /** The additive upsert. */
    method ApplyToPosition(key: Key, dYes: real, dNo: real, dCash: real, dRealized: real, settled: bool)
      modifies this`positions
      ensures Snapshot() == old(Snapshot()).Applied(key, dYes, dNo, dCash, dRealized, settled)
    {
      if key !in positions {
        positions := positions[key := Position(0.0 + dYes, 0.0 + dNo, 0.0 + dCash, 0.0 + dRealized, settled)];
      } else {
        var p := positions[key];
        positions := positions[key := Position(p.qtyYes + dYes, p.qtyNo + dNo, p.cash + dCash,
          p.realizedPnl + dRealized, p.settled || settled)];
      }
    }

    method Rebalance(cap: real, key: Key, pHat: Option<real>, mark: Option<real>) returns (delta: real)
      modifies this
      ensures delta == Trade(old(Snapshot()), key, TargetOf(cap, pHat, mark))
      ensures Snapshot() == Next(old(Snapshot()), Decision(cap, key, pHat, mark))
    {
      if pHat.None? {
        return 0.0;
      }
      if mark.None? {
        return 0.0;
      }
      var target := TargetPosition(cap, pHat.value, mark.value);
      var held := if key !in positions then 0.0 else positions[key].qtyYes - positions[key].qtyNo;
      delta := target - held;
      if Abs(delta) < TINY {
        return 0.0;
      }
      var side := if delta > 0.0 then Yes else No;
      var deed := if delta > 0.0 then Buy else Sell;
      var cashFlow := -Times(delta, mark.value);
      RecordFill(Fill(key, side, deed, Abs(delta), mark.value, cashFlow));
      ApplyToPosition(key, delta, 0.0, cashFlow, 0.0, false);
    }

    /** Close an open position at the realized outcome, once. */
    method SettlePosition(key: Key, outcome: real) returns (payout: Option<real>)
      modifies this
      ensures Snapshot() == Next(old(Snapshot()), Resolution(key, outcome))
      ensures payout ==
        if Settleable(old(Snapshot()).At(key)) then Some(Payout(old(Snapshot()).At(key), outcome)) else None
    {
      if key !in positions || positions[key].settled {
        return None;
      }
      var p := positions[key];
      if p.qtyYes == 0.0 && p.qtyNo == 0.0 {
        return None;
      }
      var paid := Times(p.qtyYes, outcome) + Times(p.qtyNo, 1.0 - outcome);
      if p.qtyYes != 0.0 {
        RecordFill(Fill(key, Yes, Settle, Abs(p.qtyYes), outcome, Times(p.qtyYes, outcome)));
      }
      if p.qtyNo != 0.0 {
        RecordFill(Fill(key, No, Settle, Abs(p.qtyNo), 1.0 - outcome, Times(p.qtyNo, 1.0 - outcome)));
      }
      ghost var fillsSoFar := fills;
      assert fillsSoFar == old(fills) + SettleFills(key, p, outcome);
      ApplyToPosition(key, -p.qtyYes, -p.qtyNo, paid, paid, true);
      payout := Some(paid);
    }
  }

  // --------------------------------------------------------------------------------- runs

  const EMPTY := Books([], map[])

  function Run(events: seq<Event>): Books {
    if events == [] then EMPTY else Next(Run(events[..|events| - 1]), events[|events| - 1])
  }

  lemma {:induction false} NextIsLocal(books: Books, event: Event, key: Key)
    requires key != event.key
    ensures Next(books, event).At(key) == books.At(key)
  {
  }

  /** What a strategy holds of one market, apart from any cash: a signed YES count, and whether it was settled. */
  datatype Holding = Holding(net: real, settled: bool)

  /** A signal moves the holding onto its target, a resolution empties it once. */
  function HoldingNext(h: Holding, event: Event, key: Key): Holding {
    if event.key != key then h
    else
      match event
      case Signal(_, target, _) =>
        if target.None? || Abs(target.value - h.net) < TINY then h else h.(net := target.value)
      case Resolution(_, _) => if h.settled || h.net == 0.0 then h else Holding(0.0, true)
  }

  function HoldingAfter(events: seq<Event>, key: Key): Holding {
    if events == [] then Holding(0.0, false)
    else HoldingNext(HoldingAfter(events[..|events| - 1], key), events[|events| - 1], key)
  }

  /** The row holds it in YES shares, none in NO. */
  predicate Holds(p: Position, h: Holding) {
    p.qtyNo == 0.0 && p.Net() == h.net && p.settled == h.settled
  }

  lemma AppliedAt(books: Books, at: Key, dYes: real, dNo: real, dCash: real, dRealized: real, settled: bool, key: Key)
    ensures books.Applied(at, dYes, dNo, dCash, dRealized, settled).At(key) ==
      if key != at then books.At(key)
      else
        var p := books.At(at);
        Position(p.qtyYes + dYes, p.qtyNo + dNo, p.cash + dCash, p.realizedPnl + dRealized, p.settled || settled)
  {
  }

  /** What a trade of `delta` for `cashFlow` does to one row. */
  lemma TradedAt(books: Books, at: Key, delta: real, fill: Fill, key: Key)
    ensures var next := books.Recorded(fill).Applied(at, delta, 0.0, fill.cashFlow, 0.0, false);
      && next.fills == books.fills + [fill]
      && next.At(key).Net() == books.At(key).Net() + (if key == at then delta else 0.0)
      && next.At(key).qtyNo == books.At(key).qtyNo
      && next.At(key).cash == books.At(key).cash + (if key == at then fill.cashFlow else 0.0)
      && next.At(key).settled == books.At(key).settled
  {
  }

  /** What a settlement does to one row. */
  lemma {:induction false} SettledAt(books: Books, at: Key, outcome: real, key: Key)
    ensures var p := books.At(key);
      Settled(books, at, outcome).At(key) ==
        if key != at || !Settleable(p) then p
        else Position(p.qtyYes + -p.qtyYes, p.qtyNo + -p.qtyNo, p.cash + Payout(p, outcome),
          p.realizedPnl + Payout(p, outcome), true)
  {
    var p := books.At(at);
    if Settleable(p) {
      var paid := books.(fills := books.fills + SettleFills(at, p, outcome));
      AppliedAt(paid, at, -p.qtyYes, -p.qtyNo, Payout(p, outcome), Payout(p, outcome), true, key);
    }
  }

  lemma {:induction false} SignalHolds(books: Books, at: Key, target: Option<real>, mark: real, h: Holding)
    requires Holds(books.At(at), h)
    ensures Holds(Rebalanced(books, at, target, mark).At(at), HoldingNext(h, Signal(at, target, mark), at))
  {
  }

  lemma {:induction false} ResolutionHolds(books: Books, at: Key, outcome: real, h: Holding)
    requires Holds(books.At(at), h)
    ensures Holds(Settled(books, at, outcome).At(at), HoldingNext(h, Resolution(at, outcome), at))
  {
    SettledAt(books, at, outcome, at);
  }

  lemma {:induction false} NextHolds(books: Books, event: Event, key: Key, h: Holding)
    requires Holds(books.At(key), h)
    ensures Holds(Next(books, event).At(key), HoldingNext(h, event, key))
  {
    if key != event.key {
      NextIsLocal(books, event, key);
    } else {
      match event {
        case Signal(at, target, mark) => SignalHolds(books, at, target, mark, h);
        case Resolution(at, outcome) => ResolutionHolds(books, at, outcome, h);
      }
    }
  }

  /** On every run the upserted row is the holding, in YES shares only. */
  lemma {:induction false} RowsHoldTheTarget(events: seq<Event>, key: Key)
    ensures Holds(Run(events).At(key), HoldingAfter(events, key))
  {
    if events != [] {
      var front := events[..|events| - 1];
      RowsHoldTheTarget(front, key);
      NextHolds(Run(front), events[|events| - 1], key, HoldingAfter(front, key));
    }
  }

  lemma {:induction false} HoldingWithinCap(cap: real, events: seq<Event>, key: Key)
    requires cap >= 0.0 && Capped(cap, events)
    ensures -cap <= HoldingAfter(events, key).net <= cap
  {
    if events != [] {
      HoldingWithinCap(cap, events[..|events| - 1], key);
      assert CappedEvent(cap, events[|events| - 1]);
    }
  }

  /** On every run no position passes the cap or holds a NO share, settled or not. */
  lemma {:induction false} PositionsStayBounded(cap: real, events: seq<Event>, key: Key)
    requires cap >= 0.0 && Capped(cap, events)
    ensures -cap <= Run(events).At(key).Net() <= cap
    ensures Run(events).At(key).qtyNo == 0.0
  {
    RowsHoldTheTarget(events, key);
    HoldingWithinCap(cap, events, key);
  }

  // ------------------------------------------------------------- the ledger explains the cash

  function CashFlows(fills: seq<Fill>, key: Key): real {
    if fills == [] then 0.0
    else
      var last := fills[|fills| - 1];
      CashFlows(fills[..|fills| - 1], key) + if last.key == key then last.cashFlow else 0.0
  }

  lemma CashAppend(fills: seq<Fill>, fill: Fill, key: Key)
    ensures CashFlows(fills + [fill], key) == CashFlows(fills, key) + if fill.key == key then fill.cashFlow else 0.0
  {
    assert (fills + [fill])[..|fills|] == fills;
  }

  lemma {:induction false} SettlementFlows(fills: seq<Fill>, at: Key, p: Position, outcome: real, key: Key)
    ensures CashFlows(fills + SettleFills(at, p, outcome), key)
      == CashFlows(fills, key) + if at == key then Payout(p, outcome) else 0.0
  {
    var yes := Fill(at, Yes, Settle, Abs(p.qtyYes), outcome, Times(p.qtyYes, outcome));
    var no := Fill(at, No, Settle, Abs(p.qtyNo), 1.0 - outcome, Times(p.qtyNo, 1.0 - outcome));
    var first := if p.qtyYes != 0.0 then fills + [yes] else fills;
    CashAppend(fills, yes, key);
    CashAppend(first, no, key);
    assert fills + SettleFills(at, p, outcome) == if p.qtyNo != 0.0 then first + [no] else first;
  }

  /** Every cent of cash is a fill in the append-only ledger, settlements included. */
  lemma {:induction false} CashIsTheLedger(events: seq<Event>, key: Key)
    ensures Run(events).At(key).cash == CashFlows(Run(events).fills, key)
  {
    if events != [] {
      var front, event := events[..|events| - 1], events[|events| - 1];
      CashIsTheLedger(front, key);
      NextCash(Run(front), event, key);
    }
  }

  lemma {:induction false} TradeCash(books: Books, at: Key, delta: real, fill: Fill, key: Key)
    requires books.At(key).cash == CashFlows(books.fills, key) && fill.key == at
    ensures var next := books.Recorded(fill).Applied(at, delta, 0.0, fill.cashFlow, 0.0, false);
      next.At(key).cash == CashFlows(next.fills, key)
  {
    TradedAt(books, at, delta, fill, key);
    CashAppend(books.fills, fill, key);
  }

  lemma {:induction false} SignalCash(books: Books, at: Key, target: Option<real>, mark: real, key: Key)
    requires books.At(key).cash == CashFlows(books.fills, key)
    ensures var next := Rebalanced(books, at, target, mark);
      next.At(key).cash == CashFlows(next.fills, key)
  {
    var delta := Trade(books, at, target);
    if delta != 0.0 {
      TradeCash(books, at, delta, FillOf(at, delta, mark), key);
    }
  }

  lemma {:induction false} SettlementCash(books: Books, at: Key, outcome: real, key: Key)
    requires books.At(key).cash == CashFlows(books.fills, key)
    ensures var next := Settled(books, at, outcome);
      next.At(key).cash == CashFlows(next.fills, key)
  {
    SettledAt(books, at, outcome, key);
    SettlementFlows(books.fills, at, books.At(at), outcome, key);
  }

  lemma {:induction false} NextCash(books: Books, event: Event, key: Key)
    requires books.At(key).cash == CashFlows(books.fills, key)
    ensures Next(books, event).At(key).cash == CashFlows(Next(books, event).fills, key)
  {
    match event {
      case Signal(at, target, mark) => SignalCash(books, at, target, mark, key);
      case Resolution(at, outcome) => SettlementCash(books, at, outcome, key);
    }
  }

  /** What the ledger alone says is held: buys add, sells subtract, a settlement closes. */
  function Replayed(fills: seq<Fill>, key: Key): real {
    if fills == [] then 0.0
    else AfterFill(Replayed(fills[..|fills| - 1], key), fills[|fills| - 1], key)
  }

  function AfterFill(held: real, fill: Fill, key: Key): real {
    if fill.key != key then held
    else
      match fill.deed
      case Buy => held + fill.quantity
      case Sell => held - fill.quantity
      case Settle => 0.0
  }

  lemma ReplayAppend(fills: seq<Fill>, fill: Fill, key: Key)
    ensures Replayed(fills + [fill], key) == AfterFill(Replayed(fills, key), fill, key)
  {
    assert (fills + [fill])[..|fills|] == fills;
  }

  lemma {:induction false} TradeReplays(books: Books, at: Key, delta: real, fill: Fill, key: Key)
    requires Replayed(books.fills, key) == books.At(key).Net()
    requires fill.key == at && fill.deed != Settle
    requires delta == if fill.deed == Buy then fill.quantity else -fill.quantity
    ensures var next := books.Recorded(fill).Applied(at, delta, 0.0, fill.cashFlow, 0.0, false);
      Replayed(next.fills, key) == next.At(key).Net()
  {
    TradedAt(books, at, delta, fill, key);
    ReplayAppend(books.fills, fill, key);
  }

  lemma {:induction false} SignalReplays(books: Books, at: Key, target: Option<real>, mark: real, key: Key)
    requires Replayed(books.fills, key) == books.At(key).Net()
    ensures Replayed(Rebalanced(books, at, target, mark).fills, key) ==
      Rebalanced(books, at, target, mark).At(key).Net()
  {
    var delta := Trade(books, at, target);
    if delta != 0.0 {
      TradeReplays(books, at, delta, FillOf(at, delta, mark), key);
    }
  }

  lemma {:induction false} SettlementReplays(books: Books, at: Key, outcome: real, key: Key)
    requires Replayed(books.fills, key) == books.At(key).Net() && books.At(at).qtyNo == 0.0
    ensures Replayed(Settled(books, at, outcome).fills, key) == Settled(books, at, outcome).At(key).Net()
  {
    var p := books.At(at);
    SettledAt(books, at, outcome, key);
    if Settleable(p) {
      var fill := SettleFills(at, p, outcome)[0];
      assert SettleFills(at, p, outcome) == [fill];
      ReplayAppend(books.fills, fill, key);
    }
  }

  lemma {:induction false} NextReplays(books: Books, event: Event, key: Key)
    requires Replayed(books.fills, key) == books.At(key).Net() && books.At(event.key).qtyNo == 0.0
    ensures Replayed(Next(books, event).fills, key) == Next(books, event).At(key).Net()
  {
    if event.Signal? {
      SignalReplays(books, event.key, event.target, event.mark, key);
    } else {
      SettlementReplays(books, event.key, event.outcome, key);
    }
  }

  /** The ledger is the source of truth: replaying it gives the materialized position on every run. */
  lemma {:induction false} LedgerReplaysToThePosition(events: seq<Event>, key: Key)
    ensures Replayed(Run(events).fills, key) == Run(events).At(key).Net()
  {
    if events != [] {
      var front, event := events[..|events| - 1], events[|events| - 1];
      LedgerReplaysToThePosition(front, key);
      RowsHoldTheTarget(front, event.key);
      NextReplays(Run(front), event, key);
    }
  }

  predicate Positive(fills: seq<Fill>) {
    forall i :: 0 <= i < |fills| ==> fills[i].quantity > 0.0
  }

  /** The ledger table's check on quantities never trips. */
  lemma {:induction false} FillsArePositive(events: seq<Event>)
    ensures Positive(Run(events).fills)
  {
    if events != [] {
      FillsArePositive(events[..|events| - 1]);
    }
  }

  // ---------------------------------------------------------------------------- mark to market

  /** The price an event marks a position at: the quote it trades on, or the outcome that closes it. */
  function MarkOf(books: Books, event: Event, key: Key): Option<real> {
    if event.key != key then None
    else
      match event
      case Signal(_, target, mark) => if target.Some? then Some(mark) else None
      case Resolution(_, outcome) => if Settleable(books.At(key)) then Some(outcome) else None
  }

  function LastMark(events: seq<Event>, key: Key): real {
    if events == [] then 0.0
    else
      var front := events[..|events| - 1];
      MarkOf(Run(front), events[|events| - 1], key).GetOr(LastMark(front, key))
  }

  /** What is earned by holding a position while the mark moves. */
  function Earned(p: Position, from: real, to: real): real {
    Times(p.Net(), to - from)
  }

  /** The sum over marks of what was held times how far the mark moved. */
  function Gains(events: seq<Event>, key: Key): real {
    if events == [] then 0.0
    else
      var front := events[..|events| - 1];
      Gains(front, key)
        + Earned(Run(front).At(key), LastMark(front, key), LastMark(events, key))
  }

  function Wealth(p: Position, mark: real): real {
    p.cash + Times(p.Net(), mark)
  }

  /** Trading at a mark, or settling at it, is worth nothing at that mark. */
  lemma {:induction false} TradesAreFair(books: Books, event: Event, key: Key, mark: real)
    requires books.At(key).qtyNo == 0.0
    requires MarkOf(books, event, key).GetOr(mark) == mark
    ensures Wealth(Next(books, event).At(key), mark) == Wealth(books.At(key), mark)
  {
    if event.key == key {
      var p := books.At(key);
      match event {
        case Signal(_, target, _) =>
          var delta := Trade(books, key, target);
          if delta != 0.0 {
            NetMoves(p.qtyYes - p.qtyNo, delta, mark);
          }
        case Resolution(_, outcome) =>
          if Settleable(p) {
            assert Times(0.0, 1.0 - outcome) == 0.0 && Times(0.0, mark) == 0.0;
          }
      }
    } else {
      NextIsLocal(books, event, key);
    }
  }

  lemma NetMoves(net: real, delta: real, mark: real)
    ensures Times(net + delta, mark) == Times(net, mark) + Times(delta, mark)
  {
  }

  /**
   * Profit over a whole run: cash plus holdings at the last mark is exactly what was held through
   * each mark's move. A settlement is the last mark, so then cash alone is the profit.
   */
  lemma {:induction false} WealthIsGains(events: seq<Event>, key: Key)
    ensures Wealth(Run(events).At(key), LastMark(events, key)) == Gains(events, key)
  {
    if events == [] {
      assert Times(0.0, 0.0) == 0.0;
    } else {
      var front := events[..|events| - 1];
      WealthIsGains(front, key);
      RowsHoldTheTarget(front, key);
      WealthSnoc(events, key, front, Run(front), LastMark(front, key), LastMark(events, key), Gains(front, key));
    }
  }

  lemma {:induction false} WealthSnoc(events: seq<Event>, key: Key, front: seq<Event>, books: Books, from: real,
      to: real, gains: real)
    requires events != [] && front == events[..|events| - 1] && books == Run(front)
    requires from == LastMark(front, key) && to == LastMark(events, key) && gains == Gains(front, key)
    requires books.At(key).qtyNo == 0.0 && Wealth(books.At(key), from) == gains
    ensures Wealth(Run(events).At(key), to) == Gains(events, key)
  {
    GainsSnoc(events, key, front, from, to);
    WealthStep(books, events[|events| - 1], key, from, to, gains);
  }

  lemma GainsSnoc(events: seq<Event>, key: Key, front: seq<Event>, from: real, to: real)
    requires events != [] && front == events[..|events| - 1]
    requires from == LastMark(front, key) && to == LastMark(events, key)
    ensures Run(events) == Next(Run(front), events[|events| - 1])
    ensures to == MarkOf(Run(front), events[|events| - 1], key).GetOr(from)
    ensures Gains(events, key) == Gains(front, key) + Earned(Run(front).At(key), from, to)
  {
  }

  lemma {:induction false} WealthStep(books: Books, event: Event, key: Key, from: real, to: real, gains: real)
    requires books.At(key).qtyNo == 0.0 && Wealth(books.At(key), from) == gains
    requires to == MarkOf(books, event, key).GetOr(from)
    ensures Wealth(Next(books, event).At(key), to) == gains + Earned(books.At(key), from, to)
  {
    TradesAreFair(books, event, key, to);
    WealthMoves(books.At(key), from, to);
  }

  lemma WealthMoves(p: Position, from: real, to: real)
    ensures Wealth(p, to) == Wealth(p, from) + Earned(p, from, to)
  {
  }

  lemma FlatWealth(p: Position, mark: real, gains: real)
    requires p.Net() == 0.0 && Wealth(p, mark) == gains
    ensures p.cash == gains
  {
    assert Times(0.0, mark) == 0.0;
  }

  lemma {:induction false} SettledIsFlat(books: Books, key: Key, outcome: real)
    requires Settleable(books.At(key))
    ensures Settled(books, key, outcome).At(key).settled && Settled(books, key, outcome).At(key).Net() == 0.0
  {
  }

  /** Settlement closes the book: flat, marked settled, and all profit in cash. */
  lemma {:induction false} SettlementRealizesEverything(events: seq<Event>, key: Key, outcome: real)
    requires Settleable(Run(events).At(key))
    ensures var all := events + [Resolution(key, outcome)];
      var p := Run(all).At(key);
      p.settled && p.Net() == 0.0 && p.cash == Gains(all, key)
  {
    var all := events + [Resolution(key, outcome)];
    assert all[..|events|] == events;
    WealthIsGains(all, key);
    SettledIsFlat(Run(events), key, outcome);
    FlatWealth(Run(all).At(key), LastMark(all, key), Gains(all, key));
  }

  /**
   * A settlement fill takes money out exactly when a short is held and the outcome pays; the schema
   * calls it positive.
   */
  lemma {:induction false} SettlingAShortCosts(key: Key, p: Position, outcome: real)
    requires p.qtyNo == 0.0 && p.qtyYes != 0.0 && (outcome == 0.0 || outcome == 1.0)
    ensures |SettleFills(key, p, outcome)| == 1
    ensures SettleFills(key, p, outcome)[0].cashFlow < 0.0 <==> p.qtyYes < 0.0 && outcome == 1.0
  {
    if outcome == 1.0 {
      assert Times(p.qtyYes, 1.0) == p.qtyYes;
    } else {
      assert Times(p.qtyYes, 0.0) == 0.0;
    }
  }

  /** A market settles once. */
  lemma {:induction false} SecondSettlementChangesNothing(books: Books, key: Key, outcome: real, again: real)
    ensures Settled(Settled(books, key, outcome), key, again) == Settled(books, key, outcome)
  {
  }

  // --------------------------------------------------------------------------------- valuation

  datatype Valuation = Valuation(marketValue: real, unrealized: real, totalPnl: real)

  function Value(p: Position, mark: Option<real>): Valuation {
    if mark.None? then Valuation(0.0, 0.0, p.realizedPnl)
    else Valuation(Times(p.Net(), mark.value), Times(p.Net(), mark.value) + p.cash,
      p.realizedPnl + (Times(p.Net(), mark.value) + p.cash))
  }

  /** A row the portfolio lists: not settled, and holding something. */
  predicate Listed(p: Position) {
    !p.settled && (p.qtyYes != 0.0 || p.qtyNo != 0.0)
  }

  /** `keys` are the open rows of a strategy, each once. */
  ghost predicate ListsOpen(books: Books, strategy: string, keys: seq<Key>) {
    && (forall i, j :: 0 <= i < j < |keys| ==> keys[i] != keys[j])
    && (forall key :: key in keys <==> key in books.positions && key.strategy == strategy && Listed(books.At(key)))
  }

  function SumOver(keys: seq<Key>, amount: Key -> real): real {
    if keys == [] then 0.0 else SumOver(keys[..|keys| - 1], amount) + amount(keys[|keys| - 1])
  }

  datatype Summary = Summary(openPositions: nat, realized: real, unrealized: real, total: real)

  /** The portfolio: valuations of the listed rows, accumulated. */
  method Portfolio(books: Books, keys: seq<Key>, marks: Key -> Option<real>) returns (s: Summary)
    ensures s.openPositions == |keys|
    ensures s.realized == SumOver(keys, (key: Key) => books.At(key).realizedPnl)
    ensures s.unrealized == SumOver(keys, (key: Key) => Value(books.At(key), marks(key)).unrealized)
    ensures s.total == s.realized + s.unrealized
  {
    ghost var ofRealized := (key: Key) => books.At(key).realizedPnl;
    ghost var ofUnrealized := (key: Key) => Value(books.At(key), marks(key)).unrealized;
    var realized, unrealized := 0.0, 0.0;
    for i := 0 to |keys|
      invariant realized == SumOver(keys[..i], ofRealized)
      invariant unrealized == SumOver(keys[..i], ofUnrealized)
    {
      assert keys[..i + 1][..i] == keys[..i];
      var position := books.At(keys[i]);
      realized := realized + position.realizedPnl;
      unrealized := unrealized + Value(position, marks(keys[i])).unrealized;
    }
    assert keys[..|keys|] == keys;
    s := Summary(|keys|, realized, unrealized, realized + unrealized);
  }

  /** Nothing is realized before settlement. */
  lemma {:induction false} RealizedOnlyBySettling(events: seq<Event>, key: Key)
    ensures !Run(events).At(key).settled ==> Run(events).At(key).realizedPnl == 0.0
  {
    if events != [] {
      var front, event := events[..|events| - 1], events[|events| - 1];
      RealizedOnlyBySettling(front, key);
      if event.key != key {
        NextIsLocal(Run(front), event, key);
      }
    }
  }

  /** While a position is open its marked total is the profit of the run. */
  lemma {:induction false} OpenTotalIsTheProfit(events: seq<Event>, key: Key)
    requires !Run(events).At(key).settled
    ensures Value(Run(events).At(key), Some(LastMark(events, key))).totalPnl == Gains(events, key)
  {
    WealthIsGains(events, key);
    RealizedOnlyBySettling(events, key);
    ValueIsWealth(Run(events).At(key), LastMark(events, key), Gains(events, key));
  }

  lemma ValueIsWealth(p: Position, mark: real, gains: real)
    requires p.realizedPnl == 0.0 && Wealth(p, mark) == gains
    ensures Value(p, Some(mark)).totalPnl == gains
  {
  }

  /**
   * Once settled it is not: the payout sits in `cash` and in `realizedPnl`, so a settled row's
   * total counts it twice. The total is right exactly when the outcome paid nothing.
   */
  lemma {:induction false} SettledTotalCountsThePayoutTwice(events: seq<Event>, key: Key, outcome: real, mark: real)
    requires Settleable(Run(events).At(key))
    ensures var all := events + [Resolution(key, outcome)];
      var total := Value(Run(all).At(key), Some(mark)).totalPnl;
      && total == Gains(all, key) + Payout(Run(events).At(key), outcome)
      && (total == Gains(all, key) <==> outcome == 0.0)
  {
    var all := events + [Resolution(key, outcome)];
    assert all[..|events|] == events;
    var p := Run(events).At(key);
    SettlementRealizesEverything(events, key, outcome);
    RowsHoldTheTarget(events, key);
    RealizedOnlyBySettling(events, key);
    assert Times(0.0, mark) == 0.0 && Times(0.0, 1.0 - outcome) == 0.0;
    PayoutIsZero(p.qtyYes, outcome);
  }

  lemma PayoutIsZero(qty: real, outcome: real)
    requires qty != 0.0
    ensures Times(qty, outcome) == 0.0 <==> outcome == 0.0
  {
    if outcome != 0.0 {
      assert Times(qty, outcome) != 0.0;
    }
  }

  /** Gains up to the mark `from`, carried to the present quote; nothing without one. */
  function MarkedUp(gains: real, p: Position, from: real, mark: Option<real>): real {
    if mark.None? then 0.0 else gains + Earned(p, from, mark.value)
  }

  /** The profit of a run on one key, at the present quote. */
  function ProfitAt(events: seq<Event>, key: Key, mark: Option<real>): real {
    MarkedUp(Gains(events, key), Run(events).At(key), LastMark(events, key), mark)
  }

  lemma {:induction false} SumsAgree(keys: seq<Key>, f: Key -> real, g: Key -> real)
    requires forall key :: key in keys ==> f(key) == g(key)
    ensures SumOver(keys, f) == SumOver(keys, g)
  {
    if keys != [] {
      assert forall key :: key in keys[..|keys| - 1] ==> key in keys;
      SumsAgree(keys[..|keys| - 1], f, g);
      assert keys[|keys| - 1] in keys;
    }
  }

  lemma {:induction false} SumOfNothing(keys: seq<Key>)
    ensures SumOver(keys, (key: Key) => 0.0) == 0.0
  {
    if keys != [] {
      SumOfNothing(keys[..|keys| - 1]);
    }
  }

  lemma ValueMoves(p: Position, from: real, mark: Option<real>, gains: real)
    requires Wealth(p, from) == gains
    ensures Value(p, mark).unrealized == MarkedUp(gains, p, from, mark)
  {
    if mark.Some? {
      WealthMoves(p, from, mark.value);
    }
  }

  lemma {:induction false} UnrealizedIsGains(events: seq<Event>, key: Key, mark: Option<real>)
    ensures Value(Run(events).At(key), mark).unrealized == ProfitAt(events, key, mark)
  {
    WealthIsGains(events, key);
    ValueMoves(Run(events).At(key), LastMark(events, key), mark, Gains(events, key));
  }

  /**
   * On every run the portfolio reports the gains of what is open, at the present quotes, and
   * nothing realized: a settled row is never listed, so its profit leaves the summary.
   */
  lemma {:induction false} PortfolioIsOpenGains(events: seq<Event>, strategy: string, keys: seq<Key>,
      marks: Key -> Option<real>)
    requires ListsOpen(Run(events), strategy, keys)
    ensures SumOver(keys, (key: Key) => Run(events).At(key).realizedPnl) == 0.0
    ensures SumOver(keys, (key: Key) => Value(Run(events).At(key), marks(key)).unrealized)
      == SumOver(keys, (key: Key) => ProfitAt(events, key, marks(key)))
  {
    forall key | key in keys
      ensures Run(events).At(key).realizedPnl == 0.0
    {
      RealizedOnlyBySettling(events, key);
    }
    SumsAgree(keys, (key: Key) => Run(events).At(key).realizedPnl, (key: Key) => 0.0);
    SumOfNothing(keys);
    forall key | key in keys
      ensures Value(Run(events).At(key), marks(key)).unrealized == ProfitAt(events, key, marks(key))
    {
      UnrealizedIsGains(events, key, marks(key));
    }
    SumsAgree(keys, (key: Key) => Value(Run(events).At(key), marks(key)).unrealized,
      (key: Key) => ProfitAt(events, key, marks(key)));
  }

  /** Once settled a row is never listed again, whatever is traded later. */
  lemma {:induction false} SettledStaysUnlisted(events: seq<Event>, more: seq<Event>, key: Key)
    requires Run(events).At(key).settled
    ensures !Listed(Run(events + more).At(key)) && Run(events + more).At(key).settled
  {
    if more == [] {
      assert events + more == events;
    } else {
      var front, last := more[..|more| - 1], more[|more| - 1];
      SettledStaysUnlisted(events, front, key);
      assert (events + more)[..|events + more| - 1] == events + front;
      NextKeepsSettled(Run(events + front), last, key);
    }
  }

  lemma {:induction false} NextKeepsSettled(books: Books, event: Event, key: Key)
    requires books.At(key).settled
    ensures Next(books, event).At(key).settled
  {
    match event {
      case Signal(at, target, mark) =>
      case Resolution(at, outcome) => SettledAt(books, at, outcome, key);
    }
  }
}
