/** Reading the ledger by its columns: when a replay by side gives the position. */
module LedgerSides {
  import opened Wrappers
  import opened Transcendental
  import opened PaperLedger

  datatype Legs = Legs(yes: real, no: real)
  {
    function Net(): real {
      yes - no
    }

    function Add(side: Side, quantity: real): Legs {
      if side == Yes then this.(yes := yes + quantity) else this.(no := no + quantity)
    }
  }

  /** Buys add to the leg named, sells take from it, a settlement empties it. */
  function AfterFillBySide(legs: Legs, fill: Fill, key: Key): Legs {
    if fill.key != key then legs
    else
      match fill.deed
      case Buy => legs.Add(fill.side, fill.quantity)
      case Sell => legs.Add(fill.side, -fill.quantity)
      case Settle => if fill.side == Yes then legs.(yes := 0.0) else legs.(no := 0.0)
  }

  function ReplayedBySide(fills: seq<Fill>, key: Key): Legs {
    if fills == [] then Legs(0.0, 0.0)
    else AfterFillBySide(ReplayedBySide(fills[..|fills| - 1], key), fills[|fills| - 1], key)
  }

  /** The only combinations recorded: YES is bought, NO is sold, YES is settled. */
  predicate Recordable(fill: Fill) {
    fill.quantity > 0.0 && (fill.side == No <==> fill.deed == Sell)
  }

  predicate AllRecordable(fills: seq<Fill>) {
    forall i :: 0 <= i < |fills| ==> Recordable(fills[i])
  }

  lemma {:induction false} NextRecords(books: Books, event: Event)
    requires AllRecordable(books.fills) && books.At(event.key).qtyNo == 0.0
    ensures AllRecordable(Next(books, event).fills)
  {
    match event {
      case Signal(at, target, mark) =>
        var delta := Trade(books, at, target);
        if delta != 0.0 {
          assert Recordable(FillOf(at, delta, mark));
        }
      case Resolution(at, outcome) =>
        var p := books.At(at);
        if Settleable(p) {
          var fill := Fill(at, Yes, Settle, Abs(p.qtyYes), outcome, Times(p.qtyYes, outcome));
          assert SettleFills(at, p, outcome) == [fill] && Recordable(fill);
        }
    }
  }

  lemma {:induction false} FillsAreRecordable(events: seq<Event>)
    ensures AllRecordable(Run(events).fills)
  {
    if events != [] {
      var front, event := events[..|events| - 1], events[|events| - 1];
      FillsAreRecordable(front);
      RowsHoldTheTarget(front, event.key);
      NextRecords(Run(front), event);
    }
  }

  /** Everything ever sold on `key`. */
  function Sold(fills: seq<Fill>, key: Key): real {
    if fills == [] then 0.0
    else
      var last := fills[|fills| - 1];
      Sold(fills[..|fills| - 1], key) + if last.key == key && last.deed == Sell then last.quantity else 0.0
  }

  /** What was sold since the last settlement. */
  function SoldSince(fills: seq<Fill>, key: Key): real {
    if fills == [] then 0.0
    else
      var last, before := fills[|fills| - 1], SoldSince(fills[..|fills| - 1], key);
      if last.key != key then before
      else
        match last.deed
        case Buy => before
        case Sell => before + last.quantity
        case Settle => 0.0
  }

  predicate Sells(fills: seq<Fill>, key: Key) {
    exists i :: 0 <= i < |fills| && fills[i].key == key && fills[i].deed == Sell
  }

  lemma {:induction false} SoldSign(fills: seq<Fill>, key: Key)
    requires AllRecordable(fills)
    ensures 0.0 <= SoldSince(fills, key) <= Sold(fills, key)
    ensures Sold(fills, key) == 0.0 <==> !Sells(fills, key)
  {
    if fills != [] {
      var n := |fills| - 1;
      SoldSign(fills[..n], key);
      assert Recordable(fills[n]);
      if Sells(fills[..n], key) {
        var i :| 0 <= i < n && fills[..n][i].key == key && fills[..n][i].deed == Sell;
        assert fills[i].key == key && fills[i].deed == Sell;
      }
      if i :| 0 <= i < |fills| && fills[i].key == key && fills[i].deed == Sell {
        assert i < n ==> fills[..n][i] == fills[i];
      }
    }
  }

  /** By side every sale is counted the wrong way round, and on the NO leg for good. */
  lemma {:induction false} SidesDriftBySales(fills: seq<Fill>, key: Key)
    requires AllRecordable(fills)
    ensures ReplayedBySide(fills, key) == Legs(Replayed(fills, key) + SoldSince(fills, key), -Sold(fills, key))
  {
    if fills != [] {
      var n := |fills| - 1;
      SidesDriftBySales(fills[..n], key);
      assert Recordable(fills[n]);
    }
  }

  lemma {:induction false} ReplaysAgreeExactlyWhen(fills: seq<Fill>, key: Key, net: real)
    requires AllRecordable(fills) && Replayed(fills, key) == net
    ensures SidesTellSales(fills, key, net)
  {
    SidesDriftBySales(fills, key);
    SoldSign(fills, key);
  }

  lemma {:induction false} LedgerOf(events: seq<Event>, key: Key) returns (fills: seq<Fill>, net: real)
    ensures fills == Run(events).fills && net == Run(events).At(key).Net()
    ensures AllRecordable(fills) && Replayed(fills, key) == net
  {
    fills, net := Run(events).fills, Run(events).At(key).Net();
    FillsAreRecordable(events);
    LedgerReplaysToThePosition(events, key);
  }

  /** By its columns this ledger says `net`, exactly when nothing was ever sold. */
  ghost predicate SidesTellSales(fills: seq<Fill>, key: Key, net: real) {
    && ReplayedBySide(fills, key) == Legs(net + SoldSince(fills, key), -Sold(fills, key))
    && (ReplayedBySide(fills, key).Net() == net <==> !Sells(fills, key))
  }

  /** Replaying the ledger by its columns gives the position exactly when nothing was ever sold. */
  lemma {:induction false} ReplayBySideAgreesExactlyWhen(events: seq<Event>, key: Key)
    ensures SidesTellSales(Run(events).fills, key, Run(events).At(key).Net())
  {
    var fills, net := LedgerOf(events, key);
    ReplaysAgreeExactlyWhen(fills, key, net);
  }
}
