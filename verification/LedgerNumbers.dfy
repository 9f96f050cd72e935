/** One signal and one settlement in numbers: the fills they write and the row they leave. */
module LedgerNumbers {
  import opened Wrappers
  import opened Transcendental
  import opened PaperLedger

  /** Flat below five points of edge, else the edge times the cap, held within the cap. */
  predicate IsTarget(cap: real, edge: real, target: real) {
    if -0.05 < edge < 0.05 then target == 0.0
    else
      && (edge >= 1.0 ==> target == cap)
      && (edge <= -1.0 ==> target == -cap)
      && (-1.0 <= edge <= 1.0 ==> target == Times(edge, cap))
  }

  /** Buying YES for cash, or selling it, `delta` shares at `mark`. */
  predicate IsTrade(fill: Fill, key: Key, delta: real, mark: real) {
    && fill.key == key && fill.price == mark
    && fill.cashFlow == -Times(delta, mark)
    && (delta > 0.0 ==> fill.side == Yes && fill.deed == Buy && fill.quantity == delta)
    && (delta < 0.0 ==> fill.side == No && fill.deed == Sell && fill.quantity == -delta)
  }

  /** The row moved by `delta` YES shares against cash, one fill saying so, and nothing else changed. */
  ghost predicate MovesBy(books: Books, next: Books, key: Key, delta: real, mark: real) {
    && (exists fill :: IsTrade(fill, key, delta, mark) && next.fills == books.fills + [fill])
    && next.positions.Keys == books.positions.Keys + {key}
    && (forall other :: other in books.positions && other != key ==> next.positions[other] == books.positions[other])
    && var p, q := books.At(key), next.At(key);
      && q.qtyYes == p.qtyYes + delta && q.qtyNo == p.qtyNo
      && q.cash == p.cash - Times(delta, mark)
      && q.realizedPnl == p.realizedPnl && q.settled == p.settled
  }

  /** Within a billionth of the target nothing is traded. */
  ghost predicate Lands(books: Books, next: Books, key: Key, target: real, mark: real) {
    var delta := target - (books.At(key).qtyYes - books.At(key).qtyNo);
    if -0.000000001 < delta < 0.000000001 then next == books else MovesBy(books, next, key, delta, mark)
  }

  ghost predicate Follows(books: Books, next: Books, cap: real, key: Key, edge: real, mark: real) {
    exists target :: IsTarget(cap, edge, target) && Lands(books, next, key, target, mark)
  }

  lemma FillIsTrade(key: Key, delta: real, mark: real)
    ensures IsTrade(FillOf(key, delta, mark), key, delta, mark)
  {
  }

  lemma {:induction false} TradeMoves(books: Books, key: Key, delta: real, mark: real, fill: Fill)
    requires IsTrade(fill, key, delta, mark)
    ensures MovesBy(books, books.Recorded(fill).Applied(key, delta, 0.0, fill.cashFlow, 0.0, false), key, delta, mark)
  {
    var paid := Times(delta, mark);
    assert fill.cashFlow == -paid;
  }

  lemma {:induction false} TradeLands(books: Books, key: Key, target: real, mark: real)
    ensures Lands(books, Rebalanced(books, key, Some(target), mark), key, target, mark)
  {
    var delta := target - (books.At(key).qtyYes - books.At(key).qtyNo);
    if !(-0.000000001 < delta < 0.000000001) {
      assert Trade(books, key, Some(target)) == delta;
      FillIsTrade(key, delta, mark);
      TradeMoves(books, key, delta, mark, FillOf(key, delta, mark));
    }
  }

  lemma {:induction false} TargetFollows(books: Books, cap: real, key: Key, edge: real, target: real, mark: real)
    requires IsTarget(cap, edge, target)
    ensures Follows(books, Rebalanced(books, key, Some(target), mark), cap, key, edge, mark)
  {
    TradeLands(books, key, target, mark);
  }

  /**
   * A signal moves the position onto the target of its edge, paying the mark for every share; without a
   * forecast or a mark nothing happens.
   */
  lemma {:induction false} SignalInNumbers(books: Books, cap: real, key: Key, pHat: Option<real>, mark: Option<real>)
    requires cap > 0.0
    ensures pHat.None? || mark.None? ==> Next(books, Decision(cap, key, pHat, mark)) == books
    ensures pHat.Some? && mark.Some? ==>
      Follows(books, Next(books, Decision(cap, key, pHat, mark)), cap, key, pHat.value - mark.value, mark.value)
  {
    if pHat.Some? && mark.Some? {
      TargetFollowsTheEdge(cap, pHat.value, mark.value);
      TargetFollows(books, cap, key, pHat.value - mark.value, TargetPosition(cap, pHat.value, mark.value), mark.value);
    }
  }

  // --------------------------------------------------------------------------- settlement

  /** The fill that closes `held` shares of one side, each paying `pays`. */
  predicate Closes(fill: Fill, key: Key, side: Side, held: real, pays: real) {
    && fill.key == key && fill.side == side && fill.deed == Settle
    && (fill.quantity == held || fill.quantity == -held) && fill.quantity > 0.0
    && fill.price == pays && fill.cashFlow == Times(held, pays)
  }

  /** The fills of a settlement: one per side held, YES first. */
  ghost predicate AreClosing(fills: seq<Fill>, key: Key, p: Position, outcome: real) {
    && |fills| == (if p.qtyYes != 0.0 then 1 else 0) + (if p.qtyNo != 0.0 then 1 else 0)
    && (p.qtyYes != 0.0 ==> Closes(fills[0], key, Yes, p.qtyYes, outcome))
    && (p.qtyNo != 0.0 ==> Closes(fills[|fills| - 1], key, No, p.qtyNo, 1.0 - outcome))
  }

  ghost predicate Closed(books: Books, next: Books, key: Key, outcome: real) {
    && (exists closing :: AreClosing(closing, key, books.At(key), outcome) && next.fills == books.fills + closing)
    && next.positions.Keys == books.positions.Keys + {key}
    && (forall other :: other in books.positions && other != key ==> next.positions[other] == books.positions[other])
    && var p, q := books.At(key), next.At(key);
      && q.qtyYes == 0.0 && q.qtyNo == 0.0 && q.settled
      && q.cash - p.cash == q.realizedPnl - p.realizedPnl
      && q.cash == p.cash + Times(p.qtyYes, outcome) + Times(p.qtyNo, 1.0 - outcome)
  }

  /** A resolution pays the outcome on YES and its complement on NO, closes the row and books the payout as realized. */
  lemma {:induction false} SettlementInNumbers(books: Books, key: Key, outcome: real)
    ensures var p, next := books.At(key), Next(books, Resolution(key, outcome));
      if p.settled || (p.qtyYes == 0.0 && p.qtyNo == 0.0) then next == books
      else Closed(books, next, key, outcome)
  {
    var p := books.At(key);
    if Settleable(p) {
      assert AreClosing(SettleFills(key, p, outcome), key, p, outcome);
      SettledAt(books, key, outcome, key);
    }
  }

  /** Whatever the outcome, a YES share and a NO share together pay one. */
  lemma {:induction false} PairsPayOne(books: Books, key: Key, outcome: real)
    requires !books.At(key).settled && books.At(key).qtyYes == books.At(key).qtyNo != 0.0
    ensures Next(books, Resolution(key, outcome)).At(key).cash == books.At(key).cash + books.At(key).qtyYes
  {
    SettlementInNumbers(books, key, outcome);
    Complement(books.At(key).qtyYes, outcome);
  }

  lemma Complement(q: real, outcome: real)
    ensures Times(q, outcome) + Times(q, 1.0 - outcome) == q
  {
  }
}
