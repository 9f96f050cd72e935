/** The mutable binary market, and what every run of operations on it keeps. */
module BinaryMarket {
  import opened Wrappers
  import opened Transcendental
  import opened Lmsr

  /** Liquidity and outstanding shares. */
  datatype Position = Position(b: real, qYes: real, qNo: real)
  {
    /** `logit(p)`: buying moves this linearly. */
    function Imbalance(): real
      requires b > 0.0
    {
      (qYes - qNo) / b
    }

    function Price(m: Math): real
      requires b > 0.0
    {
      m.Sigmoid(Imbalance())
    }

    ghost predicate InBand(m: Math)
      requires b > 0.0
    {
      -m.Band() <= Imbalance() <= m.Band()
    }

    function CostValue(m: Math): real
      requires b > 0.0
    {
      CostOf(m, [qYes, qNo], b)
    }
  }

  // ------------------------------------------------------------- the operations as functions

  function Bought(p: Position, shares: real): Position {
    p.(qYes := p.qYes + shares)
  }

  function SharesToMovePrice(m: Math, pFrom: real, pTo: real, b: real): real {
    b * (m.Logit(pTo) - m.Logit(pFrom))
  }

  function MoveShares(m: Math, p: Position, target: real): real
    requires p.b > 0.0
  {
    SharesToMovePrice(m, p.Price(m), ClampProbability(target), p.b)
  }

  function StepShares(m: Math, p: Position, target: real, responsiveness: real, cap: Option<real>): real
    requires p.b > 0.0
  {
    var gap := m.Logit(ClampProbability(target)) - m.Logit(p.Price(m));
    var shares := p.b * gap * responsiveness;
    if cap.Some? then Max(-cap.value, Min(cap.value, shares)) else shares
  }

  function Recalibrated(p: Position, newB: real): Position
    requires p.b > 0.0
  {
    Position(newB, (p.qYes - p.qNo) * (newB / p.b), 0.0)
  }

  datatype Op =
    | Buy(shares: real)
    | Move(target: real)
    | Step(target: real, responsiveness: real, cap: Option<real>)
    | Recalibrate(newB: real)
  {
    /** The arguments the market accepts. */
    predicate Accepted() {
      match this
      case Buy(_) => true
      case Move(_) => true
      case Step(_, r, cap) => 0.0 < r <= 1.0 && (cap.Some? ==> cap.value >= 0.0)
      case Recalibrate(newB) => newB > 0.0
    }
  }

  /** A rejected operation throws before it changes anything. */
  function Next(m: Math, p: Position, op: Op): (t: Position)
    requires p.b > 0.0
    ensures t.b > 0.0
  {
    if !op.Accepted() then p
    else
      match op
      case Buy(shares) => Bought(p, shares)
      case Move(target) => Bought(p, MoveShares(m, p, target))
      case Step(target, r, cap) => Bought(p, StepShares(m, p, target, r, cap))
      case Recalibrate(newB) => Recalibrated(p, newB)
  }

  function Run(m: Math, p: Position, ops: seq<Op>): (t: Position)
    requires p.b > 0.0
    ensures t.b > 0.0
  {
    if ops == [] then p else Next(m, Run(m, p, ops[..|ops| - 1]), ops[|ops| - 1])
  }

  /** What the trader pays for one operation: the change of the cost function, except that recalibrating is free. */
  function Payment(m: Math, p: Position, op: Op): real
    requires p.b > 0.0
  {
    if op.Recalibrate? then 0.0 else Next(m, p, op).CostValue(m) - p.CostValue(m)
  }

  function TotalPayment(m: Math, p: Position, ops: seq<Op>): real
    requires p.b > 0.0
  {
    if ops == [] then 0.0
    else
      var front := ops[..|ops| - 1];
      TotalPayment(m, p, front) + Payment(m, Run(m, p, front), ops[|ops| - 1])
  }

  // ----------------------------------------------------------------------------- the class

  class LmsrMarket {
    const m: Math
    var b: real
    var qYes: real
    var qNo: real
    var realizedCost: real

    ghost predicate Valid()
      reads this
    {
      m.Lawful() && b > 0.0
    }

    function Snapshot(): Position
      reads this
    {
      Position(b, qYes, qNo)
    }

    constructor (m: Math, b: real, qYes: real, qNo: real)
      requires m.Lawful() && b > 0.0
      ensures Valid() && this.m == m && Snapshot() == Position(b, qYes, qNo) && realizedCost == 0.0
    {
      this.m := m;
      this.b := b;
      this.qYes := qYes;
      this.qNo := qNo;
      realizedCost := 0.0;
    }

    function Price(): real
      requires Valid()
      reads this
    {
      Snapshot().Price(m)
    }

    method CostValue() returns (cost: real)
      requires Valid()
      ensures cost == Snapshot().CostValue(m)
    {
      var c := Cost(m, [qYes, qNo], b);
      cost := c.value;
    }

    lemma PurchaseCosts(p: Position, shares: real)
      requires p.b > 0.0
      ensures Payment(m, p, Buy(shares)) ==
        CostOf(m, Traded([p.qYes, p.qNo], [shares, 0.0]), p.b) - CostOf(m, [p.qYes, p.qNo], p.b)
    {
      assert Traded([p.qYes, p.qNo], [shares, 0.0]) == [p.qYes + shares, p.qNo];
    }

    method BuyYes(shares: real) returns (paid: real)
      requires Valid()
      modifies this`qYes, this`realizedCost
      ensures Valid()
      ensures Snapshot() == Next(m, old(Snapshot()), Buy(shares))
      ensures paid == Payment(m, old(Snapshot()), Buy(shares))
      ensures realizedCost == old(realizedCost) + paid
    {
      var cost := TradeCost(m, [qYes, qNo], [shares, 0.0], b);
      paid := cost.value;
      PurchaseCosts(Snapshot(), shares);
      qYes := qYes + shares;
      realizedCost := realizedCost + paid;
    }

    method MoveToPrice(target: real) returns (shares: real)
      requires Valid()
      modifies this`qYes, this`realizedCost
      ensures Valid()
      ensures shares == MoveShares(m, old(Snapshot()), target)
      ensures Snapshot() == Next(m, old(Snapshot()), Move(target))
      ensures realizedCost == old(realizedCost) + Payment(m, old(Snapshot()), Move(target))
    {
      var clamped := ClampProbability(target);
      shares := SharesToMovePrice(m, Price(), clamped, b);
      var _ := BuyYes(shares);
    }

    method Recalibrate(newB: real) returns (r: Result<real, string>)
      requires Valid()
      modifies this`b, this`qYes, this`qNo
      ensures Valid()
      ensures r.Ok? <==> newB > 0.0
      ensures Snapshot() == Next(m, old(Snapshot()), Op.Recalibrate(newB))
    {
      if newB <= 0.0 {
        return Err("liquidity parameter b must be positive");
      }
      var ratio := newB / b;
      var imbalance := (qYes - qNo) * ratio;
      qYes := imbalance;
      qNo := 0.0;
      b := newB;
      r := Ok(newB);
    }

    method StepFromSignal(target: real, responsiveness: real, cap: Option<real>) returns (r: Result<real, string>)
      requires Valid()
      modifies this`qYes, this`realizedCost
      ensures Valid()
      ensures r.Ok? <==> Step(target, responsiveness, cap).Accepted()
      ensures r.Ok? ==> r.value == StepShares(m, old(Snapshot()), target, responsiveness, cap)
      ensures Snapshot() == Next(m, old(Snapshot()), Step(target, responsiveness, cap))
      ensures realizedCost == old(realizedCost) + Payment(m, old(Snapshot()), Step(target, responsiveness, cap))
    {
      if !(responsiveness > 0.0 && responsiveness <= 1.0) {
        return Err("responsiveness must be in (0, 1]");
      }
      var clamped := ClampProbability(target);
      var gap := m.Logit(clamped) - m.Logit(Price());
      var shares := b * gap * responsiveness;
      if cap.Some? {
        if cap.value < 0.0 {
          return Err("max_shares must be non-negative");
        }
        shares := Max(-cap.value, Min(cap.value, shares));
      }
      assert shares == StepShares(m, Snapshot(), target, responsiveness, cap);
      var _ := BuyYes(shares);
      r := Ok(shares);
    }
  }

  // ------------------------------------------------------------- one operation in logit space

  lemma DivideProduct(x: real, b: real)
    requires b > 0.0
    ensures (b * x) / b == x
  {
  }

  lemma {:induction false} BuyingMovesTheLogit(m: Math, s: Position, shares: real)
    requires s.b > 0.0
    ensures Bought(s, shares).Imbalance() == s.Imbalance() + shares / s.b
  {
    DivideSum(s.qYes - s.qNo, shares, s.b);
  }

  /** Recalibration is not news: the imbalance, hence the price, stays where it was. */
  lemma {:induction false} RecalibrationKeepsThePrice(s: Position, newB: real)
    requires s.b > 0.0 && newB > 0.0
    ensures Recalibrated(s, newB).Imbalance() == s.Imbalance()
  {
    var d := s.qYes - s.qNo;
    var ratio := newB / s.b;
    assert ratio * s.b == newB;
    assert (d * ratio) * s.b == d * newB;
    CrossMultiply(d * ratio, newB, d, s.b);
  }

  /** A price is set exactly when the market was inside the logit band. */
  lemma {:induction false} MoveLands(m: Math, s: Position, target: real)
    requires m.Lawful() && s.b > 0.0
    ensures var t := Next(m, s, Move(target));
      && (t.Imbalance() == m.Logit(target) <==> s.InBand(m))
      && (t.Price(m) == ClampProbability(target) <==> s.InBand(m))
  {
    var t := Next(m, s, Move(target));
    m.LogitOfClamped(target);
    m.LogitOfSigmoid(s.Imbalance());
    m.BandIsPositive();
    var gap := m.Logit(target) - m.Logit(s.Price(m));
    assert MoveShares(m, s, target) == s.b * gap;
    BuyingMovesTheLogit(m, s, s.b * gap);
    DivideProduct(gap, s.b);
    m.SigmoidOfLogit(target);
    m.SigmoidIncreases(t.Imbalance(), m.Logit(target));
  }

  function Gap(m: Math, s: Position, target: real): real
    requires s.b > 0.0
  {
    m.Logit(target) - s.Imbalance()
  }

  /** From `x`, the fraction `r` of the way to `target`. */
  function Towards(x: real, target: real, r: real): real {
    x + (target - x) * r
  }

  /** What an uncapped step does to the imbalance, clamp included. */
  lemma {:induction false} StepMovesTheLogit(m: Math, s: Position, target: real, r: real)
    requires m.Lawful() && s.b > 0.0 && 0.0 < r <= 1.0
    ensures Next(m, s, Step(target, r, None)).Imbalance()
      == s.Imbalance() + (m.Logit(target) - Clip(s.Imbalance(), -m.Band(), m.Band())) * r
  {
    m.LogitOfClamped(target);
    m.LogitOfSigmoid(s.Imbalance());
    var gap := m.Logit(target) - m.Logit(s.Price(m));
    StepOfGap(s, gap, r);
    assert StepShares(m, s, target, r, None) == s.b * gap * r;
  }

  lemma StepOfGap(s: Position, gap: real, r: real)
    requires s.b > 0.0
    ensures Bought(s, s.b * gap * r).Imbalance() == s.Imbalance() + gap * r
  {
    var fraction := gap * r;
    assert s.b * gap * r == s.b * fraction;
    DivideSum(s.qYes - s.qNo, s.b * fraction, s.b);
    DivideProduct(fraction, s.b);
  }

  /** An uncapped step multiplies the logit gap by exactly `1 - r`, and only inside the band. */
  lemma {:induction false} StepContracts(m: Math, s: Position, target: real, r: real)
    requires m.Lawful() && s.b > 0.0 && 0.0 < r <= 1.0
    ensures Gap(m, Next(m, s, Step(target, r, None)), target) == Gap(m, s, target) * (1.0 - r) <==> s.InBand(m)
  {
    StepMovesTheLogit(m, s, target, r);
    m.BandIsPositive();
    ContractionIffEqual(s.Imbalance(), Clip(s.Imbalance(), -m.Band(), m.Band()), m.Logit(target), r,
      Next(m, s, Step(target, r, None)).Imbalance(), Gap(m, s, target));
  }

  lemma ContractionIffEqual(x: real, c: real, t: real, r: real, after: real, gap: real)
    requires r > 0.0 && after == x + (t - c) * r && gap == t - x
    ensures t - after == gap * (1.0 - r) <==> x == c
  {
    assert (t - c) * r == t * r - c * r && (c - x) * r == c * r - x * r;
    assert (t - x) * (1.0 - r) == (t - x) - (t * r - x * r);
    if c != x {
      NonzeroProduct(c - x, r);
    }
  }

  lemma NonzeroProduct(x: real, y: real)
    requires x != 0.0 && y != 0.0
    ensures x * y != 0.0
  {
  }

  /** Any accepted step moves towards the target without passing it, and within its cap. */
  lemma {:induction false} StepNeverOvershoots(m: Math, s: Position, op: Op)
    requires m.Lawful() && s.b > 0.0 && s.InBand(m) && op.Step? && op.Accepted()
    ensures var before, after := Gap(m, s, op.target), Gap(m, Next(m, s, op), op.target);
      0.0 <= after <= before || before <= after <= 0.0
    ensures op.cap.Some? ==>
      Abs(StepShares(m, s, op.target, op.responsiveness, op.cap)) <= op.cap.value
    ensures op.cap.Some? && Abs(StepShares(m, s, op.target, op.responsiveness, None)) <= op.cap.value ==>
      StepShares(m, s, op.target, op.responsiveness, op.cap) == StepShares(m, s, op.target, op.responsiveness, None)
  {
    m.LogitOfClamped(op.target);
    m.LogitOfSigmoid(s.Imbalance());
    var gap := Gap(m, s, op.target);
    var full := StepShares(m, s, op.target, op.responsiveness, None);
    var shares := StepShares(m, s, op.target, op.responsiveness, op.cap);
    BuyingMovesTheLogit(m, s, shares);
    SharesWithinGap(s.b, gap, op.responsiveness, full, shares);
  }

  lemma {:induction false} SharesWithinGap(b: real, gap: real, r: real, full: real, shares: real)
    requires b > 0.0 && 0.0 < r <= 1.0 && full == b * gap * r
    requires full >= 0.0 ==> 0.0 <= shares <= full
    requires full <= 0.0 ==> full <= shares <= 0.0
    ensures 0.0 <= shares / b <= gap || gap <= shares / b <= 0.0
  {
    if gap >= 0.0 {
      SharesWithinPositiveGap(b, gap, r, full, shares);
    } else {
      assert -full == b * (-gap) * r;
      SharesWithinPositiveGap(b, -gap, r, -full, -shares);
      DivideSum(shares, -shares, b);
    }
  }

  lemma {:induction false} SharesWithinPositiveGap(b: real, gap: real, r: real, full: real, shares: real)
    requires b > 0.0 && 0.0 < r <= 1.0 && gap >= 0.0 && full == b * gap * r
    requires full >= 0.0 ==> 0.0 <= shares <= full
    ensures 0.0 <= shares / b <= gap
  {
    FractionOf(b * gap, r, full);
    DivideMonotone(0.0, shares, b);
    DivideMonotone(shares, b * gap, b);
    DivideProduct(gap, b);
  }

  lemma FractionOf(x: real, r: real, y: real)
    requires x >= 0.0 && 0.0 < r <= 1.0 && y == x * r
    ensures 0.0 <= y <= x
  {
    MulMonotone(0.0, r, x);
    MulMonotone(r, 1.0, x);
  }

  // --------------------------------------------------------------------------- whole runs

  lemma {:induction false} NextKeepsTheBand(m: Math, s: Position, op: Op)
    requires m.Lawful() && s.b > 0.0 && s.InBand(m) && !op.Buy?
    ensures Next(m, s, op).InBand(m)
  {
    if op.Accepted() {
      match op {
        case Move(target) =>
          MoveLands(m, s, target);
          m.LogitInBand(target);
        case Step(target, _, _) =>
          StepNeverOvershoots(m, s, op);
          m.LogitInBand(target);
        case Recalibrate(newB) =>
          RecalibrationKeepsThePrice(s, newB);
      }
    }
  }

  /** No share is bought outright: the price is only moved, stepped or kept. */
  predicate OnlySetsPrices(ops: seq<Op>) {
    forall i :: 0 <= i < |ops| ==> !ops[i].Buy?
  }

  /** The band is an invariant of every run, whatever is moved, stepped or recalibrated. */
  lemma {:induction false} RunKeepsTheBand(m: Math, s: Position, ops: seq<Op>)
    requires m.Lawful() && s.b > 0.0 && s.InBand(m) && OnlySetsPrices(ops)
    ensures Run(m, s, ops).InBand(m)
  {
    if ops != [] {
      RunKeepsTheBand(m, s, ops[..|ops| - 1]);
      NextKeepsTheBand(m, Run(m, s, ops[..|ops| - 1]), ops[|ops| - 1]);
    }
  }

  /** A fresh market starts inside the band. */
  lemma {:induction false} FreshIsInBand(m: Math, s: Position)
    requires m.Lawful() && s.b > 0.0 && s.qYes == s.qNo
    ensures s.Imbalance() == 0.0 && s.InBand(m)
  {
    m.BandIsPositive();
  }

  /** What is left of `gap` after keeping the fraction `keep` of it `n` times. */
  function Decayed(gap: real, keep: real, n: nat): real {
    if n == 0 then gap else Times(Decayed(gap, keep, n - 1), keep)
  }

  function Power(x: real, n: nat): real {
    if n == 0 then 1.0 else x * Power(x, n - 1)
  }

  lemma {:induction false} DecayIsGeometric(gap: real, keep: real, n: nat)
    ensures Decayed(gap, keep, n) == gap * Power(keep, n)
  {
    if n > 0 {
      DecayIsGeometric(gap, keep, n - 1);
      var p := Power(keep, n - 1);
      assert gap * p * keep == gap * (keep * p);
    }
  }

  function Steps(ops: seq<Op>): nat {
    if ops == [] then 0
    else Steps(ops[..|ops| - 1]) + if ops[|ops| - 1].Step? then 1 else 0
  }

  predicate PullsTo(target: real, op: Op) {
    op.Recalibrate? || (op.Step? && op.target == target && op.cap.None?)
  }

  /** What one operation leaves of the gap. */
  function Left(op: Op): real {
    if op.Step? && op.Accepted() then 1.0 - op.responsiveness else 1.0
  }

  function Remaining(ops: seq<Op>): real {
    if ops == [] then 1.0 else Times(Remaining(ops[..|ops| - 1]), Left(ops[|ops| - 1]))
  }

  lemma {:induction false} NextContracts(m: Math, s: Position, target: real, op: Op)
    requires m.Lawful() && s.b > 0.0 && s.InBand(m) && PullsTo(target, op)
    ensures Gap(m, Next(m, s, op), target) == Times(Gap(m, s, target), Left(op))
  {
    if op.Accepted() {
      if op.Step? {
        StepContracts(m, s, target, op.responsiveness);
      } else {
        RecalibrationKeepsThePrice(s, op.newB);
      }
    }
  }

  lemma AssociatesTimes(x: real, y: real, z: real)
    ensures Times(Times(x, y), z) == Times(x, Times(y, z))
  {
  }

  /**
   * Contraction over runs: uncapped steps to one target, each at its own pace and with any
   * recalibrations in between, leave the product of the `1-r` of the opening gap.
   */
  lemma {:induction false} RunContracts(m: Math, s: Position, target: real, ops: seq<Op>)
    requires m.Lawful() && s.b > 0.0 && s.InBand(m)
    requires forall i :: 0 <= i < |ops| ==> PullsTo(target, ops[i])
    ensures Gap(m, Run(m, s, ops), target) == Times(Gap(m, s, target), Remaining(ops))
  {
    if ops != [] {
      var front, last := ops[..|ops| - 1], ops[|ops| - 1];
      RunContracts(m, s, target, front);
      RunKeepsTheBand(m, s, front);
      NextContracts(m, Run(m, s, front), target, last);
      AssociatesTimes(Gap(m, s, target), Remaining(front), Left(last));
    }
  }

  /** At one pace the product is a power. */
  lemma {:induction false} RemainingIsGeometric(ops: seq<Op>, r: real)
    requires 0.0 < r <= 1.0
    requires forall i :: 0 <= i < |ops| ==>
      ops[i].Recalibrate? || (ops[i].Step? && ops[i].cap.None? && ops[i].responsiveness == r)
    ensures Remaining(ops) == Power(1.0 - r, Steps(ops))
  {
    if ops != [] {
      RemainingIsGeometric(ops[..|ops| - 1], r);
    }
  }

  /** However steps are capped or mixed, a run towards one target never passes it nor backs off. */
  lemma {:induction false} RunNeverOvershoots(m: Math, s: Position, target: real, ops: seq<Op>)
    requires m.Lawful() && s.b > 0.0 && s.InBand(m)
    requires forall i :: 0 <= i < |ops| ==> ops[i].Recalibrate? || (ops[i].Step? && ops[i].target == target)
    ensures var before, after := Gap(m, s, target), Gap(m, Run(m, s, ops), target);
      0.0 <= after <= before || before <= after <= 0.0
  {
    if ops != [] {
      var front, last := ops[..|ops| - 1], ops[|ops| - 1];
      RunNeverOvershoots(m, s, target, front);
      RunKeepsTheBand(m, s, front);
      var middle := Run(m, s, front);
      if last.Accepted() {
        if last.Recalibrate? {
          RecalibrationKeepsThePrice(middle, last.newB);
        } else {
          StepNeverOvershoots(m, middle, last);
        }
      }
    }
  }

  // ---------------------------------------------------------------- liquidity does not matter

  /** The price moves of a run: everything but accepted or rejected recalibrations. */
  function PriceMoves(ops: seq<Op>): (moves: seq<Op>)
    ensures OnlySetsPrices(ops) ==> OnlySetsPrices(moves)
  {
    if ops == [] then []
    else
      var last := ops[|ops| - 1];
      PriceMoves(ops[..|ops| - 1]) + if last.Recalibrate? then [] else [last]
  }

  /** The same run in logit space, where `b` does not occur. */
  function LogitNext(m: Math, x: real, op: Op): real
    requires !op.Buy?
  {
    if !op.Accepted() then x
    else
      match op
      case Move(target) => m.Logit(target)
      case Step(target, r, _) => Towards(x, m.Logit(target), r)
      case Recalibrate(_) => x
  }

  function LogitRun(m: Math, x: real, ops: seq<Op>): real
    requires OnlySetsPrices(ops)
  {
    if ops == [] then x else LogitNext(m, LogitRun(m, x, ops[..|ops| - 1]), ops[|ops| - 1])
  }

  lemma {:induction false} NextFollowsLogit(m: Math, s: Position, op: Op)
    requires m.Lawful() && s.b > 0.0 && s.InBand(m) && !op.Buy?
    requires op.Step? ==> op.cap == None
    ensures Next(m, s, op).Imbalance() == LogitNext(m, s.Imbalance(), op)
  {
    if op.Accepted() {
      match op {
        case Move(target) => MoveLands(m, s, target);
        case Step(target, r, _) => StepMovesTheLogit(m, s, target, r);
        case Recalibrate(newB) => RecalibrationKeepsThePrice(s, newB);
      }
    }
  }

  lemma {:induction false} RunFollowsLogitRun(m: Math, s: Position, ops: seq<Op>)
    requires m.Lawful() && s.b > 0.0 && s.InBand(m) && OnlySetsPrices(ops)
    requires forall i :: 0 <= i < |ops| && ops[i].Step? ==> ops[i].cap == None
    ensures Run(m, s, ops).Imbalance() == LogitRun(m, s.Imbalance(), ops)
  {
    if ops != [] {
      var front := ops[..|ops| - 1];
      RunFollowsLogitRun(m, s, front);
      RunKeepsTheBand(m, s, front);
      NextFollowsLogit(m, Run(m, s, front), ops[|ops| - 1]);
    }
  }

  lemma {:induction false} LogitRunOfPriceMoves(m: Math, x: real, ops: seq<Op>)
    requires OnlySetsPrices(ops)
    ensures LogitRun(m, x, ops) == LogitRun(m, x, PriceMoves(ops))
  {
    if ops != [] {
      var front, last := ops[..|ops| - 1], ops[|ops| - 1];
      LogitRunOfPriceMoves(m, x, front);
      if !last.Recalibrate? {
        assert (PriceMoves(front) + [last])[..|PriceMoves(front)|] == PriceMoves(front);
      } else {
        assert PriceMoves(front) + [] == PriceMoves(front);
      }
    }
  }

  /**
   * Two markets with any liquidity, recalibrated at will, that open at one price and make the
   * same uncapped price moves end at one price.
   */
  lemma {:induction false} PriceIsIndependentOfLiquidity(m: Math, s: Position, t: Position,
      ops: seq<Op>, others: seq<Op>)
    requires m.Lawful() && s.b > 0.0 && t.b > 0.0
    requires s.Imbalance() == t.Imbalance() && s.InBand(m)
    requires OnlySetsPrices(ops) && OnlySetsPrices(others)
    requires forall i :: 0 <= i < |ops| && ops[i].Step? ==> ops[i].cap == None
    requires forall i :: 0 <= i < |others| && others[i].Step? ==> others[i].cap == None
    requires PriceMoves(ops) == PriceMoves(others)
    ensures Run(m, s, ops).Price(m) == Run(m, t, others).Price(m)
  {
    RunFollowsLogitRun(m, s, ops);
    RunFollowsLogitRun(m, t, others);
    LogitRunOfPriceMoves(m, s.Imbalance(), ops);
    LogitRunOfPriceMoves(m, s.Imbalance(), others);
  }
}
