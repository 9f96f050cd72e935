/** What runs that only move, step and recalibrate can cost the maker: the exact maximum of every schedule. */
module SignalLoss {
  import opened Transcendental
  import opened Lmsr
  import opened BinaryMarket
  import opened MakerLoss

  // ------------------------------------------------------------------------------ the soft cost

  lemma {:induction false} SoftplusIncreases(m: Math, x: real, y: real)
    requires m.Lawful() && x <= y
    ensures 0.0 < Softplus(m, x) <= Softplus(m, y)
  {
    SoftplusBounds(m, x);
    m.Positive(x);
    m.Positive(y);
    m.Compares(x, y);
    m.LnCompares(1.0 + m.Exp(x), 1.0 + m.Exp(y));
  }

  lemma {:induction false} SoftplusReflects(m: Math, x: real)
    requires m.Lawful()
    ensures Softplus(m, x) == x + Softplus(m, -x)
  {
    m.Negates(x);
    m.LnOfProduct(m.Exp(x), 1.0 + m.Exp(-x), 1.0 + m.Exp(x));
    m.Inverse(x);
  }

  /** By how much the exposure exceeds the payout at an end of the band, per unit of liquidity. */
  function Spare(m: Math): real {
    Softplus(m, -m.Band())
  }

  // --------------------------------------------------------------------------------- exposure

  /** The most that recalibrating from `b` to `b + d` adds to the exposure inside the band. */
  function Growth(m: Math, d: real): real {
    if d > 0.0 then Times(d, Softplus(m, m.Band())) else Times(d, Spare(m))
  }

  /** The most that a schedule of recalibrations adds to the exposure. */
  function Drift(m: Math, b: real, sizes: seq<real>): real {
    if sizes == [] then 0.0
    else
      var front := sizes[..|sizes| - 1];
      Drift(m, b, front) + Growth(m, sizes[|sizes| - 1] - Ahead(b, front, |front|))
  }

  /** The largest loss of a run with this schedule. */
  function WorstLoss(m: Math, b: real, sizes: seq<real>): real {
    Subsidy(m, 2, b) + Drift(m, b, sizes) - Times(Ahead(b, sizes, |sizes|), Spare(m))
  }

  lemma {:induction false} DriftSnoc(m: Math, b: real, sizes: seq<real>, size: real)
    ensures Drift(m, b, sizes + [size]) == Drift(m, b, sizes) + Growth(m, size - Ahead(b, sizes, |sizes|))
  {
    assert (sizes + [size])[..|sizes|] == sizes;
  }

  lemma TimesOrder(d: real, x: real, y: real)
    requires x <= y
    ensures d >= 0.0 ==> Times(d, x) <= Times(d, y)
    ensures d <= 0.0 ==> Times(d, y) <= Times(d, x)
  {
    if d >= 0.0 {
      MulMonotone(x, y, d);
    } else {
      MulMonotone(x, y, -d);
      assert Times(-d, x) == -Times(d, x) && Times(-d, y) == -Times(d, y);
    }
  }

  lemma {:induction false} GrowthIsMost(m: Math, d: real, x: real)
    requires m.Lawful() && -m.Band() <= x <= m.Band()
    ensures Times(d, Softplus(m, x)) <= Growth(m, d)
  {
    SoftplusIncreases(m, -m.Band(), x);
    SoftplusIncreases(m, x, m.Band());
    TimesOrder(d, Spare(m), Softplus(m, x));
    TimesOrder(d, Softplus(m, x), Softplus(m, m.Band()));
  }

  lemma {:induction false} ExposureSnoc(m: Math, b: real, ops: seq<Op>, op: Op)
    requires m.Lawful() && b > 0.0
    ensures var p := Run(m, Fresh(b), ops);
      Exposure(m, Fresh(b), ops + [op]) == Exposure(m, Fresh(b), ops) +
        if op.Recalibrate? && op.Accepted() then Times(op.newB - p.b, Softplus(m, p.Imbalance())) else 0.0
  {
    Extend(m, Fresh(b), ops, op);
    RunFollowsSchedule(m, b, ops);
    ExposureStep(m, Run(m, Fresh(b), ops), op);
  }

  lemma {:induction false} FreshRunKeepsTheBand(m: Math, b: real, ops: seq<Op>)
    requires m.Lawful() && b > 0.0 && OnlySetsPrices(ops)
    ensures Run(m, Fresh(b), ops).InBand(m)
  {
    FreshIsInBand(m, Fresh(b));
    RunKeepsTheBand(m, Fresh(b), ops);
  }

  lemma {:induction false} ExposureIsAtMost(m: Math, b: real, ops: seq<Op>)
    requires m.Lawful() && b > 0.0 && OnlySetsPrices(ops)
    ensures Exposure(m, Fresh(b), ops) <= Subsidy(m, 2, b) + Drift(m, b, Schedule(ops))
  {
    if ops == [] {
      FreshCost(m, b);
    } else {
      var front, last := ops[..|ops| - 1], ops[|ops| - 1];
      assert front + [last] == ops;
      ExposureIsAtMost(m, b, front);
      ExposureGrows(m, b, front, last);
    }
  }

  lemma ScheduleExtends(ops: seq<Op>, op: Op)
    ensures Schedule(ops + [op]) ==
      if op.Recalibrate? && op.Accepted() then Schedule(ops) + [op.newB] else Schedule(ops)
  {
    assert (ops + [op])[..|ops|] == ops;
  }

  /** One more size, reached from somewhere in the band. */
  lemma {:induction false} ResizedWithin(m: Math, b: real, sizes: seq<real>, size: real, x: real, before: real)
    requires m.Lawful() && -m.Band() <= x <= m.Band()
    requires before <= Subsidy(m, 2, b) + Drift(m, b, sizes)
    ensures before + Times(size - Ahead(b, sizes, |sizes|), Softplus(m, x)) <=
      Subsidy(m, 2, b) + Drift(m, b, sizes + [size])
  {
    GrowthIsMost(m, size - Ahead(b, sizes, |sizes|), x);
    DriftSnoc(m, b, sizes, size);
  }

  lemma {:induction false} ExposureGrows(m: Math, b: real, front: seq<Op>, last: Op)
    requires m.Lawful() && b > 0.0 && OnlySetsPrices(front)
    requires Exposure(m, Fresh(b), front) <= Subsidy(m, 2, b) + Drift(m, b, Schedule(front))
    ensures Exposure(m, Fresh(b), front + [last]) <= Subsidy(m, 2, b) + Drift(m, b, Schedule(front + [last]))
  {
    ExposureSnoc(m, b, front, last);
    ScheduleExtends(front, last);
    if last.Recalibrate? && last.Accepted() {
      FreshRunKeepsTheBand(m, b, front);
      RunFollowsSchedule(m, b, front);
      ResizedWithin(m, b, Schedule(front), last.newB, Run(m, Fresh(b), front).Imbalance(),
        Exposure(m, Fresh(b), front));
    }
  }

  // ---------------------------------------------------------------------------------- the loss

  /** What the exposure leaves once the outcome pays: least at the ends of the band. */
  lemma {:induction false} PayoutLeaves(m: Math, p: Position)
    requires m.Lawful() && p.b > 0.0 && p.qNo == 0.0
    ensures p.CostValue(m) - p.qYes == Times(p.b, Softplus(m, -p.Imbalance()))
    ensures p.CostValue(m) - p.qNo == Times(p.b, Softplus(m, p.Imbalance()))
  {
    var x := p.Imbalance();
    IsAt(p);
    CostAt(m, p.b, x);
    SoftplusReflects(m, x);
    SplitSum(p.b, x, Softplus(m, -x));
  }

  lemma SplitSum(b: real, x: real, y: real)
    ensures Times(b, x + y) == Times(b, x) + Times(b, y)
  {
  }

  lemma {:induction false} LossIsAtMost(m: Math, b: real, ops: seq<Op>)
    requires m.Lawful() && b > 0.0 && OnlySetsPrices(ops)
    ensures LossWithin(m, b, ops, WorstLoss(m, b, Schedule(ops)))
  {
    var p := Run(m, Fresh(b), ops);
    ExposureIsAtMost(m, b, ops);
    FreshRunKeepsTheBand(m, b, ops);
    RunFollowsSchedule(m, b, ops);
    PayoutLeaves(m, p);
    SoftplusIncreases(m, -m.Band(), p.Imbalance());
    SoftplusIncreases(m, -m.Band(), -p.Imbalance());
    TimesOrder(p.b, Spare(m), Softplus(m, p.Imbalance()));
    TimesOrder(p.b, Spare(m), Softplus(m, -p.Imbalance()));
  }

  /** Move to an end of the band: the exposure stays. */
  lemma {:induction false} MoveToEnd(m: Math, b: real, ops: seq<Op>, up: bool) returns (all: seq<Op>)
    requires m.Lawful() && b > 0.0 && OnlySetsPrices(ops)
    ensures OnlySetsPrices(all) && Schedule(all) == Schedule(ops)
    ensures Exposure(m, Fresh(b), all) == Exposure(m, Fresh(b), ops)
    ensures Run(m, Fresh(b), all).Imbalance() == if up then m.Band() else -m.Band()
  {
    var target := if up then 1.0 else 0.0;
    all := ops + [Move(target)];
    FreshRunKeepsTheBand(m, b, ops);
    Extend(m, Fresh(b), ops, Move(target));
    ScheduleExtends(ops, Move(target));
    ExposureSnoc(m, b, ops, Move(target));
    MoveLands(m, Run(m, Fresh(b), ops), target);
    m.BandIsPositive();
  }

  lemma {:induction false} Resize(m: Math, b: real, ops: seq<Op>, size: real, x: real) returns (all: seq<Op>)
    requires m.Lawful() && b > 0.0 && OnlySetsPrices(ops) && size > 0.0
    requires Run(m, Fresh(b), ops).Imbalance() == x
    ensures OnlySetsPrices(all) && Schedule(all) == Schedule(ops) + [size]
    ensures Exposure(m, Fresh(b), all) == Exposure(m, Fresh(b), ops) +
      Times(size - Ahead(b, Schedule(ops), |Schedule(ops)|), Softplus(m, x))
  {
    all := ops + [Op.Recalibrate(size)];
    RunFollowsSchedule(m, b, ops);
    ExposureSnoc(m, b, ops, Op.Recalibrate(size));
    ScheduleExtends(ops, Op.Recalibrate(size));
  }

  /** Move to the end of the band where the next size costs most, then recalibrate. */
  lemma {:induction false} SwingAcross(m: Math, b: real, ops: seq<Op>, sizes: seq<real>, size: real)
    returns (all: seq<Op>)
    requires m.Lawful() && b > 0.0 && OnlySetsPrices(ops) && Schedule(ops) == sizes && size > 0.0
    ensures OnlySetsPrices(all) && Schedule(all) == sizes + [size]
    ensures Exposure(m, Fresh(b), all) ==
      Exposure(m, Fresh(b), ops) + Growth(m, size - Ahead(b, sizes, |sizes|))
  {
    var up := size > Ahead(b, sizes, |sizes|);
    var moved := MoveToEnd(m, b, ops, up);
    all := Resize(m, b, moved, size, if up then m.Band() else -m.Band());
  }

  /** A run of largest exposure. */
  lemma {:induction false} WorstRun(m: Math, b: real, sizes: seq<real>) returns (ops: seq<Op>)
    requires m.Lawful() && b > 0.0
    requires forall i :: 0 <= i < |sizes| ==> sizes[i] > 0.0
    ensures OnlySetsPrices(ops) && Schedule(ops) == sizes
    ensures Exposure(m, Fresh(b), ops) == Subsidy(m, 2, b) + Drift(m, b, sizes)
  {
    if sizes == [] {
      ops := [];
      FreshCost(m, b);
    } else {
      var front, size := sizes[..|sizes| - 1], sizes[|sizes| - 1];
      assert front + [size] == sizes;
      var before := WorstRun(m, b, front);
      ops := SwingAcross(m, b, before, front, size);
    }
  }

  lemma {:induction false} WorstIsReached(m: Math, b: real, sizes: seq<real>) returns (ops: seq<Op>)
    requires m.Lawful() && b > 0.0
    requires forall i :: 0 <= i < |sizes| ==> sizes[i] > 0.0
    ensures OnlySetsPrices(ops) && Schedule(ops) == sizes
    ensures Run(m, Fresh(b), ops).qYes - TotalPayment(m, Fresh(b), ops) == WorstLoss(m, b, sizes)
  {
    var before := WorstRun(m, b, sizes);
    ops := MoveToEnd(m, b, before, true);
    RunFollowsSchedule(m, b, ops);
    PayoutLeaves(m, Run(m, Fresh(b), ops));
  }

  /** Every run of moves, steps and recalibrations with this schedule loses at most `bound`. */
  ghost predicate SignalsStayWithin(m: Math, b: real, sizes: seq<real>, bound: real)
    requires b > 0.0
  {
    forall ops :: OnlySetsPrices(ops) && Schedule(ops) == sizes ==> LossWithin(m, b, ops, bound)
  }

  /**
   * The exact maximum: runs that only move, step and recalibrate, in this schedule, stay within a
   * bound exactly when it is at least `WorstLoss`, and some run reaches that.
   */
  lemma {:induction false} SignalsStayWithinExactlyWhen(m: Math, b: real, sizes: seq<real>, bound: real)
    requires m.Lawful() && b > 0.0
    requires forall i :: 0 <= i < |sizes| ==> sizes[i] > 0.0
    ensures SignalsStayWithin(m, b, sizes, bound) <==> WorstLoss(m, b, sizes) <= bound
  {
    if WorstLoss(m, b, sizes) <= bound {
      forall ops | OnlySetsPrices(ops) && Schedule(ops) == sizes
        ensures LossWithin(m, b, ops, bound)
      {
        LossIsAtMost(m, b, ops);
      }
    } else {
      var ops := WorstIsReached(m, b, sizes);
    }
  }

  /** The opening subsidy covers them exactly when the drift is no more than what the last size has to spare. */
  lemma {:induction false} OpeningSubsidyCoversSignalsExactlyWhen(m: Math, b: real, sizes: seq<real>)
    requires m.Lawful() && b > 0.0
    requires forall i :: 0 <= i < |sizes| ==> sizes[i] > 0.0
    ensures SignalsStayWithin(m, b, sizes, Subsidy(m, 2, b))
      <==> Drift(m, b, sizes) <= Times(Ahead(b, sizes, |sizes|), Spare(m))
  {
    SignalsStayWithinExactlyWhen(m, b, sizes, Subsidy(m, 2, b));
  }

  lemma {:induction false} OneDrift(m: Math, b: real, newB: real)
    ensures Drift(m, b, [newB]) == Growth(m, newB - b)
  {
    assert [] + [newB] == [newB];
    DriftSnoc(m, b, [], newB);
  }

  lemma RaiseArithmetic(b: real, newB: real, band: real, kept: real)
    requires b > 0.0 && newB > 0.0 && band > 0.0 && kept > 0.0
    ensures newB > b ==>
      (Times(newB - b, band + kept) <= Times(newB, kept) <==> Times(newB - b, band) <= Times(b, kept))
    ensures newB <= b ==> Times(newB - b, kept) <= Times(newB, kept) && Times(newB - b, band) <= 0.0 <= Times(b, kept)
  {
    assert (newB - b) * (band + kept) == (newB - b) * band + newB * kept - b * kept;
    MulMonotone(newB - b, newB, kept);
    SameSign(b, kept);
    if newB <= b {
      MulMonotone(newB - b, 0.0, band);
    }
  }

  /** For one recalibration: it may raise `b`, but by no more than the fraction `Spare / Band`. */
  lemma {:induction false} OneRaiseIsCoveredExactlyWhen(m: Math, b: real, newB: real)
    requires m.Lawful() && b > 0.0 && newB > 0.0
    ensures SignalsStayWithin(m, b, [newB], Subsidy(m, 2, b))
      <==> Times(newB - b, m.Band()) <= Times(b, Spare(m))
  {
    OpeningSubsidyCoversSignalsExactlyWhen(m, b, [newB]);
    OneDrift(m, b, newB);
    SoftplusReflects(m, m.Band());
    m.BandIsPositive();
    SoftplusBounds(m, -m.Band());
    RaiseArithmetic(b, newB, m.Band(), Spare(m));
  }

  lemma CurrentArithmetic(b: real, newB: real, band: real, kept: real, ln2: real)
    ensures Times(b, ln2) + Times(newB - b, band + kept) - Times(newB, kept) <= Times(newB, ln2)
      <==> Times(newB - b, band + kept - ln2) <= Times(newB, kept)
    ensures Times(b, ln2) + Times(newB - b, kept) - Times(newB, kept) <= Times(newB, ln2)
      <==> Times(b - newB, ln2) <= Times(b, kept)
  {
    assert (newB - b) * (band + kept - ln2) == (newB - b) * (band + kept) - newB * ln2 + b * ln2;
    assert (newB - b) * kept == newB * kept - b * kept && (b - newB) * ln2 == b * ln2 - newB * ln2;
  }

  /**
   * The stated maximum at the new size covers one recalibration exactly when `b` moved little
   * enough: up against what the new size has to spare, or down against what the old one had.
   */
  lemma {:induction false} CurrentSubsidyCoversOneExactlyWhen(m: Math, b: real, newB: real)
    requires m.Lawful() && b > 0.0 && newB > 0.0
    ensures SignalsStayWithin(m, b, [newB], Subsidy(m, 2, newB))
      <==> if newB > b then Times(newB - b, m.Band() + Spare(m) - m.Ln(2.0)) <= Times(newB, Spare(m))
           else Times(b - newB, m.Ln(2.0)) <= Times(b, Spare(m))
  {
    SignalsStayWithinExactlyWhen(m, b, [newB], Subsidy(m, 2, newB));
    OneDrift(m, b, newB);
    SoftplusReflects(m, m.Band());
    CurrentArithmetic(b, newB, m.Band(), Spare(m), m.Ln(2.0));
  }

  // ------------------------------------------------------------------------------- a witness

  lemma {:induction false} BandIsWide(m: Math)
    requires m.Lawful()
    ensures 2.0 * m.Ln(2.0) < m.Band() && m.Band() > 0.0
  {
    m.LnOfProduct(2.0, 2.0, 4.0);
    assert (1.0 - EPS) / EPS == 999999.0;
    m.LnCompares(4.0, 999999.0);
    m.BandIsPositive();
  }

  lemma DoubledOwes(b: real, band: real, soft: real, ln2: real)
    requires b > 0.0 && soft <= band + ln2 && 2.0 * ln2 < band
    ensures Times(2.0 * b, band) - (Times(b, soft) - Times(b, ln2)) > Times(2.0 * b, ln2)
  {
    var spare := 2.0 * (band - ln2) - (soft - ln2);
    SameSign(b, spare);
    assert Times(b, spare) == 2.0 * b * band - 2.0 * b * ln2 - (b * soft - b * ln2);
  }

  /**
   * Signals alone break the bound too, inside the clamp band: move up to the ceiling, double `b`,
   * and the maker owes more than `b ln 2` at the new `b`.
   */
  lemma {:induction false} RecalibrationVoidsTheBound(m: Math, b: real)
    requires m.Lawful() && b > 0.0
    ensures var ops := [Move(1.0)] + [Op.Recalibrate(2.0 * b)];
      && Run(m, Fresh(b), ops).b == 2.0 * b
      && !LossWithin(m, b, ops, Subsidy(m, 2, 2.0 * b))
  {
    var s, band := Fresh(b), m.Band();
    var full := Next(m, s, Move(1.0));
    Extend(m, s, [], Move(1.0));
    assert [] + [Move(1.0)] == [Move(1.0)];
    Extend(m, s, [Move(1.0)], Op.Recalibrate(2.0 * b));
    FreshIsInBand(m, s);
    MoveLands(m, s, 1.0);
    m.BandIsPositive();
    IsAt(full);
    RecalibratedAt(full, 2.0 * b);
    CostAt(m, b, band);
    FreshCost(m, b);
    BandIsWide(m);
    SoftplusBounds(m, band);
    DoubledOwes(b, band, Softplus(m, band), m.Ln(2.0));
  }
}
