/** What runs of the binary market cost its maker, and which recalibrations keep the stated maximum loss. */
module MakerLoss {
  import opened Transcendental
  import opened Lmsr
  import opened BinaryMarket

  /** At a fixed `b` everything paid is the change of the cost function over the whole run. */
  lemma {:induction false} PaymentsTelescopeOverRuns(m: Math, s: Position, ops: seq<Op>)
    requires m.Lawful() && s.b > 0.0
    requires forall i :: 0 <= i < |ops| ==> !ops[i].Recalibrate?
    ensures Run(m, s, ops).b == s.b && Run(m, s, ops).qNo == s.qNo
    ensures TotalPayment(m, s, ops) == Run(m, s, ops).CostValue(m) - s.CostValue(m)
  {
    if ops != [] {
      PaymentsTelescopeOverRuns(m, s, ops[..|ops| - 1]);
    }
  }

  lemma {:induction false} CostCoversBothLegs(m: Math, p: Position)
    requires m.Lawful() && p.b > 0.0
    ensures p.qYes <= p.CostValue(m) && p.qNo <= p.CostValue(m)
  {
    var q := [p.qYes, p.qNo];
    assert q[0] == p.qYes && q[1] == p.qNo;
    CostBounds(m, q, p.b);
  }

  // ------------------------------------------------------------------------ one-legged markets

  /** The cost of a market at logit `x`, per unit of liquidity. */
  function Softplus(m: Math, x: real): real {
    m.Ln(1.0 + m.Exp(x))
  }

  lemma {:induction false} SoftplusBounds(m: Math, x: real)
    requires m.Lawful()
    ensures Softplus(m, x) > 0.0 && Softplus(m, x) > x
    ensures Softplus(m, 0.0) == m.Ln(2.0) > 0.0
    ensures x >= 0.0 ==> Softplus(m, x) <= x + m.Ln(2.0)
  {
    m.AtZero();
    m.Positive(x);
    m.LnCompares(1.0, 1.0 + m.Exp(x));
    m.LnCompares(1.0, 2.0);
    m.LnCompares(m.Exp(x), 1.0 + m.Exp(x));
    m.Inverse(x);
    if x >= 0.0 {
      m.Compares(0.0, x);
      m.LnOfProduct(m.Exp(x), 2.0, 2.0 * m.Exp(x));
      m.LnCompares(1.0 + m.Exp(x), 2.0 * m.Exp(x));
    }
  }

  /** Deep enough a short costs next to nothing more. */
  lemma {:induction false} SoftplusVanishes(m: Math, bound: real) returns (x: real)
    requires m.Lawful() && bound > 0.0
    ensures Softplus(m, x) < bound
  {
    m.AtZero();
    m.Compares(0.0, bound);
    var y := (m.Exp(bound) - 1.0) / 2.0;
    x := m.Ln(y);
    m.Restores(y);
    m.LnCompares(1.0 + y, m.Exp(bound));
    m.Inverse(bound);
  }

  /** All imbalance on the YES leg, at logit `x`. */
  function At(b: real, x: real): Position {
    Position(b, Times(b, x), 0.0)
  }

  /** No shares out. */
  function Fresh(b: real): (p: Position)
    ensures p == At(b, 0.0)
  {
    Position(b, 0.0, 0.0)
  }

  lemma {:induction false} CostAt(m: Math, b: real, x: real)
    requires m.Lawful() && b > 0.0
    ensures At(b, x).CostValue(m) == Times(b, Softplus(m, x))
  {
    var s := Scaled([Times(b, x), 0.0], b);
    DivideProduct(x, b);
    assert s == [x, 0.0] && s[..1] == [x] && s[..1][..0] == [];
    m.AtZero();
    assert SumExp(m, s[..1], 0.0) == m.Exp(x);
    assert SumExp(m, s, 0.0) == 1.0 + m.Exp(x);
  }

  lemma {:induction false} FreshCost(m: Math, b: real)
    requires m.Lawful() && b > 0.0
    ensures Fresh(b).CostValue(m) == Subsidy(m, 2, b)
  {
    CostAt(m, b, 0.0);
    SoftplusBounds(m, 0.0);
  }

  lemma UndoDivide(x: real, b: real)
    requires b > 0.0
    ensures Times(b, x / b) == x
  {
  }

  lemma {:induction false} IsAt(p: Position)
    requires p.b > 0.0 && p.qNo == 0.0
    ensures p == At(p.b, p.Imbalance())
  {
    UndoDivide(p.qYes, p.b);
  }

  lemma Rescale(q: real, b: real, newB: real)
    requires b > 0.0
    ensures q * (newB / b) == Times(newB, q / b)
  {
    var x, k := q / b, newB / b;
    assert x * b == q && k * b == newB;
    assert q * k == x * b * k && newB * x == k * b * x;
  }

  lemma {:induction false} RecalibratedAt(p: Position, newB: real)
    requires p.b > 0.0 && p.qNo == 0.0
    ensures Recalibrated(p, newB) == At(newB, p.Imbalance())
  {
    Rescale(p.qYes, p.b, newB);
  }

  // -------------------------------------------------------------------- recalibration schedules

  /** The liquidities a run recalibrates to. */
  function Schedule(ops: seq<Op>): (sizes: seq<real>)
    ensures forall i :: 0 <= i < |sizes| ==> sizes[i] > 0.0
  {
    if ops == [] then []
    else
      var last := ops[|ops| - 1];
      Schedule(ops[..|ops| - 1]) + if last.Recalibrate? && last.Accepted() then [last.newB] else []
  }

  /** The liquidity ahead of recalibration `i`. */
  function Ahead(b: real, sizes: seq<real>, i: nat): real
    requires i <= |sizes|
  {
    if i == 0 then b else sizes[i - 1]
  }

  predicate NeverRaises(b: real, sizes: seq<real>) {
    forall i :: 0 <= i < |sizes| ==> sizes[i] <= Ahead(b, sizes, i)
  }

  lemma {:induction false} RunFollowsSchedule(m: Math, b: real, ops: seq<Op>)
    requires b > 0.0
    ensures Run(m, Fresh(b), ops).b == Ahead(b, Schedule(ops), |Schedule(ops)|)
    ensures Run(m, Fresh(b), ops).qNo == 0.0
  {
    if ops != [] {
      RunFollowsSchedule(m, b, ops[..|ops| - 1]);
    }
  }

  /** What the maker owes at most, whoever wins. */
  function Exposure(m: Math, s: Position, ops: seq<Op>): real
    requires s.b > 0.0
  {
    Run(m, s, ops).CostValue(m) - TotalPayment(m, s, ops)
  }

  lemma {:induction false} ExposureStep(m: Math, p: Position, op: Op)
    requires m.Lawful() && p.b > 0.0 && p.qNo == 0.0
    ensures Next(m, p, op).CostValue(m) - Payment(m, p, op) - p.CostValue(m) ==
      if op.Recalibrate? && op.Accepted() then Times(op.newB - p.b, Softplus(m, p.Imbalance())) else 0.0
  {
    if op.Recalibrate? && op.Accepted() {
      var x := p.Imbalance();
      IsAt(p);
      RecalibratedAt(p, op.newB);
      CostAt(m, p.b, x);
      CostAt(m, op.newB, x);
    }
  }

  lemma NonPositiveProduct(x: real, y: real)
    requires x <= 0.0 && y >= 0.0
    ensures Times(x, y) <= 0.0
  {
  }

  lemma {:induction false} ScheduleSnoc(b: real, ops: seq<Op>)
    requires ops != [] && NeverRaises(b, Schedule(ops))
    ensures var front, last := Schedule(ops[..|ops| - 1]), ops[|ops| - 1];
      && NeverRaises(b, front)
      && (last.Recalibrate? && last.Accepted() ==> last.newB <= Ahead(b, front, |front|))
  {
    var front, all := Schedule(ops[..|ops| - 1]), Schedule(ops);
    assert forall i :: 0 <= i <= |front| ==> Ahead(b, front, i) == Ahead(b, all, i);
    forall i | 0 <= i < |front|
      ensures front[i] <= Ahead(b, front, i)
    {
      assert all[i] <= Ahead(b, all, i);
    }
    if |all| > |front| {
      assert all[|front|] <= Ahead(b, all, |front|);
    }
  }

  /** Trades leave the exposure alone, and lowering `b` can only shrink it. */
  lemma {:induction false} ExposureFalls(m: Math, b: real, ops: seq<Op>)
    requires m.Lawful() && b > 0.0 && NeverRaises(b, Schedule(ops))
    ensures Exposure(m, Fresh(b), ops) <= Subsidy(m, 2, b)
  {
    if ops == [] {
      FreshCost(m, b);
    } else {
      var front, last := ops[..|ops| - 1], ops[|ops| - 1];
      ScheduleSnoc(b, ops);
      ExposureFalls(m, b, front);
      RunFollowsSchedule(m, b, front);
      var p := Run(m, Fresh(b), front);
      ExposureStep(m, p, last);
      if last.Recalibrate? && last.Accepted() {
        SoftplusBounds(m, p.Imbalance());
        NonPositiveProduct(last.newB - p.b, Softplus(m, p.Imbalance()));
      }
    }
  }

  /** Opened at `b` with no shares out, the maker's loss on either outcome after this run is within `bound`. */
  predicate LossWithin(m: Math, b: real, ops: seq<Op>, bound: real)
    requires b > 0.0
  {
    var end, paid := Run(m, Fresh(b), ops), TotalPayment(m, Fresh(b), ops);
    end.qYes - paid <= bound && end.qNo - paid <= bound
  }

  lemma {:induction false} LossIsCovered(m: Math, b: real, ops: seq<Op>)
    requires m.Lawful() && b > 0.0 && NeverRaises(b, Schedule(ops))
    ensures LossWithin(m, b, ops, Subsidy(m, 2, b))
  {
    ExposureFalls(m, b, ops);
    CostCoversBothLegs(m, Run(m, Fresh(b), ops));
  }

  lemma {:induction false} NoSchedule(ops: seq<Op>)
    requires forall i :: 0 <= i < |ops| ==> !ops[i].Recalibrate?
    ensures Schedule(ops) == []
  {
    if ops != [] {
      NoSchedule(ops[..|ops| - 1]);
    }
  }

  /** Opened at zero and never recalibrated, the maker's loss on either outcome is at most `b ln 2`. */
  lemma {:induction false} RunLossIsBounded(m: Math, b: real, ops: seq<Op>)
    requires m.Lawful() && b > 0.0
    requires forall i :: 0 <= i < |ops| ==> !ops[i].Recalibrate?
    ensures LossWithin(m, b, ops, Subsidy(m, 2, b))
  {
    NoSchedule(ops);
    LossIsCovered(m, b, ops);
  }

  // ------------------------------------------------------------------------ runs that lose more

  lemma Extend(m: Math, s: Position, ops: seq<Op>, op: Op)
    requires s.b > 0.0
    ensures Run(m, s, ops + [op]) == Next(m, Run(m, s, ops), op)
    ensures TotalPayment(m, s, ops + [op]) == TotalPayment(m, s, ops) + Payment(m, Run(m, s, ops), op)
    ensures Schedule(ops + [op]) == Schedule(ops) + if op.Recalibrate? && op.Accepted() then [op.newB] else []
  {
    assert (ops + [op])[..|ops|] == ops;
  }

  lemma {:induction false} RunConcat(m: Math, s: Position, ops: seq<Op>, more: seq<Op>)
    requires s.b > 0.0
    ensures Run(m, s, ops + more) == Run(m, Run(m, s, ops), more)
  {
    if more == [] {
      assert ops + more == ops;
    } else {
      RunConcat(m, s, ops, more[..|more| - 1]);
      assert (ops + more)[..|ops + more| - 1] == ops + more[..|more| - 1];
    }
  }

  lemma {:induction false} PaymentConcat(m: Math, s: Position, ops: seq<Op>, more: seq<Op>)
    requires s.b > 0.0
    ensures TotalPayment(m, s, ops + more) == TotalPayment(m, s, ops) + TotalPayment(m, Run(m, s, ops), more)
  {
    if more == [] {
      assert ops + more == ops;
    } else {
      var front := more[..|more| - 1];
      PaymentConcat(m, s, ops, front);
      RunConcat(m, s, ops, front);
      assert (ops + more)[..|ops + more| - 1] == ops + front;
    }
  }

  lemma {:induction false} ScheduleConcat(ops: seq<Op>, more: seq<Op>)
    ensures Schedule(ops + more) == Schedule(ops) + Schedule(more)
  {
    if more == [] {
      assert ops + more == ops;
    } else {
      ScheduleConcat(ops, more[..|more| - 1]);
      assert (ops + more)[..|ops + more| - 1] == ops + more[..|more| - 1];
    }
  }

  function Recalibrations(sizes: seq<real>): seq<Op> {
    seq(|sizes|, i requires 0 <= i < |sizes| => Op.Recalibrate(sizes[i]))
  }

  lemma {:induction false} ScheduleOf(sizes: seq<real>)
    requires forall i :: 0 <= i < |sizes| ==> sizes[i] > 0.0
    ensures Schedule(Recalibrations(sizes)) == sizes
  {
    if sizes != [] {
      var ops := Recalibrations(sizes);
      ScheduleOf(sizes[..|sizes| - 1]);
      assert ops[..|ops| - 1] == Recalibrations(sizes[..|sizes| - 1]);
    }
  }

  lemma RecalibratedFlat(p: Position, newB: real)
    requires p.b > 0.0
    ensures p.qYes == p.qNo ==> Recalibrated(p, newB) == Position(newB, 0.0, 0.0)
  {
  }

  /** Recalibrating costs nothing, and leaves a flat market flat. */
  lemma {:induction false} RecalibrationsAreFree(m: Math, s: Position, sizes: seq<real>)
    requires s.b > 0.0 && s.qNo == 0.0
    requires forall i :: 0 <= i < |sizes| ==> sizes[i] > 0.0
    ensures TotalPayment(m, s, Recalibrations(sizes)) == 0.0
    ensures var end := Run(m, s, Recalibrations(sizes));
      end.qNo == 0.0 && end.b == Ahead(s.b, sizes, |sizes|) && (s.qYes == 0.0 ==> end.qYes == 0.0)
  {
    if sizes != [] {
      var front, last := sizes[..|sizes| - 1], sizes[|sizes| - 1];
      RecalibrationsAreFree(m, s, front);
      Extend(m, s, Recalibrations(front), Op.Recalibrate(last));
      RecalibratedFlat(Run(m, s, Recalibrations(front)), last);
      assert Recalibrations(sizes) == Recalibrations(front) + [Op.Recalibrate(last)];
    }
  }

  /** Go long to logit `x`, recalibrate, and sell out again. */
  function Spike(b: real, newB: real, x: real): seq<Op> {
    [Buy(Times(b, x))] + [Op.Recalibrate(newB)] + [Buy(-Times(newB, x))]
  }

  lemma {:induction false} SpikePays(m: Math, b: real, newB: real, x: real)
    requires m.Lawful() && b > 0.0 && newB > 0.0
    ensures Schedule(Spike(b, newB, x)) == [newB]
    ensures Run(m, Fresh(b), Spike(b, newB, x)) == Fresh(newB)
    ensures TotalPayment(m, Fresh(b), Spike(b, newB, x)) == Times(b - newB, Softplus(m, x) - m.Ln(2.0))
  {
    var s := Fresh(b);
    Extend(m, s, [], Buy(Times(b, x)));
    assert [] + [Buy(Times(b, x))] == [Buy(Times(b, x))];
    Extend(m, s, [Buy(Times(b, x))], Op.Recalibrate(newB));
    Extend(m, s, [Buy(Times(b, x))] + [Op.Recalibrate(newB)], Buy(-Times(newB, x)));
    DivideProduct(x, b);
    RecalibratedAt(At(b, x), newB);
    FreshCost(m, b);
    CostAt(m, b, x);
    CostAt(m, newB, x);
    FreshCost(m, newB);
    SpikeSum(b, newB, Softplus(m, x), m.Ln(2.0));
  }

  lemma SpikeSum(b: real, newB: real, soft: real, ln2: real)
    ensures Times(b, soft) - Times(b, ln2) + (Times(newB, ln2) - Times(newB, soft)) == Times(b - newB, soft - ln2)
  {
  }

  lemma NegatedProduct(x: real, y: real, z: real)
    requires y == -x
    ensures Times(y, z) == -Times(x, z)
  {
  }

  lemma {:induction false} ThreePieces(m: Math, b: real, mid: real, high: real,
      first: seq<Op>, spike: seq<Op>, rest: seq<Op>)
    requires b > 0.0 && mid > 0.0 && high > 0.0
    requires Run(m, Fresh(b), first) == Fresh(mid) && TotalPayment(m, Fresh(b), first) == 0.0
    requires Run(m, Fresh(mid), spike) == Fresh(high)
    requires TotalPayment(m, Fresh(high), rest) == 0.0
    ensures Run(m, Fresh(b), first + (spike + rest)) == Run(m, Fresh(high), rest)
    ensures TotalPayment(m, Fresh(b), first + (spike + rest)) == TotalPayment(m, Fresh(mid), spike)
    ensures Schedule(first + (spike + rest)) == Schedule(first) + (Schedule(spike) + Schedule(rest))
  {
    RunConcat(m, Fresh(b), first, spike + rest);
    RunConcat(m, Fresh(mid), spike, rest);
    PaymentConcat(m, Fresh(b), first, spike + rest);
    PaymentConcat(m, Fresh(mid), spike, rest);
    ScheduleConcat(first, spike + rest);
    ScheduleConcat(spike, rest);
  }

  lemma {:induction false} StayFlat(m: Math, b: real, sizes: seq<real>) returns (ops: seq<Op>)
    requires m.Lawful() && b > 0.0
    requires forall i :: 0 <= i < |sizes| ==> sizes[i] > 0.0
    ensures Schedule(ops) == sizes
    ensures Ahead(b, sizes, |sizes|) > 0.0
    ensures Run(m, Fresh(b), ops) == Fresh(Ahead(b, sizes, |sizes|)) && TotalPayment(m, Fresh(b), ops) == 0.0
  {
    ops := Recalibrations(sizes);
    RecalibrationsAreFree(m, Fresh(b), sizes);
    ScheduleOf(sizes);
  }

  lemma {:induction false} SpikeAcross(m: Math, b: real, newB: real, x: real) returns (ops: seq<Op>)
    requires m.Lawful() && b > 0.0 && newB > 0.0
    ensures Schedule(ops) == [newB] && Run(m, Fresh(b), ops) == Fresh(newB)
    ensures TotalPayment(m, Fresh(b), ops) == Times(b - newB, Softplus(m, x) - m.Ln(2.0))
  {
    ops := Spike(b, newB, x);
    SpikePays(m, b, newB, x);
  }

  /** A flat market through the first sizes, a spike across the next, and flat through the rest. */
  lemma {:induction false} SpikeWithin(m: Math, b: real, before: seq<real>, size: real, after: seq<real>, x: real)
    returns (ops: seq<Op>)
    requires m.Lawful() && b > 0.0 && size > 0.0
    requires forall i :: 0 <= i < |before| ==> before[i] > 0.0
    requires forall i :: 0 <= i < |after| ==> after[i] > 0.0
    ensures Schedule(ops) == before + ([size] + after)
    ensures Run(m, Fresh(b), ops).qYes == 0.0
    ensures TotalPayment(m, Fresh(b), ops) ==
      Times(Ahead(b, before, |before|) - size, Softplus(m, x) - m.Ln(2.0))
  {
    var mid := Ahead(b, before, |before|);
    var first := StayFlat(m, b, before);
    var rest := StayFlat(m, size, after);
    var spike := SpikeAcross(m, mid, size, x);
    ops := first + (spike + rest);
    ThreePieces(m, b, mid, size, first, spike, rest);
  }

  /** One raise anywhere in the schedule, and the loss has no bound at all. */
  lemma {:induction false} RaiseLosesAnything(m: Math, b: real, sizes: seq<real>, j: nat, bound: real)
    returns (ops: seq<Op>)
    requires m.Lawful() && b > 0.0
    requires forall i :: 0 <= i < |sizes| ==> sizes[i] > 0.0
    requires j < |sizes| && sizes[j] > Ahead(b, sizes, j)
    ensures Schedule(ops) == sizes && !LossWithin(m, b, ops, bound)
  {
    var rise := sizes[j] - Ahead(b, sizes, j);
    var q := bound / rise;
    var x := q + m.Ln(2.0);
    ops := SpikeWithin(m, b, sizes[..j], sizes[j], sizes[j + 1..], x);
    assert sizes == sizes[..j] + ([sizes[j]] + sizes[j + 1..]);
    UndoDivide(bound, rise);
    SoftplusBounds(m, x);
    TimesIncreases(rise, q, Softplus(m, x) - m.Ln(2.0));
    NegatedProduct(rise, -rise, Softplus(m, x) - m.Ln(2.0));
  }

  /** A short deep enough, carried through a schedule that ends below `b`. */
  lemma {:induction false} LoweringLosesMore(m: Math, b: real, sizes: seq<real>) returns (x: real)
    requires m.Lawful() && b > 0.0
    requires forall i :: 0 <= i < |sizes| ==> sizes[i] > 0.0
    requires Ahead(b, sizes, |sizes|) < b
    ensures var ops := [Buy(Times(b, x))] + Recalibrations(sizes);
      Schedule(ops) == sizes && !LossWithin(m, b, ops, Subsidy(m, 2, Ahead(b, sizes, |sizes|)))
  {
    var end := Ahead(b, sizes, |sizes|);
    SoftplusBounds(m, 0.0);
    DividePositive(b - end, b);
    SameSign((b - end) / b, m.Ln(2.0));
    x := SoftplusVanishes(m, Times((b - end) / b, m.Ln(2.0)));
    CarriedThrough(m, b, sizes, x);
    ShortOwes(b, end, m.Ln(2.0), Softplus(m, x));
  }

  /** Buy up or down to logit `x`, then only recalibrate. */
  lemma {:induction false} CarriedThrough(m: Math, b: real, sizes: seq<real>, x: real)
    requires m.Lawful() && b > 0.0
    requires forall i :: 0 <= i < |sizes| ==> sizes[i] > 0.0
    ensures var ops := [Buy(Times(b, x))] + Recalibrations(sizes);
      && Schedule(ops) == sizes
      && Run(m, Fresh(b), ops) == At(Ahead(b, sizes, |sizes|), x)
      && TotalPayment(m, Fresh(b), ops) == Times(b, Softplus(m, x)) - Times(b, m.Ln(2.0))
  {
    var purchase, rest := [Buy(Times(b, x))], Recalibrations(sizes);
    Extend(m, Fresh(b), [], Buy(Times(b, x)));
    assert [] + purchase == purchase;
    RunConcat(m, Fresh(b), purchase, rest);
    PaymentConcat(m, Fresh(b), purchase, rest);
    ScheduleConcat(purchase, rest);
    ScheduleOf(sizes);
    RecalibrationsAreFree(m, At(b, x), sizes);
    RecalibrationsHold(m, At(b, x), sizes);
    DivideProduct(x, b);
    IsAt(Run(m, At(b, x), rest));
    CostAt(m, b, x);
    FreshCost(m, b);
  }

  lemma {:induction false} RecalibrationsHold(m: Math, s: Position, sizes: seq<real>)
    requires s.b > 0.0
    ensures Run(m, s, Recalibrations(sizes)).Imbalance() == s.Imbalance()
  {
    if sizes != [] {
      var front, last := sizes[..|sizes| - 1], sizes[|sizes| - 1];
      RecalibrationsHold(m, s, front);
      Extend(m, s, Recalibrations(front), Op.Recalibrate(last));
      assert Recalibrations(sizes) == Recalibrations(front) + [Op.Recalibrate(last)];
      if last > 0.0 {
        RecalibrationKeepsThePrice(Run(m, s, Recalibrations(front)), last);
      }
    }
  }

  lemma ShortOwes(b: real, end: real, ln2: real, soft: real)
    requires b > 0.0 && soft < Times((b - end) / b, ln2)
    ensures Times(b, ln2) - Times(b, soft) > Times(end, ln2)
  {
    MulMonotone(soft, (b - end) / b * ln2, b);
    assert (b - end) / b * b == b - end;
    assert (b - end) / b * ln2 * b == (b - end) * ln2;
  }

  // ----------------------------------------------------------------------------- the exact bounds

  /** Every run that recalibrates to these sizes, whatever it trades in between, loses at most `bound`. */
  ghost predicate AlwaysWithin(m: Math, b: real, sizes: seq<real>, bound: real)
    requires b > 0.0
  {
    forall ops :: Schedule(ops) == sizes ==> LossWithin(m, b, ops, bound)
  }

  /** The opening subsidy covers every run exactly when liquidity is never raised. */
  lemma {:induction false} OpeningSubsidyCoversExactlyWhen(m: Math, b: real, sizes: seq<real>)
    requires m.Lawful() && b > 0.0
    requires forall i :: 0 <= i < |sizes| ==> sizes[i] > 0.0
    ensures AlwaysWithin(m, b, sizes, Subsidy(m, 2, b)) <==> NeverRaises(b, sizes)
  {
    if NeverRaises(b, sizes) {
      forall ops | Schedule(ops) == sizes
        ensures LossWithin(m, b, ops, Subsidy(m, 2, b))
      {
        LossIsCovered(m, b, ops);
      }
    } else {
      var j :| 0 <= j < |sizes| && sizes[j] > Ahead(b, sizes, j);
      var ops := RaiseLosesAnything(m, b, sizes, j, Subsidy(m, 2, b));
    }
  }

  /** Wherever the schedule departs from `b`, some run loses more than `b ln 2` at the liquidity it ends with. */
  lemma {:induction false} DepartureLosesMore(m: Math, b: real, sizes: seq<real>) returns (ops: seq<Op>)
    requires m.Lawful() && b > 0.0
    requires forall i :: 0 <= i < |sizes| ==> sizes[i] > 0.0
    requires exists i :: 0 <= i < |sizes| && sizes[i] != b
    ensures Schedule(ops) == sizes && !LossWithin(m, b, ops, Subsidy(m, 2, Ahead(b, sizes, |sizes|)))
  {
    if NeverRaises(b, sizes) {
      EndsBelow(b, sizes);
      var x := LoweringLosesMore(m, b, sizes);
      ops := [Buy(Times(b, x))] + Recalibrations(sizes);
    } else {
      var j :| 0 <= j < |sizes| && sizes[j] > Ahead(b, sizes, j);
      ops := RaiseLosesAnything(m, b, sizes, j, Subsidy(m, 2, Ahead(b, sizes, |sizes|)));
    }
  }

  lemma {:induction false} ConstantIsCovered(m: Math, b: real, ops: seq<Op>)
    requires m.Lawful() && b > 0.0
    requires forall i :: 0 <= i < |Schedule(ops)| ==> Schedule(ops)[i] == b
    ensures LossWithin(m, b, ops, Subsidy(m, 2, Ahead(b, Schedule(ops), |Schedule(ops)|)))
  {
    LossIsCovered(m, b, ops);
  }

  /** The stated maximum loss at the liquidity in force covers every run exactly when that never changed. */
  lemma {:induction false} CurrentSubsidyCoversExactlyWhen(m: Math, b: real, sizes: seq<real>)
    requires m.Lawful() && b > 0.0
    requires forall i :: 0 <= i < |sizes| ==> sizes[i] > 0.0
    ensures AlwaysWithin(m, b, sizes, Subsidy(m, 2, Ahead(b, sizes, |sizes|)))
      <==> forall i :: 0 <= i < |sizes| ==> sizes[i] == b
  {
    if forall i :: 0 <= i < |sizes| ==> sizes[i] == b {
      forall ops | Schedule(ops) == sizes
        ensures LossWithin(m, b, ops, Subsidy(m, 2, Ahead(b, sizes, |sizes|)))
      {
        ConstantIsCovered(m, b, ops);
      }
    } else {
      var ops := DepartureLosesMore(m, b, sizes);
    }
  }

  lemma {:induction false} EndsBelow(b: real, sizes: seq<real>)
    requires NeverRaises(b, sizes)
    ensures Ahead(b, sizes, |sizes|) <= b
    ensures Ahead(b, sizes, |sizes|) == b ==> forall i :: 0 <= i < |sizes| ==> sizes[i] == b
  {
    if sizes != [] {
      var front := sizes[..|sizes| - 1];
      assert forall i :: 0 <= i <= |front| ==> Ahead(b, front, i) == Ahead(b, sizes, i);
      EndsBelow(b, front);
      assert sizes[|front|] <= Ahead(b, sizes, |front|);
    }
  }

  /** A long big enough, carried through one raise. */
  lemma {:induction false} RaiseAfterPurchase(m: Math, b: real, newB: real) returns (x: real)
    requires m.Lawful() && 0.0 < b < newB
    ensures !LossWithin(m, b, [Buy(Times(b, x))] + Recalibrations([newB]), Subsidy(m, 2, newB))
  {
    var rise, owed := newB - b, Times(newB, m.Ln(2.0)) + 1.0;
    SoftplusBounds(m, 0.0);
    SameSign(newB, m.Ln(2.0));
    x := LongEnough(rise, owed);
    CarriedThrough(m, b, [newB], x);
    SoftplusBounds(m, x);
    LongOwes(b, newB, m.Ln(2.0), Softplus(m, x), x);
  }

  lemma LongEnough(rise: real, owed: real) returns (x: real)
    requires rise > 0.0 && owed > 0.0
    ensures x > 0.0 && Times(rise, x) == owed
  {
    x := owed / rise;
    DividePositive(owed, rise);
    UndoDivide(owed, rise);
  }

  lemma {:induction false} PurchaseIsCovered(m: Math, b: real, shares: real)
    requires m.Lawful() && b > 0.0
    ensures LossWithin(m, b, [Buy(shares)] + Recalibrations([b]), Subsidy(m, 2, b))
  {
    UndoDivide(shares, b);
    CarriedThrough(m, b, [b], shares / b);
    LossIsCovered(m, b, [Buy(shares)] + Recalibrations([b]));
  }

  /** Even one purchase ahead of one recalibration tells: it stays within `newB ln 2` only at the same `b`. */
  lemma {:induction false} OnePurchaseTells(m: Math, b: real, newB: real)
    requires m.Lawful() && b > 0.0 && newB > 0.0
    ensures (forall shares :: LossWithin(m, b, [Buy(shares)] + Recalibrations([newB]), Subsidy(m, 2, newB)))
      <==> newB == b
  {
    if newB == b {
      forall shares
        ensures LossWithin(m, b, [Buy(shares)] + Recalibrations([newB]), Subsidy(m, 2, newB))
      {
        PurchaseIsCovered(m, b, shares);
      }
    } else if newB < b {
      var x := LoweringLosesMore(m, b, [newB]);
    } else {
      var x := RaiseAfterPurchase(m, b, newB);
    }
  }

  lemma LongOwes(b: real, newB: real, ln2: real, soft: real, x: real)
    requires b > 0.0 && soft <= x + ln2
    requires Times(newB - b, x) == Times(newB, ln2) + 1.0
    ensures Times(newB, x) - (Times(b, soft) - Times(b, ln2)) > Times(newB, ln2)
  {
    MulMonotone(soft, x + ln2, b);
    assert (x + ln2) * b == b * x + b * ln2;
    assert Times(newB - b, x) == newB * x - b * x;
  }
}
