/** Hanson's logarithmic market scoring rule over any number of outcomes. */
module Lmsr {
  import opened Wrappers
  import opened Transcendental

  predicate ValidState(q: seq<real>, b: real) {
    |q| >= 2 && b > 0.0
  }

  function Scaled(q: seq<real>, b: real): (s: seq<real>)
    requires b > 0.0
    ensures |s| == |q| && forall i :: 0 <= i < |q| ==> s[i] == q[i] / b
  {
    seq(|q|, i requires 0 <= i < |q| => q[i] / b)
  }

  /** The largest entry. */
  function Peak(values: seq<real>): (peak: real)
    requires values != []
    ensures peak in values
    ensures forall i :: 0 <= i < |values| ==> values[i] <= peak
  {
    var last := values[|values| - 1];
    if |values| == 1 then last else Max(Peak(values[..|values| - 1]), last)
  }

  /** The sum of `exp(v - shift)`. */
  function SumExp(m: Math, values: seq<real>, shift: real): real {
    if values == [] then 0.0
    else SumExp(m, values[..|values| - 1], shift) + m.Exp(values[|values| - 1] - shift)
  }

  /** `C(q) = b * ln(sum_j exp(q_j / b))`, as the scoring rule defines it. */
  function CostOf(m: Math, q: seq<real>, b: real): real
    requires b > 0.0
  {
    Times(b, m.Ln(SumExp(m, Scaled(q, b), 0.0)))
  }

  /** The stated maximum loss of the maker, `b * ln K`. */
  function Subsidy(m: Math, outcomes: nat, b: real): real {
    Times(b, m.Ln(outcomes as real))
  }

  /** The share of term `k` in a sum of exponentials. */
  function Share(m: Math, s: seq<real>, k: nat): real
    requires m.Lawful() && k < |s|
  {
    SumExpPositive(m, s, 0.0);
    m.Exp(s[k]) / SumExp(m, s, 0.0)
  }

  /** `p_k = exp(q_k / b) / sum_j exp(q_j / b)`. */
  function PriceOf(m: Math, q: seq<real>, b: real, k: nat): real
    requires m.Lawful() && b > 0.0 && k < |q|
  {
    Share(m, Scaled(q, b), k)
  }

  // ------------------------------------------------------------ sums of exponentials

  lemma {:induction false} SumExpPositive(m: Math, values: seq<real>, shift: real)
    requires m.Lawful()
    ensures SumExp(m, values, shift) >= 0.0
    ensures values != [] ==> SumExp(m, values, shift) > 0.0
  {
    if values != [] {
      SumExpPositive(m, values[..|values| - 1], shift);
      m.Positive(values[|values| - 1] - shift);
    }
  }

  /** Factoring `exp(c)` out of every term. */
  lemma {:induction false} SumExpFactors(m: Math, values: seq<real>, c: real)
    requires m.Lawful()
    ensures SumExp(m, values, 0.0) == m.Exp(c) * SumExp(m, values, c)
  {
    if values != [] {
      var v := values[|values| - 1];
      SumExpFactors(m, values[..|values| - 1], c);
      m.Adds(c, v - c);
      assert c + (v - c) == v - 0.0;
    }
  }

  /** With every term at most one and the peak term exactly one. */
  lemma {:induction false} SumExpAtPeak(m: Math, values: seq<real>, peak: real)
    requires m.Lawful()
    requires forall i :: 0 <= i < |values| ==> values[i] <= peak
    ensures 0.0 <= SumExp(m, values, peak) <= |values| as real
    ensures peak in values ==> SumExp(m, values, peak) >= 1.0
  {
    if values != [] {
      var front, v := values[..|values| - 1], values[|values| - 1];
      SumExpAtPeak(m, front, peak);
      m.Positive(v - peak);
      m.Compares(v - peak, 0.0);
      m.AtZero();
      assert values == front + [v];
    }
  }

  lemma {:induction false} SumExpShifted(m: Math, values: seq<real>, moved: seq<real>, d: real)
    requires |values| == |moved| && forall i :: 0 <= i < |values| ==> moved[i] - d == values[i]
    ensures SumExp(m, moved, d) == SumExp(m, values, 0.0)
  {
    if values != [] {
      SumExpShifted(m, values[..|values| - 1], moved[..|values| - 1], d);
    }
  }

  lemma {:induction false} SumExpIncreases(m: Math, values: seq<real>, larger: seq<real>)
    requires m.Lawful()
    requires |values| == |larger| && forall i :: 0 <= i < |values| ==> values[i] <= larger[i]
    ensures SumExp(m, values, 0.0) <= SumExp(m, larger, 0.0)
    ensures values != larger ==> SumExp(m, values, 0.0) < SumExp(m, larger, 0.0)
  {
    if values != [] {
      var n := |values| - 1;
      SumExpIncreases(m, values[..n], larger[..n]);
      m.Compares(values[n] - 0.0, larger[n] - 0.0);
      assert values == values[..n] + [values[n]] && larger == larger[..n] + [larger[n]];
    }
  }

  // ------------------------------------------------------------------ the code's loops

  /** The max-subtracted loop computes the plain `ln(sum(exp(v)))`. */
  method LogSumExp(m: Math, values: seq<real>) returns (r: Result<real, string>)
    requires m.Lawful()
    ensures r.Err? <==> values == []
    ensures r.Ok? ==> r.value == m.Ln(SumExp(m, values, 0.0))
  {
    if values == [] {
      return Err("log_sum_exp of an empty sequence");
    }
    var peak := values[0];
    for i := 0 to |values|
      invariant forall j :: 0 <= j < i ==> values[j] <= peak
      invariant peak in values
    {
      if peak < values[i] {
        peak := values[i];
      }
    }
    var total := SumShifted(m, values, peak);
    LogSumExpUnshifts(m, values, peak);
    r := Ok(peak + m.Ln(total));
  }

  method SumShifted(m: Math, values: seq<real>, shift: real) returns (total: real)
    ensures total == SumExp(m, values, shift)
  {
    total := 0.0;
    for i := 0 to |values|
      invariant total == SumExp(m, values[..i], shift)
    {
      assert values[..i + 1][..i] == values[..i];
      total := total + m.Exp(values[i] - shift);
    }
    assert values[..|values|] == values;
  }

  lemma {:induction false} LogSumExpUnshifts(m: Math, values: seq<real>, c: real)
    requires m.Lawful() && values != []
    ensures c + m.Ln(SumExp(m, values, c)) == m.Ln(SumExp(m, values, 0.0))
  {
    SumExpFactors(m, values, c);
    SumExpPositive(m, values, c);
    m.Positive(c);
    m.LnOfProduct(m.Exp(c), SumExp(m, values, c), SumExp(m, values, 0.0));
    m.Inverse(c);
  }

  method Cost(m: Math, q: seq<real>, b: real) returns (r: Result<real, string>)
    requires m.Lawful()
    ensures r.Ok? <==> ValidState(q, b)
    ensures r.Ok? ==> r.value == CostOf(m, q, b)
  {
    if |q| < 2 {
      return Err("LMSR needs at least 2 outcomes");
    }
    if b <= 0.0 {
      return Err("liquidity parameter b must be positive");
    }
    var scaled := DivideAll(q, b);
    assert scaled == Scaled(q, b);
    var lse := LogSumExp(m, scaled);
    r := Ok(Times(b, lse.value));
  }

  method Prices(m: Math, q: seq<real>, b: real) returns (r: Result<seq<real>, string>)
    requires m.Lawful()
    ensures r.Ok? <==> ValidState(q, b)
    ensures r.Ok? ==> |r.value| == |q| && forall k :: 0 <= k < |q| ==> r.value[k] == PriceOf(m, q, b, k)
  {
    if |q| < 2 {
      return Err("LMSR needs at least 2 outcomes");
    }
    if b <= 0.0 {
      return Err("liquidity parameter b must be positive");
    }
    var prices := Shares(m, Scaled(q, b));
    r := Ok(prices);
  }

  /** Max-subtracted exponentials, then one division each. */
  method Shares(m: Math, s: seq<real>) returns (shares: seq<real>)
    requires m.Lawful() && s != []
    ensures |shares| == |s| && forall k :: 0 <= k < |s| ==> shares[k] == Share(m, s, k)
  {
    var peak := Peak(s);
    var exps, total := ExpShifted(m, s, peak);
    shares := DivideAll(exps, total);
    forall k | 0 <= k < |s|
      ensures shares[k] == Share(m, s, k)
    {
      ShareUnshifts(m, s, k, peak);
    }
  }

  method ExpShifted(m: Math, values: seq<real>, shift: real) returns (exps: seq<real>, total: real)
    requires m.Lawful()
    ensures |exps| == |values| && forall j :: 0 <= j < |values| ==> exps[j] == m.Exp(values[j] - shift)
    ensures total == SumExp(m, values, shift)
    ensures values != [] ==> total > 0.0
  {
    exps, total := [], 0.0;
    for i := 0 to |values|
      invariant |exps| == i && forall j :: 0 <= j < i ==> exps[j] == m.Exp(values[j] - shift)
      invariant total == SumExp(m, values[..i], shift)
    {
      assert values[..i + 1][..i] == values[..i];
      var e := m.Exp(values[i] - shift);
      exps := exps + [e];
      total := total + e;
    }
    assert values[..|values|] == values;
    SumExpPositive(m, values, shift);
  }

  method DivideAll(values: seq<real>, total: real) returns (shares: seq<real>)
    requires total > 0.0
    ensures |shares| == |values| && forall k :: 0 <= k < |values| ==> shares[k] == values[k] / total
  {
    shares := [];
    for k := 0 to |values|
      invariant |shares| == k && forall j :: 0 <= j < k ==> shares[j] == values[j] / total
    {
      shares := shares + [values[k] / total];
    }
  }

  lemma {:induction false} ShareUnshifts(m: Math, s: seq<real>, k: nat, c: real)
    requires m.Lawful() && k < |s|
    ensures SumExp(m, s, c) > 0.0
    ensures m.Exp(s[k] - c) / SumExp(m, s, c) == Share(m, s, k)
  {
    SumExpPositive(m, s, c);
    SumExpPositive(m, s, 0.0);
    SumExpFactors(m, s, c);
    m.Adds(c, s[k] - c);
    assert c + (s[k] - c) == s[k];
    var e, t, x := m.Exp(c), SumExp(m, s, c), m.Exp(s[k] - c);
    assert x * (e * t) == (e * x) * t;
    CrossMultiply(x, t, e * x, e * t);
  }

  method TradeCost(m: Math, q: seq<real>, dq: seq<real>, b: real) returns (r: Result<real, string>)
    requires m.Lawful()
    ensures r.Ok? <==> |q| == |dq| && ValidState(q, b)
    ensures r.Ok? ==> r.value == CostOf(m, Traded(q, dq), b) - CostOf(m, q, b)
  {
    if |q| != |dq| {
      return Err("q and dq differ in length");
    }
    var after := [];
    for i := 0 to |q|
      invariant |after| == i && forall j :: 0 <= j < i ==> after[j] == q[j] + dq[j]
    {
      after := after + [q[i] + dq[i]];
    }
    assert after == Traded(q, dq);
    var high := Cost(m, after, b);
    var low := Cost(m, q, b);
    if low.Err? {
      return Err(low.error);
    }
    r := Ok(high.value - low.value);
  }

  // ------------------------------------------------------------------- laws of the rule

  lemma {:induction false} ScaledPeak(q: seq<real>, b: real)
    requires b > 0.0 && q != []
    ensures forall i :: 0 <= i < |q| ==> Scaled(q, b)[i] <= Peak(q) / b
    ensures Peak(q) / b in Scaled(q, b)
  {
    forall i | 0 <= i < |q|
      ensures Scaled(q, b)[i] <= Peak(q) / b
    {
      DivideMonotone(q[i], Peak(q), b);
    }
    var k :| 0 <= k < |q| && q[k] == Peak(q);
    assert Scaled(q, b)[k] == Peak(q) / b;
  }

  lemma {:induction false} LogSumExpBounds(m: Math, values: seq<real>, peak: real)
    requires m.Lawful()
    requires peak in values && forall i :: 0 <= i < |values| ==> values[i] <= peak
    ensures peak <= m.Ln(SumExp(m, values, 0.0)) <= peak + m.Ln(|values| as real)
  {
    SumExpAtPeak(m, values, peak);
    LogSumExpUnshifts(m, values, peak);
    m.LnCompares(1.0, SumExp(m, values, peak));
    m.LnCompares(SumExp(m, values, peak), |values| as real);
    m.AtZero();
  }

  /** Scaling by `b` undoes the division by `b`. */
  lemma Unscale(x: real, y: real, b: real)
    requires b > 0.0
    ensures b * (x / b + y) == x + b * y
  {
    var z := x / b;
    assert z * b == x;
    assert b * (z + y) == b * z + b * y;
  }

  lemma ScaleBetween(p: real, x: real, k: real, b: real)
    requires b > 0.0 && p / b <= x <= p / b + k
    ensures p <= Times(b, x) <= p + Times(b, k)
  {
    Unscale(p, 0.0, b);
    Unscale(p, k, b);
    MulMonotone(p / b, x, b);
    MulMonotone(x, p / b + k, b);
  }

  lemma {:induction false} ScaledBounds(m: Math, q: seq<real>, b: real)
    requires m.Lawful() && b > 0.0 && q != []
    ensures Peak(q) / b <= m.Ln(SumExp(m, Scaled(q, b), 0.0)) <= Peak(q) / b + m.Ln(|q| as real)
  {
    ScaledPeak(q, b);
    LogSumExpBounds(m, Scaled(q, b), Peak(q) / b);
  }

  /** `max(q) <= C(q) <= max(q) + b * ln K`. */
  lemma {:induction false} CostBounds(m: Math, q: seq<real>, b: real)
    requires m.Lawful() && b > 0.0 && q != []
    ensures Peak(q) <= CostOf(m, q, b) <= Peak(q) + Subsidy(m, |q|, b)
  {
    ScaledBounds(m, q, b);
    ScaleBetween(Peak(q), m.Ln(SumExp(m, Scaled(q, b), 0.0)), m.Ln(|q| as real), b);
  }

  lemma DivideMonotone(x: real, y: real, b: real)
    requires b > 0.0 && x <= y
    ensures x / b <= y / b
    ensures x < y ==> x / b < y / b
  {
  }

  lemma DivideSum(x: real, y: real, b: real)
    requires b != 0.0
    ensures (x + y) / b == x / b + y / b
    ensures b / b == 1.0
  {
  }

  function Lifted(q: seq<real>, c: real): (r: seq<real>)
    ensures |r| == |q| && forall i :: 0 <= i < |q| ==> r[i] == q[i] + c
  {
    seq(|q|, i requires 0 <= i < |q| => q[i] + c)
  }

  /** One share of every outcome is a sure dollar: it costs exactly what it pays. */
  lemma {:induction false} CostTranslates(m: Math, q: seq<real>, b: real, c: real)
    requires m.Lawful() && b > 0.0 && q != []
    ensures CostOf(m, Lifted(q, c), b) == CostOf(m, q, b) + c
  {
    var s, t := Scaled(q, b), Scaled(Lifted(q, c), b);
    var x, y := m.Ln(SumExp(m, s, 0.0)), m.Ln(SumExp(m, t, 0.0));
    assert y == c / b + x by {
      ScaledLifted(q, b, c);
      SumExpShifted(m, s, t, c / b);
      LogSumExpUnshifts(m, t, c / b);
    }
    UnscaleSum(c, x, y, b);
  }

  lemma UnscaleSum(c: real, x: real, y: real, b: real)
    requires b > 0.0 && y == c / b + x
    ensures Times(b, y) == Times(b, x) + c
  {
    Unscale(c, x, b);
  }

  lemma {:induction false} ScaledLifted(q: seq<real>, b: real, c: real)
    requires b > 0.0
    ensures forall i :: 0 <= i < |q| ==> Scaled(Lifted(q, c), b)[i] - c / b == Scaled(q, b)[i]
  {
    forall i | 0 <= i < |q|
      ensures Scaled(Lifted(q, c), b)[i] - c / b == Scaled(q, b)[i]
    {
      DivideSum(q[i], c, b);
    }
  }

  function SumReal(values: seq<real>): real {
    if values == [] then 0.0 else SumReal(values[..|values| - 1]) + values[|values| - 1]
  }

  lemma DividePositive(x: real, y: real)
    requires x > 0.0 && y > 0.0
    ensures x / y > 0.0
  {
  }

  lemma {:induction false} SumOfShares(m: Math, values: seq<real>, shares: seq<real>, total: real)
    requires total > 0.0 && |values| == |shares|
    requires forall i :: 0 <= i < |values| ==> shares[i] == m.Exp(values[i]) / total
    ensures SumReal(shares) == SumExp(m, values, 0.0) / total
  {
    if values != [] {
      var n := |values| - 1;
      SumOfShares(m, values[..n], shares[..n], total);
      assert values[n] - 0.0 == values[n];
      DivideSum(SumExp(m, values[..n], 0.0), m.Exp(values[n]), total);
    }
  }

  /** The prices are a probability distribution with no zero entry. */
  lemma {:induction false} PricesAreADistribution(m: Math, q: seq<real>, b: real, prices: seq<real>)
    requires m.Lawful() && ValidState(q, b)
    requires |prices| == |q| && forall k :: 0 <= k < |q| ==> prices[k] == PriceOf(m, q, b, k)
    ensures SumReal(prices) == 1.0
    ensures forall k :: 0 <= k < |q| ==> 0.0 < prices[k]
  {
    var s := Scaled(q, b);
    SumExpPositive(m, s, 0.0);
    SumOfShares(m, s, prices, SumExp(m, s, 0.0));
    DivideSum(0.0, 0.0, SumExp(m, s, 0.0));
    forall k | 0 <= k < |q|
      ensures 0.0 < prices[k]
    {
      m.Positive(s[k]);
      DividePositive(m.Exp(s[k]), SumExp(m, s, 0.0));
    }
  }

  /** The binary price is the logistic of the scaled imbalance. */
  lemma {:induction false} BinaryPriceIsSigmoid(m: Math, qYes: real, qNo: real, b: real)
    requires m.Lawful() && b > 0.0
    ensures PriceOf(m, [qYes, qNo], b, 0) == m.Sigmoid((qYes - qNo) / b)
  {
    var x, y := qYes / b, qNo / b;
    assert Scaled([qYes, qNo], b) == [x, y];
    assert (qYes - qNo) / b == x - y;
    ShareOfTwo(m, x, y);
  }

  lemma {:induction false} ShareOfTwo(m: Math, x: real, y: real)
    requires m.Lawful()
    ensures Share(m, [x, y], 0) == m.Sigmoid(x - y)
  {
    var s := [x, y];
    assert s[..1] == [x] && s[..1][..0] == [];
    assert SumExp(m, s[..1], y) == m.Exp(x - y);
    ShareUnshifts(m, s, 0, y);
    m.AtZero();
    m.SigmoidIsLogistic(x - y);
  }

  function Traded(q: seq<real>, dq: seq<real>): (r: seq<real>)
    requires |q| == |dq|
    ensures |r| == |q| && forall i :: 0 <= i < |q| ==> r[i] == q[i] + dq[i]
  {
    seq(|q|, i requires 0 <= i < |q| => q[i] + dq[i])
  }

  function AfterTrades(q: seq<real>, trades: seq<seq<real>>): (r: seq<real>)
    requires forall i :: 0 <= i < |trades| ==> |trades[i]| == |q|
    ensures |r| == |q|
  {
    if trades == [] then q else Traded(AfterTrades(q, trades[..|trades| - 1]), trades[|trades| - 1])
  }

  /** What a whole sequence of trades pays, trade by trade, at a fixed `b`. */
  function TotalPaid(m: Math, q: seq<real>, trades: seq<seq<real>>, b: real): real
    requires b > 0.0
    requires forall i :: 0 <= i < |trades| ==> |trades[i]| == |q|
  {
    if trades == [] then 0.0
    else
      var before := trades[..|trades| - 1];
      TotalPaid(m, q, before, b)
        + (CostOf(m, AfterTrades(q, trades), b) - CostOf(m, AfterTrades(q, before), b))
  }

  /** The path taken does not matter; in particular a round trip is free. */
  lemma {:induction false} PaymentsTelescope(m: Math, q: seq<real>, trades: seq<seq<real>>, b: real)
    requires b > 0.0
    requires forall i :: 0 <= i < |trades| ==> |trades[i]| == |q|
    ensures TotalPaid(m, q, trades, b) == CostOf(m, AfterTrades(q, trades), b) - CostOf(m, q, b)
    ensures AfterTrades(q, trades) == q ==> TotalPaid(m, q, trades, b) == 0.0
  {
    if trades != [] {
      PaymentsTelescope(m, q, trades[..|trades| - 1], b);
    }
  }

  /** Opened at zero, the maker loses at most `b * ln K`, whatever is traded and whoever wins. */
  lemma {:induction false} WorstCaseSubsidy(m: Math, q: seq<real>, trades: seq<seq<real>>, b: real, winner: nat)
    requires m.Lawful() && ValidState(q, b)
    requires forall i :: 0 <= i < |q| ==> q[i] == 0.0
    requires forall i :: 0 <= i < |trades| ==> |trades[i]| == |q|
    requires winner < |q|
    ensures AfterTrades(q, trades)[winner] - TotalPaid(m, q, trades, b) <= Subsidy(m, |q|, b)
  {
    PaymentsTelescope(m, q, trades, b);
    CostBounds(m, q, b);
    CostBounds(m, AfterTrades(q, trades), b);
  }

  /** A share is never free and never dearer than the dollar it might pay. */
  lemma {:induction false} BuyingCostsLessThanFaceValue(m: Math, q: seq<real>, b: real, k: nat, shares: real)
    requires m.Lawful() && ValidState(q, b)
    requires k < |q| && shares > 0.0
    ensures 0.0 < CostOf(m, q[k := q[k] + shares], b) - CostOf(m, q, b) < shares
  {
    var bought := q[k := q[k] + shares];
    CostIncreases(m, q, bought, b);
    CostIncreases(m, bought, Lifted(q, shares), b);
    CostTranslates(m, q, b, shares);
    var other := if k == 0 then 1 else 0;
    assert bought[other] != Lifted(q, shares)[other];
    assert bought[k] != q[k];
  }

  lemma {:induction false} CostIncreases(m: Math, q: seq<real>, r: seq<real>, b: real)
    requires m.Lawful() && b > 0.0
    requires |q| == |r| && q != [] && forall i :: 0 <= i < |q| ==> q[i] <= r[i]
    ensures q != r ==> CostOf(m, q, b) < CostOf(m, r, b)
  {
    if q != r {
      var s, t := Scaled(q, b), Scaled(r, b);
      ScaledIncreases(q, r, b);
      SumExpIncreases(m, s, t);
      SumExpPositive(m, s, 0.0);
      SumExpPositive(m, t, 0.0);
      m.LnCompares(SumExp(m, s, 0.0), SumExp(m, t, 0.0));
      TimesIncreases(b, m.Ln(SumExp(m, s, 0.0)), m.Ln(SumExp(m, t, 0.0)));
    }
  }

  lemma {:induction false} ScaledIncreases(q: seq<real>, r: seq<real>, b: real)
    requires b > 0.0
    requires |q| == |r| && q != r && forall i :: 0 <= i < |q| ==> q[i] <= r[i]
    ensures forall i :: 0 <= i < |q| ==> Scaled(q, b)[i] <= Scaled(r, b)[i]
    ensures Scaled(q, b) != Scaled(r, b)
  {
    forall i | 0 <= i < |q|
      ensures Scaled(q, b)[i] <= Scaled(r, b)[i] && (q[i] < r[i] ==> Scaled(q, b)[i] < Scaled(r, b)[i])
    {
      DivideMonotone(q[i], r[i], b);
    }
    var i :| 0 <= i < |q| && q[i] != r[i];
    assert Scaled(q, b)[i] < Scaled(r, b)[i];
  }
}
