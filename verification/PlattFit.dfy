/** Fitting the logistic map by Newton's method: what each step solves, and what it can converge to. */
module PlattFit {
  import opened Wrappers
  import opened Transcendental
  import opened Calibration

  const SINGULAR: real := 0.000000000001

  // ----------------------------------------------------------------------- the Newton system

  /** `h00 = sum w`, `h01 = sum w s`, `h11 = sum w s^2` */
  datatype Hessian = Hessian(h00: real, h01: real, h11: real)
  {
    function Det(): real {
      h00 * h11 - h01 * h01
    }

    function Add(w: real, s: real): Hessian {
      Hessian(h00 + w, h01 + Times(w, s), h11 + Times(Times(w, s), s))
    }
  }

  function HessianOf(ws: seq<real>, ss: seq<real>): Hessian
    requires |ws| == |ss|
  {
    if ws == [] then Hessian(0.0, 0.0, 0.0)
    else
      var n := |ws| - 1;
      HessianOf(ws[..n], ss[..n]).Add(ws[n], ss[n])
  }

  datatype Gradient = Gradient(a: real, b: real)

  /** `sum r` and `sum r s` */
  function GradientOf(rs: seq<real>, ss: seq<real>): Gradient
    requires |rs| == |ss|
  {
    if rs == [] then Gradient(0.0, 0.0)
    else
      var n := |rs| - 1;
      var front := GradientOf(rs[..n], ss[..n]);
      Gradient(front.a + rs[n], front.b + Times(rs[n], ss[n]))
  }

  function NewtonStep(h: Hessian, g: Gradient): Gradient
    requires h.Det() != 0.0
  {
    Gradient((h.h11 * g.a - h.h01 * g.b) / h.Det(), (h.h00 * g.b - h.h01 * g.a) / h.Det())
  }

  // ------------------------------------------------------------------------- the determinant

  function SquaredGap(x: real, y: real): (gap: real)
    ensures gap >= 0.0
    ensures gap == 0.0 <==> x == y
  {
    SquareSign(x - y);
    Times(x - y, x - y)
  }

  /** `sum_i w_i * w * (s_i - s)^2` */
  function PairsWith(ws: seq<real>, ss: seq<real>, w: real, s: real): real
    requires |ws| == |ss|
  {
    if ws == [] then 0.0
    else
      var n := |ws| - 1;
      PairsWith(ws[..n], ss[..n], w, s) + Times(Times(ws[n], w), SquaredGap(ss[n], s))
  }

  /** `sum_{i < j} w_i w_j (s_i - s_j)^2` */
  function PairSum(ws: seq<real>, ss: seq<real>): real
    requires |ws| == |ss|
  {
    if ws == [] then 0.0
    else
      var n := |ws| - 1;
      PairSum(ws[..n], ss[..n]) + PairsWith(ws[..n], ss[..n], ws[n], ss[n])
  }

  function Spread(h: Hessian, s: real): real {
    h.h11 - 2.0 * Times(h.h01, s) + Times(Times(h.h00, s), s)
  }

  lemma SpreadAdds(h: Hessian, v: real, t: real, s: real)
    ensures Spread(h.Add(v, t), s) == Spread(h, s) + Times(v, SquaredGap(t, s))
  {
    var vt, gap := Times(v, t), t - s;
    assert Times(v, Times(gap, gap)) == Times(vt, t) - 2.0 * Times(vt, s) + Times(Times(v, s), s) by {
      ExpandGap(v, t, s);
    }
    TimesAdds(h.h01, vt, s);
    TimesAdds(h.h00, v, s);
    TimesAdds(Times(h.h00, s), Times(v, s), s);
  }

  lemma TimesAdds(x: real, y: real, s: real)
    ensures Times(x + y, s) == Times(x, s) + Times(y, s)
  {
  }

  lemma ExpandGap(v: real, t: real, s: real)
    ensures Times(v, Times(t - s, t - s)) == Times(Times(v, t), t) - 2.0 * Times(Times(v, t), s) + Times(Times(v, s), s)
  {
    assert (t - s) * (t - s) == t * t - 2.0 * (t * s) + s * s;
    assert v * (t * t) == (v * t) * t && v * (t * s) == (v * t) * s && v * (s * s) == (v * s) * s;
  }

  lemma {:induction false} PairsAreSpread(ws: seq<real>, ss: seq<real>, w: real, s: real)
    requires |ws| == |ss|
    ensures PairsWith(ws, ss, w, s) == Times(w, Spread(HessianOf(ws, ss), s))
  {
    if ws != [] {
      var n := |ws| - 1;
      PairsAreSpread(ws[..n], ss[..n], w, s);
      SpreadAdds(HessianOf(ws[..n], ss[..n]), ws[n], ss[n], s);
      PullWeight(w, Spread(HessianOf(ws[..n], ss[..n]), s), ws[n], SquaredGap(ss[n], s));
    }
  }

  lemma PullWeight(w: real, x: real, v: real, gap: real)
    ensures Times(w, x) + Times(Times(v, w), gap) == Times(w, x + Times(v, gap))
  {
  }

  lemma DetAdds(h: Hessian, w: real, s: real)
    ensures h.Add(w, s).Det() == h.Det() + Times(w, Spread(h, s))
  {
    var a, b, c := h.h00, h.h01, h.h11;
    var ws := w * s;
    assert (a + w) * (c + ws * s) - (b + ws) * (b + ws)
      == (a * c - b * b) + (a * (ws * s) + w * c - 2.0 * (b * ws) + (w * (ws * s) - ws * ws));
    assert w * (ws * s) == ws * ws;
    assert a * (ws * s) == w * ((a * s) * s);
    assert b * ws == w * (b * s);
  }

  /** The Hessian's determinant is the sum over pairs of `w_i w_j (s_i - s_j)^2`. */
  lemma {:induction false} DeterminantIsPairSum(ws: seq<real>, ss: seq<real>)
    requires |ws| == |ss|
    ensures HessianOf(ws, ss).Det() == PairSum(ws, ss)
  {
    if ws != [] {
      var n := |ws| - 1;
      DeterminantIsPairSum(ws[..n], ss[..n]);
      DetAdds(HessianOf(ws[..n], ss[..n]), ws[n], ss[n]);
      PairsAreSpread(ws[..n], ss[..n], ws[n], ss[n]);
    }
  }

  ghost predicate AllPositive(ws: seq<real>) {
    forall i :: 0 <= i < |ws| ==> ws[i] > 0.0
  }

  ghost predicate AllAre(ss: seq<real>, s: real) {
    forall i :: 0 <= i < |ss| ==> ss[i] == s
  }

  ghost predicate AllSame(ss: seq<real>) {
    forall i, j :: 0 <= i < |ss| && 0 <= j < |ss| ==> ss[i] == ss[j]
  }

  lemma ProductSign(v: real, w: real, gap: real)
    requires v > 0.0 && w > 0.0 && gap >= 0.0
    ensures Times(Times(v, w), gap) >= 0.0
    ensures Times(Times(v, w), gap) == 0.0 <==> gap == 0.0
  {
    assert v * w > 0.0;
    if gap > 0.0 {
      assert (v * w) * gap > 0.0;
    }
  }

  lemma {:induction false} PairsWithSign(ws: seq<real>, ss: seq<real>, w: real, s: real)
    requires |ws| == |ss| && AllPositive(ws) && w > 0.0
    ensures PairsWith(ws, ss, w, s) >= 0.0
    ensures PairsWith(ws, ss, w, s) == 0.0 <==> AllAre(ss, s)
  {
    if ws != [] {
      var n := |ws| - 1;
      PairsWithSign(ws[..n], ss[..n], w, s);
      ProductSign(ws[n], w, SquaredGap(ss[n], s));
      assert ss == ss[..n] + [ss[n]];
    }
  }

  lemma AllSameAppend(ss: seq<real>, s: real)
    ensures AllSame(ss + [s]) <==> AllSame(ss) && AllAre(ss, s)
  {
    var all := ss + [s];
    assert all[|ss|] == s;
    if AllSame(all) {
      forall i | 0 <= i < |ss|
        ensures ss[i] == s
      {
        assert all[i] == all[|ss|];
      }
    }
  }

  lemma {:induction false} PairSumSign(ws: seq<real>, ss: seq<real>)
    requires |ws| == |ss| && AllPositive(ws)
    ensures PairSum(ws, ss) >= 0.0
    ensures PairSum(ws, ss) == 0.0 <==> AllSame(ss)
  {
    if ws != [] {
      var n := |ws| - 1;
      PairSumSign(ws[..n], ss[..n]);
      PairsWithSign(ws[..n], ss[..n], ws[n], ss[n]);
      AllSameAppend(ss[..n], ss[n]);
      assert ss == ss[..n] + [ss[n]];
    }
  }

  /** Never negative, and zero exactly when every signal is the same: the one case with nothing to solve. */
  lemma {:induction false} SingularExactlyWhenSignalsCoincide(ws: seq<real>, ss: seq<real>)
    requires |ws| == |ss| && AllPositive(ws)
    ensures HessianOf(ws, ss).Det() >= 0.0
    ensures HessianOf(ws, ss).Det() == 0.0 <==> AllSame(ss)
  {
    DeterminantIsPairSum(ws, ss);
    PairSumSign(ws, ss);
  }

  // -------------------------------------------------------------------------------- the step

  ghost predicate Solves(h: Hessian, step: Gradient, g: Gradient) {
    h.h00 * step.a + h.h01 * step.b == g.a && h.h01 * step.a + h.h11 * step.b == g.b
  }

  /** The adjugate solves the system up to the determinant. */
  lemma {:induction false} AdjugateSolves(h: Hessian, g: Gradient)
    ensures var adj := Adjugate(h, g);
      && h.h00 * adj.a + h.h01 * adj.b == h.Det() * g.a
      && h.h01 * adj.a + h.h11 * adj.b == h.Det() * g.b
  {
    Expand0(h.h00, h.h01, h.h11, g.a, g.b);
    Expand1(h.h00, h.h01, h.h11, g.a, g.b);
  }

  lemma {:induction false} QuotientSolves(h: Hessian, adj: Gradient, d: real, g: Gradient)
    requires d != 0.0
    requires h.h00 * adj.a + h.h01 * adj.b == d * g.a && h.h01 * adj.a + h.h11 * adj.b == d * g.b
    ensures Solves(h, Gradient(adj.a / d, adj.b / d), g)
  {
    Cramer(h.h00, adj.a, h.h01, adj.b, d, g.a);
    Cramer(h.h01, adj.a, h.h11, adj.b, d, g.b);
  }

  /** Cramer's rule: the step solves `H * step = gradient`. */
  lemma {:induction false} StepSolvesTheSystem(h: Hessian, g: Gradient)
    requires h.Det() != 0.0
    ensures Solves(h, NewtonStep(h, g), g)
  {
    AdjugateSolves(h, g);
    QuotientSolves(h, Adjugate(h, g), h.Det(), g);
  }

  lemma Expand0(a: real, b: real, c: real, x: real, y: real)
    ensures a * (c * x - b * y) + b * (a * y - b * x) == (a * c - b * b) * x
  {
    assert a * (c * x - b * y) == a * c * x - a * b * y;
    assert b * (a * y - b * x) == a * b * y - b * b * x;
  }

  lemma Expand1(a: real, b: real, c: real, x: real, y: real)
    ensures b * (c * x - b * y) + c * (a * y - b * x) == (a * c - b * b) * y
  {
    assert b * (c * x - b * y) == b * c * x - b * b * y;
    assert c * (a * y - b * x) == a * c * y - b * c * x;
  }

  lemma Cramer(p: real, x: real, q: real, y: real, d: real, target: real)
    requires d != 0.0 && p * x + q * y == d * target
    ensures p * (x / d) + q * (y / d) == target
  {
    var u, v := x / d, y / d;
    assert u * d == x && v * d == y;
    assert (p * u + q * v) * d == target * d by {
      assert p * (u * d) == (p * u) * d && q * (v * d) == (q * v) * d;
    }
    assert (p * u + q * v - target) * d == 0.0;
  }

  /** `step . gradient`: how fast the loss falls along the step taken. */
  function Along(step: Gradient, g: Gradient): real {
    step.a * g.a + step.b * g.b
  }

  /** The step in the adjugate's terms, before the division. */
  function Adjugate(h: Hessian, g: Gradient): Gradient {
    Gradient(h.h11 * g.a - h.h01 * g.b, h.h00 * g.b - h.h01 * g.a)
  }

  lemma {:induction false} AdjugateDescends(h: Hessian, g: Gradient)
    requires h.Det() > 0.0 && h.h00 > 0.0
    ensures Along(Adjugate(h, g), g) >= 0.0
    ensures Along(Adjugate(h, g), g) == 0.0 ==> g == Gradient(0.0, 0.0)
  {
    var y, n := Adjugate(h, g).b, Along(Adjugate(h, g), g);
    CompleteSquare(h, g);
    SquareSign(y);
    SquareSign(g.a);
    QuadraticSign(h.h00, n, Times(y, y), h.Det(), Times(g.a, g.a));
    if n == 0.0 {
      assert y == h.h00 * g.b;
    }
  }

  /** The step goes downhill, and is zero only where the gradient is. */
  lemma {:induction false} StepDescends(h: Hessian, g: Gradient)
    requires h.Det() > 0.0 && h.h00 > 0.0
    ensures Along(NewtonStep(h, g), g) >= 0.0
    ensures Along(NewtonStep(h, g), g) == 0.0 <==> g == Gradient(0.0, 0.0)
    ensures NewtonStep(h, g) == Gradient(0.0, 0.0) <==> g == Gradient(0.0, 0.0)
  {
    var adj := Adjugate(h, g);
    AdjugateDescends(h, g);
    AlongIsQuotient(adj.a, adj.b, h.Det(), g);
    QuotientSign(Along(adj, g), h.Det());
  }

  lemma AlongIsQuotient(x: real, y: real, d: real, g: Gradient)
    requires d != 0.0
    ensures Along(Gradient(x / d, y / d), g) == (x * g.a + y * g.b) / d
  {
    var u, v := x / d, y / d;
    assert u * d == x && v * d == y;
    assert (u * g.a + v * g.b) * d == x * g.a + y * g.b by {
      assert (u * d) * g.a == (u * g.a) * d && (v * d) * g.b == (v * g.b) * d;
    }
  }

  lemma CompleteSquare(h: Hessian, g: Gradient)
    ensures var x, y := h.h11 * g.a - h.h01 * g.b, h.h00 * g.b - h.h01 * g.a;
      h.h00 * (x * g.a + y * g.b) == Times(y, y) + h.Det() * Times(g.a, g.a)
  {
    var a, b, c, p, q := h.h00, h.h01, h.h11, g.a, g.b;
    Square(a, b, c, p, q);
  }

  lemma Square(a: real, b: real, c: real, p: real, q: real)
    ensures a * ((c * p - b * q) * p + (a * q - b * p) * q) ==
      (a * q - b * p) * (a * q - b * p) + (a * c - b * b) * (p * p)
  {
    var aq, bp := a * q, b * p;
    assert (c * p - b * q) * p == c * (p * p) - bp * q;
    assert (aq - bp) * q == aq * q - bp * q;
    assert a * (c * (p * p) - bp * q + (aq * q - bp * q)) == (a * c) * (p * p) - 2.0 * (bp * aq) + aq * aq;
    assert bp * bp == (b * b) * (p * p);
  }

  lemma QuadraticSign(k: real, n: real, ySquared: real, d: real, aSquared: real)
    requires k > 0.0 && d > 0.0 && ySquared >= 0.0 && aSquared >= 0.0
    requires k * n == ySquared + d * aSquared
    ensures n >= 0.0
    ensures n == 0.0 ==> ySquared == 0.0 && aSquared == 0.0
  {
    assert d * aSquared >= 0.0;
    if n < 0.0 {
      MulMonotone(n, 0.0, k);
    }
    if aSquared > 0.0 {
      assert d * aSquared > 0.0;
    }
  }

  lemma QuotientSign(x: real, d: real)
    requires d > 0.0 && x >= 0.0
    ensures x / d >= 0.0
    ensures x / d == 0.0 <==> x == 0.0
  {
  }

  // ------------------------------------------------------------------------------- the fit

  /** The clipped forecast. */
  function Forecast(m: Math, params: Platt, s: real): (p: real)
    ensures EPS <= p <= 1.0 - EPS
  {
    ClampProbability(Apply(m, params, s))
  }

  function Forecasts(m: Math, params: Platt, ss: seq<real>): (ps: seq<real>)
  {
    seq(|ss|, i requires 0 <= i < |ss| => Forecast(m, params, ss[i]))
  }

  function Curvature(p: real): real {
    Times(p, 1.0 - p)
  }

  function Curvatures(ps: seq<real>): (ws: seq<real>)
  {
    seq(|ps|, i requires 0 <= i < |ps| => Curvature(ps[i]))
  }

  function Differences(xs: seq<real>, ys: seq<real>): (ds: seq<real>)
    requires |xs| == |ys|
  {
    seq(|xs|, i requires 0 <= i < |xs| => xs[i] - ys[i])
  }

  function HessianAt(m: Math, params: Platt, ss: seq<real>): Hessian {
    HessianOf(Curvatures(Forecasts(m, params, ss)), ss)
  }

  function GradientAt(m: Math, params: Platt, ss: seq<real>, targets: seq<real>): Gradient
    requires |ss| == |targets|
  {
    GradientOf(Differences(Forecasts(m, params, ss), targets), ss)
  }

  /** The clip keeps every weight positive, so the system is singular only for equal signals. */
  lemma {:induction false} HessianIsDefinite(m: Math, params: Platt, ss: seq<real>)
    requires ss != []
    ensures HessianAt(m, params, ss).h00 > 0.0
    ensures HessianAt(m, params, ss).Det() >= 0.0
    ensures HessianAt(m, params, ss).Det() == 0.0 <==> AllSame(ss)
  {
    var ws := Curvatures(Forecasts(m, params, ss));
    forall i | 0 <= i < |ws|
      ensures ws[i] > 0.0
    {
      SameSign(Forecasts(m, params, ss)[i], 1.0 - Forecasts(m, params, ss)[i]);
    }
    SingularExactlyWhenSignalsCoincide(ws, ss);
    TotalWeight(ws, ss);
  }

  lemma {:induction false} TotalWeight(ws: seq<real>, ss: seq<real>)
    requires |ws| == |ss| && AllPositive(ws)
    ensures HessianOf(ws, ss).h00 >= 0.0
    ensures ws != [] ==> HessianOf(ws, ss).h00 > 0.0
  {
    if ws != [] {
      TotalWeight(ws[..|ws| - 1], ss[..|ws| - 1]);
    }
  }

  function Moved(params: Platt, step: Gradient): Platt {
    Platt(params.a - step.a, params.b - step.b)
  }

  /** The step between two iterates. */
  function Taken(before: Platt, after: Platt): Gradient {
    Gradient(before.a - after.a, before.b - after.b)
  }

  /** What one iteration does: give up on a singular system, or move, perhaps for the last time. */
  datatype Iteration = Singular | Move(params: Platt, last: bool)

  function IterationAt(m: Math, ss: seq<real>, targets: seq<real>, params: Platt, tol: real): Iteration
    requires |ss| == |targets|
  {
    var h := HessianAt(m, params, ss);
    if Abs(h.Det()) < SINGULAR then Singular
    else
      var step := NewtonStep(h, GradientAt(m, params, ss, targets));
      Move(Moved(params, step), Max(Abs(step.a), Abs(step.b)) < tol)
  }

  /** The parameters after at most `budget` iterations. */
  function Newton(m: Math, ss: seq<real>, targets: seq<real>, params: Platt, tol: real, budget: nat): Platt
    requires |ss| == |targets|
    decreases budget
  {
    if budget == 0 then params
    else
      var iteration := IterationAt(m, ss, targets, params, tol);
      if iteration.Singular? then params
      else if iteration.last then iteration.params
      else Newton(m, ss, targets, iteration.params, tol, budget - 1)
  }

  function Count(ys: seq<int>, y: int): nat {
    if ys == [] then 0 else Count(ys[..|ys| - 1], y) + if ys[|ys| - 1] == y then 1 else 0
  }

  /** Platt's smoothed labels. */
  function TargetOf(positives: nat, negatives: nat, y: int): real {
    if y == 1 then (positives as real + 1.0) / (positives as real + 2.0) else 1.0 / (negatives as real + 2.0)
  }

  function Targets(ys: seq<int>): (ts: seq<real>)
  {
    seq(|ys|, i requires 0 <= i < |ys| => TargetOf(Count(ys, 1), Count(ys, 0), ys[i]))
  }

  /** The loss against the true outcomes. */
  function TotalLoss(m: Math, params: Platt, ss: seq<real>, ys: seq<int>): real
    requires |ss| == |ys|
  {
    if ss == [] then 0.0
    else
      var n := |ss| - 1;
      var p := Forecast(m, params, ss[n]);
      TotalLoss(m, params, ss[..n], ys[..n]) + if ys[n] == 1 then -m.Ln(p) else -m.Ln(1.0 - p)
  }

  datatype Fit = Fit(params: Platt, nObs: nat, logLoss: real)

  /** What the fit accepts: paired, in range, and of both outcomes. */
  predicate Fittable(ss: seq<real>, ys: seq<int>) {
    && |ss| == |ys| && |ss| >= 2
    && (forall i :: 0 <= i < |ss| ==> -1.0 <= ss[i] <= 1.0)
    && (forall i :: 0 <= i < |ys| ==> ys[i] == 0 || ys[i] == 1)
    && (exists i :: 0 <= i < |ys| && ys[i] == 0) && (exists i :: 0 <= i < |ys| && ys[i] == 1)
  }

  method FitPlatt(m: Math, ss: seq<real>, ys: seq<int>, maxIter: nat, tol: real) returns (r: Result<Fit, string>)
    requires m.Lawful()
    ensures r.Ok? <==> Fittable(ss, ys)
    ensures r.Ok? ==>
      && r.value.params == Newton(m, ss, Targets(ys), Platt(0.0, 2.0), tol, maxIter)
      && r.value.nObs == |ss|
      && r.value.logLoss == TotalLoss(m, r.value.params, ss, ys) / |ss| as real
  {
    if !Fittable(ss, ys) {
      return Err("signals and outcomes cannot be fitted");
    }
    var targets := Targets(ys);
    var params := Iterate(m, ss, targets, maxIter, tol);
    var loss := SumLoss(m, params, ss, ys);
    r := Ok(Fit(params, |ss|, loss / |ss| as real));
  }

  /** `run` ends where Newton does. */
  ghost predicate EndsAlike(m: Math, ss: seq<real>, targets: seq<real>, tol: real, run: (Platt, nat) -> Platt,
      params: Platt, budget: nat)
    requires |ss| == |targets|
  {
    run(params, budget) == Newton(m, ss, targets, params, tol, budget)
  }

  method Iterate(m: Math, ss: seq<real>, targets: seq<real>, maxIter: nat, tol: real) returns (params: Platt)
    requires |ss| == |targets|
    ensures params == Newton(m, ss, targets, Platt(0.0, 2.0), tol, maxIter)
  {
    ghost var run := (p: Platt, k: nat) => Newton(m, ss, targets, p, tol, k);
    params := IterateAlong(m, ss, targets, maxIter, tol, run);
  }

  /** The loop, for any `run` that ends where Newton does. */
  method IterateAlong(m: Math, ss: seq<real>, targets: seq<real>, maxIter: nat, tol: real,
      ghost run: (Platt, nat) -> Platt)
    returns (params: Platt)
    requires |ss| == |targets|
    requires forall p, k :: EndsAlike(m, ss, targets, tol, run, p, k)
    ensures params == run(Platt(0.0, 2.0), maxIter)
  {
    params := Platt(0.0, 2.0);
    var i := 0;
    while i < maxIter
      invariant i <= maxIter && run(params, maxIter - i) == run(Platt(0.0, 2.0), maxIter)
    {
      var iteration := AdvanceAlong(m, ss, targets, params, tol, maxIter - i, run);
      if iteration.Singular? {
        return;
      }
      params := iteration.params;
      if iteration.last {
        return;
      }
      i := i + 1;
    }
    SpentBudget(m, ss, targets, params, tol, run);
  }

  lemma SpentBudget(m: Math, ss: seq<real>, targets: seq<real>, params: Platt, tol: real, run: (Platt, nat) -> Platt)
    requires |ss| == |targets|
    requires forall p, k :: EndsAlike(m, ss, targets, tol, run, p, k)
    ensures run(params, 0) == params
  {
    assert EndsAlike(m, ss, targets, tol, run, params, 0);
  }

  method AdvanceAlong(m: Math, ss: seq<real>, targets: seq<real>, params: Platt, tol: real, ghost budget: nat,
      ghost run: (Platt, nat) -> Platt)
    returns (iteration: Iteration)
    requires |ss| == |targets| && budget > 0
    requires forall p, k :: EndsAlike(m, ss, targets, tol, run, p, k)
    ensures run(params, budget) ==
      if iteration.Singular? then params
      else if iteration.last then iteration.params
      else run(iteration.params, budget - 1)
  {
    iteration := Advance(m, ss, targets, params, tol);
    assert EndsAlike(m, ss, targets, tol, run, params, budget);
    if iteration.Move? {
      assert EndsAlike(m, ss, targets, tol, run, iteration.params, budget - 1);
    }
  }

  method Advance(m: Math, ss: seq<real>, targets: seq<real>, params: Platt, tol: real) returns (iteration: Iteration)
    requires |ss| == |targets|
    ensures iteration == IterationAt(m, ss, targets, params, tol)
    ensures iteration.Singular? <==> Abs(HessianAt(m, params, ss).Det()) < SINGULAR
    ensures iteration.Move? ==>
      Solves(HessianAt(m, params, ss), Taken(params, iteration.params), GradientAt(m, params, ss, targets))
  {
    var h := HessianAt(m, params, ss);
    var det := h.Det();
    if Abs(det) < SINGULAR {
      return Singular;
    }
    var step := SolveSystem(h, GradientAt(m, params, ss, targets), det);
    iteration := Move(Moved(params, step), Max(Abs(step.a), Abs(step.b)) < tol);
    assert Taken(params, iteration.params) == step;
  }

  method SolveSystem(h: Hessian, g: Gradient, det: real) returns (step: Gradient)
    requires det == h.Det() && det != 0.0
    ensures step == NewtonStep(h, g)
    ensures Solves(h, step, g)
  {
    StepSolvesTheSystem(h, g);
    var stepA := (h.h11 * g.a - h.h01 * g.b) / det;
    var stepB := (h.h00 * g.b - h.h01 * g.a) / det;
    step := Gradient(stepA, stepB);
  }

  method SumLoss(m: Math, params: Platt, ss: seq<real>, ys: seq<int>) returns (total: real)
    requires |ss| == |ys|
    requires forall i :: 0 <= i < |ys| ==> ys[i] == 0 || ys[i] == 1
    ensures total == TotalLoss(m, params, ss, ys)
  {
    total := 0.0;
    for i := 0 to |ss|
      invariant total == TotalLoss(m, params, ss[..i], ys[..i])
    {
      assert ss[..i + 1][..i] == ss[..i] && ys[..i + 1][..i] == ys[..i];
      var p, y := Forecast(m, params, ss[i]), ys[i] as real;
      total := total - (y * m.Ln(p) + (1.0 - y) * m.Ln(1.0 - p));
    }
    assert ss[..|ss|] == ss && ys[..|ys|] == ys;
  }

  // ------------------------------------------------------------------------ what it can find

  /** `sum (x_i - y_i) * (d_a + d_b s_i)` */
  function Pairing(ds: seq<real>, direction: Platt, ss: seq<real>): real
    requires |ds| == |ss|
  {
    if ds == [] then 0.0
    else
      var n := |ds| - 1;
      Pairing(ds[..n], direction, ss[..n]) + Times(ds[n], Line(direction, ss[n]))
  }

  function Against(direction: Platt, g: Gradient): real {
    Times(direction.a, g.a) + Times(direction.b, g.b)
  }

  lemma {:induction false} PairingIsGradient(ds: seq<real>, direction: Platt, ss: seq<real>)
    requires |ds| == |ss|
    ensures Pairing(ds, direction, ss) == Against(direction, GradientOf(ds, ss))
  {
    if ds != [] {
      var n := |ds| - 1;
      PairingIsGradient(ds[..n], direction, ss[..n]);
      PairingStep(direction, GradientOf(ds[..n], ss[..n]), ds[n], ss[n]);
    }
  }

  lemma PairingStep(direction: Platt, front: Gradient, d: real, s: real)
    ensures Against(direction, front) + Times(d, Line(direction, s))
      == Against(direction, Gradient(front.a + d, front.b + Times(d, s)))
  {
    assert d * (direction.b * s) == direction.b * (d * s);
  }

  function Minus(x: Platt, y: Platt): Platt {
    Platt(x.a - y.a, x.b - y.b)
  }

  lemma LineMinus(x: Platt, y: Platt, s: real)
    ensures Line(Minus(x, y), s) == Line(x, s) - Line(y, s)
  {
    assert (x.b - y.b) * s == x.b * s - y.b * s;
  }

  lemma {:induction false} GradientMinus(xs: seq<real>, ys: seq<real>, ts: seq<real>, ss: seq<real>)
    requires |xs| == |ys| == |ts| == |ss|
    ensures GradientOf(Differences(xs, ys), ss).a
      == GradientOf(Differences(xs, ts), ss).a - GradientOf(Differences(ys, ts), ss).a
    ensures GradientOf(Differences(xs, ys), ss).b
      == GradientOf(Differences(xs, ts), ss).b - GradientOf(Differences(ys, ts), ss).b
  {
    if xs != [] {
      var n := |xs| - 1;
      GradientMinus(xs[..n], ys[..n], ts[..n], ss[..n]);
      assert Differences(xs, ys)[..n] == Differences(xs[..n], ys[..n]);
      assert Differences(xs, ts)[..n] == Differences(xs[..n], ts[..n]);
      assert Differences(ys, ts)[..n] == Differences(ys[..n], ts[..n]);
      TimesMinus(xs[n], ys[n], ts[n], ss[n]);
    }
  }

  lemma TimesMinus(x: real, y: real, t: real, s: real)
    ensures Times(x - y, s) == Times(x - t, s) - Times(y - t, s)
  {
  }

  /** The clipped forecasts of two fits differ, if at all, the way their lines do. */
  lemma {:induction false} ForecastsSeparate(m: Math, x: Platt, y: Platt, s: real)
    requires m.Lawful()
    ensures Times(Forecast(m, x, s) - Forecast(m, y, s), Line(Minus(x, y), s)) >= 0.0
    ensures Times(Forecast(m, x, s) - Forecast(m, y, s), Line(Minus(x, y), s)) == 0.0 ==>
      Forecast(m, x, s) == Forecast(m, y, s)
  {
    LineMinus(x, y, s);
    m.SigmoidIncreases(Line(x, s), Line(y, s));
    m.SigmoidIncreases(Line(y, s), Line(x, s));
    var d, l := Forecast(m, x, s) - Forecast(m, y, s), Line(Minus(x, y), s);
    if d != 0.0 {
      SameSign(d, l);
    } else {
      assert Times(0.0, l) == 0.0;
    }
  }

  lemma PairingAppend(ds: seq<real>, d: real, direction: Platt, ss: seq<real>, s: real)
    requires |ds| == |ss|
    ensures Pairing(ds + [d], direction, ss + [s]) == Pairing(ds, direction, ss) + Times(d, Line(direction, s))
  {
    assert (ds + [d])[..|ds|] == ds && (ss + [s])[..|ss|] == ss;
  }

  /** How the forecasts of `x` and `y` differ. */
  function Separation(m: Math, x: Platt, y: Platt, ss: seq<real>): (ds: seq<real>)
    ensures |ds| == |ss|
  {
    Differences(Forecasts(m, x, ss), Forecasts(m, y, ss))
  }

  lemma SeparationAppend(m: Math, x: Platt, y: Platt, ss: seq<real>, s: real)
    ensures Separation(m, x, y, ss + [s]) == Separation(m, x, y, ss) + [Forecast(m, x, s) - Forecast(m, y, s)]
  {
  }

  ghost predicate SameForecasts(m: Math, x: Platt, y: Platt, ss: seq<real>) {
    forall i :: 0 <= i < |ss| ==> Forecast(m, x, ss[i]) == Forecast(m, y, ss[i])
  }

  lemma SameForecastsAppend(m: Math, x: Platt, y: Platt, ss: seq<real>, s: real)
    requires SameForecasts(m, x, y, ss) && Forecast(m, x, s) == Forecast(m, y, s)
    ensures SameForecasts(m, x, y, ss + [s])
  {
  }

  lemma {:induction false} PairingSeparates(m: Math, x: Platt, y: Platt, ss: seq<real>)
    requires m.Lawful()
    ensures Pairing(Separation(m, x, y, ss), Minus(x, y), ss) >= 0.0
    ensures Pairing(Separation(m, x, y, ss), Minus(x, y), ss) == 0.0 ==> SameForecasts(m, x, y, ss)
  {
    if ss != [] {
      var front, s := ss[..|ss| - 1], ss[|ss| - 1];
      assert ss == front + [s];
      PairingSeparates(m, x, y, front);
      SeparationAppend(m, x, y, front, s);
      PairingAppend(Separation(m, x, y, front), Forecast(m, x, s) - Forecast(m, y, s), Minus(x, y), front, s);
      ForecastsSeparate(m, x, y, s);
      if SameForecasts(m, x, y, front) && Forecast(m, x, s) == Forecast(m, y, s) {
        SameForecastsAppend(m, x, y, front, s);
      }
    }
  }

  lemma LinesThroughTwoPoints(x: Platt, y: Platt, s: real, t: real)
    requires s != t && Line(x, s) == Line(y, s) && Line(x, t) == Line(y, t)
    ensures x == y
  {
    LineMinus(x, y, s);
    LineMinus(x, y, t);
    var d := x.b - y.b;
    assert d * s == d * t;
    assert d * (s - t) == 0.0;
  }

  lemma {:induction false} PairingVanishes(m: Math, x: Platt, y: Platt, ss: seq<real>, targets: seq<real>)
    requires |ss| == |targets|
    requires GradientAt(m, x, ss, targets) == GradientAt(m, y, ss, targets)
    ensures Pairing(Separation(m, x, y, ss), Minus(x, y), ss) == 0.0
  {
    var ds := Differences(Forecasts(m, x, ss), Forecasts(m, y, ss));
    GradientMinus(Forecasts(m, x, ss), Forecasts(m, y, ss), targets, ss);
    PairingIsGradient(ds, Minus(x, y), ss);
    assert GradientOf(ds, ss) == Gradient(0.0, 0.0);
  }

  /**
   * Newton has one place to converge to: wherever the gradient vanishes, the clipped forecasts of
   * every signal are the same.
   */
  lemma {:induction false} StationaryForecastsAgree(m: Math, x: Platt, y: Platt, ss: seq<real>, targets: seq<real>)
    requires m.Lawful() && |ss| == |targets|
    requires GradientAt(m, x, ss, targets) == GradientAt(m, y, ss, targets)
    ensures SameForecasts(m, x, y, ss)
  {
    PairingVanishes(m, x, y, ss, targets);
    PairingSeparates(m, x, y, ss);
  }

  /** Strictly inside the clip. */
  predicate Unclipped(m: Math, params: Platt, s: real) {
    EPS < Apply(m, params, s) < 1.0 - EPS
  }

  lemma {:induction false} SameForecastSameLine(m: Math, x: Platt, y: Platt, s: real)
    requires m.Lawful() && Unclipped(m, x, s) && Forecast(m, x, s) == Forecast(m, y, s)
    ensures Line(x, s) == Line(y, s)
  {
    m.SigmoidIncreases(Line(x, s), Line(y, s));
  }

  /** The parameters themselves are the only ones once two different signals are forecast inside the clip. */
  lemma {:induction false} StationaryPointIsUnique(m: Math, x: Platt, y: Platt, ss: seq<real>, targets: seq<real>,
      i: nat, j: nat)
    requires m.Lawful() && |ss| == |targets|
    requires i < |ss| && j < |ss| && ss[i] != ss[j] && Unclipped(m, x, ss[i]) && Unclipped(m, x, ss[j])
    requires GradientAt(m, x, ss, targets) == GradientAt(m, y, ss, targets)
    ensures x == y
  {
    StationaryForecastsAgree(m, x, y, ss, targets);
    SameForecastSameLine(m, x, y, ss[i]);
    SameForecastSameLine(m, x, y, ss[j]);
    LinesThroughTwoPoints(x, y, ss[i], ss[j]);
  }

  predicate OnItsSide(direction: Platt, s: real, y: int) {
    (y == 1 && Line(direction, s) > 0.0) || (y == 0 && Line(direction, s) < 0.0)
  }

  /** `direction` tells the outcomes apart. */
  ghost predicate Separates(direction: Platt, ss: seq<real>, ys: seq<int>)
    requires |ss| == |ys|
  {
    forall i :: 0 <= i < |ss| ==> OnItsSide(direction, ss[i], ys[i])
  }

  function Raw(ys: seq<int>): (ts: seq<real>)
  {
    seq(|ys|, i requires 0 <= i < |ys| => ys[i] as real)
  }

  /** How the forecasts differ from the targets. */
  function Residuals(m: Math, params: Platt, ss: seq<real>, ts: seq<real>): (ds: seq<real>)
    requires |ss| == |ts|
    ensures |ds| == |ss|
  {
    Differences(Forecasts(m, params, ss), ts)
  }

  lemma ResidualsAppend(m: Math, params: Platt, ss: seq<real>, ts: seq<real>, s: real, t: real)
    requires |ss| == |ts|
    ensures Residuals(m, params, ss + [s], ts + [t]) == Residuals(m, params, ss, ts) + [Forecast(m, params, s) - t]
  {
  }

  /** On its side of `direction`, with a target no clipped forecast reaches. */
  predicate OutOfReach(direction: Platt, s: real, y: int, t: real) {
    OnItsSide(direction, s, y) && (y == 1 ==> t > 1.0 - EPS) && (y == 0 ==> t < EPS)
  }

  ghost predicate AllOutOfReach(direction: Platt, ss: seq<real>, ys: seq<int>, ts: seq<real>)
    requires |ss| == |ys| == |ts|
  {
    forall i :: 0 <= i < |ss| ==> OutOfReach(direction, ss[i], ys[i], ts[i])
  }

  lemma OutOfReachFront(direction: Platt, ss: seq<real>, s: real, ys: seq<int>, y: int, ts: seq<real>, t: real)
    requires |ss| == |ys| == |ts| && AllOutOfReach(direction, ss + [s], ys + [y], ts + [t])
    ensures AllOutOfReach(direction, ss, ys, ts) && OutOfReach(direction, s, y, t)
  {
    var n := |ss|;
    assert OutOfReach(direction, (ss + [s])[n], (ys + [y])[n], (ts + [t])[n]);
    forall i | 0 <= i < n
      ensures OutOfReach(direction, ss[i], ys[i], ts[i])
    {
      assert OutOfReach(direction, (ss + [s])[i], (ys + [y])[i], (ts + [t])[i]);
    }
  }

  lemma {:induction false} OnePulls(m: Math, params: Platt, direction: Platt, s: real, y: int, t: real)
    requires OutOfReach(direction, s, y, t)
    ensures Times(Forecast(m, params, s) - t, Line(direction, s)) < 0.0
  {
    var d, l := Forecast(m, params, s) - t, Line(direction, s);
    SameSign(-d, l);
    assert Times(-d, l) == -Times(d, l);
  }

  lemma {:induction false} SeparationPulls(m: Math, params: Platt, direction: Platt, ss: seq<real>, ys: seq<int>,
      ts: seq<real>)
    requires |ss| == |ys| == |ts| && AllOutOfReach(direction, ss, ys, ts)
    ensures Pairing(Residuals(m, params, ss, ts), direction, ss) <= 0.0
    ensures ss != [] ==> Pairing(Residuals(m, params, ss, ts), direction, ss) < 0.0
  {
    if ss != [] {
      var n := |ss| - 1;
      var front, s, labels, y, targets, t := ss[..n], ss[n], ys[..n], ys[n], ts[..n], ts[n];
      assert ss == front + [s] && ys == labels + [y] && ts == targets + [t];
      OutOfReachFront(direction, front, s, labels, y, targets, t);
      SeparationPulls(m, params, direction, front, labels, targets);
      ResidualsAppend(m, params, front, targets, s, t);
      OnePulls(m, params, direction, s, y, t);
      PairingAppend(Residuals(m, params, front, targets), Forecast(m, params, s) - t, direction, front, s);
    }
  }

  /** Against targets past the clip, separable data has no stationary point at all. */
  lemma {:induction false} PastTheClipNothingFits(m: Math, params: Platt, direction: Platt, ss: seq<real>,
      ys: seq<int>, ts: seq<real>)
    requires |ss| == |ys| == |ts| && ss != [] && AllOutOfReach(direction, ss, ys, ts)
    ensures GradientAt(m, params, ss, ts) != Gradient(0.0, 0.0)
  {
    SeparationPulls(m, params, direction, ss, ys, ts);
    PairingIsGradient(Residuals(m, params, ss, ts), direction, ss);
  }

  /** Why the labels are smoothed: raw ones are past the clip. */
  lemma {:induction false} RawLabelsHaveNoFit(m: Math, params: Platt, direction: Platt, ss: seq<real>, ys: seq<int>)
    requires |ss| == |ys| && ss != [] && Separates(direction, ss, ys)
    ensures GradientAt(m, params, ss, Raw(ys)) != Gradient(0.0, 0.0)
  {
    forall i | 0 <= i < |ss|
      ensures OutOfReach(direction, ss[i], ys[i], Raw(ys)[i])
    {
      assert OnItsSide(direction, ss[i], ys[i]);
    }
    PastTheClipNothingFits(m, params, direction, ss, ys, Raw(ys));
  }

  /** Smoothed labels stay strictly inside (0, 1), the positive ones above the negative. */
  lemma {:induction false} TargetsAreInterior(positives: nat, negatives: nat)
    ensures 0.0 < TargetOf(positives, negatives, 0) <= 0.5 <= TargetOf(positives, negatives, 1) < 1.0
  {
  }

  ghost predicate Descends(step: Gradient, g: Gradient) {
    && Along(step, g) >= 0.0
    && (Along(step, g) == 0.0 <==> g == Gradient(0.0, 0.0))
    && (step == Gradient(0.0, 0.0) <==> g == Gradient(0.0, 0.0))
  }

  /**
   * An iteration that runs solves its system, moves downhill, and stays put only at the
   * stationary point.
   */
  lemma {:induction false} IterationMakesProgress(m: Math, params: Platt, ss: seq<real>, targets: seq<real>,
      h: Hessian, g: Gradient)
    requires |ss| == |targets| && ss != []
    requires h == HessianAt(m, params, ss) && g == GradientAt(m, params, ss, targets) && Abs(h.Det()) >= SINGULAR
    ensures !AllSame(ss)
    ensures Solves(h, NewtonStep(h, g), g)
    ensures Descends(NewtonStep(h, g), g)
  {
    HessianIsDefinite(m, params, ss);
    StepSolvesTheSystem(h, g);
    StepDescends(h, g);
  }
}
