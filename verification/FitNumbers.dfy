/** The logistic fit in sums over the observations: its targets, its steps, where it stops and what it reports. */
module FitNumbers {
  import opened Wrappers
  import opened Transcendental
  import opened Calibration
  import opened PlattFit

  // ---------------------------------------------------------------------------------- sums

  /** The sum of the first `n` values. */
  function Total(xs: seq<real>, n: nat): real
    requires n <= |xs|
  {
    if n == 0 then 0.0 else Total(xs, n - 1) + xs[n - 1]
  }

  /** So with each value times its signal. */
  function Weighted(xs: seq<real>, ss: seq<real>, n: nat): real
    requires n <= |xs| && n <= |ss|
  {
    if n == 0 then 0.0 else Weighted(xs, ss, n - 1) + Times(xs[n - 1], ss[n - 1])
  }

  /** So with each value times its signal squared. */
  function WeightedTwice(xs: seq<real>, ss: seq<real>, n: nat): real
    requires n <= |xs| && n <= |ss|
  {
    if n == 0 then 0.0 else WeightedTwice(xs, ss, n - 1) + Times(Times(xs[n - 1], ss[n - 1]), ss[n - 1])
  }

  lemma {:induction false} HessianSums(ws: seq<real>, ss: seq<real>, n: nat)
    requires n <= |ws| == |ss|
    ensures HessianOf(ws[..n], ss[..n]) == Hessian(Total(ws, n), Weighted(ws, ss, n), WeightedTwice(ws, ss, n))
  {
    if n > 0 {
      HessianSums(ws, ss, n - 1);
      assert ws[..n][..n - 1] == ws[..n - 1] && ss[..n][..n - 1] == ss[..n - 1];
    }
  }

  lemma {:induction false} GradientSums(rs: seq<real>, ss: seq<real>, n: nat)
    requires n <= |rs| == |ss|
    ensures GradientOf(rs[..n], ss[..n]) == Gradient(Total(rs, n), Weighted(rs, ss, n))
  {
    if n > 0 {
      GradientSums(rs, ss, n - 1);
      assert rs[..n][..n - 1] == rs[..n - 1] && ss[..n][..n - 1] == ss[..n - 1];
    }
  }

  // ---------------------------------------------------------------------------- the targets

  /** How many outcomes are `y`. */
  ghost function Outcomes(ys: seq<int>, y: int): nat {
    |set i | 0 <= i < |ys| && ys[i] == y|
  }

  lemma {:induction false} CountIsASet(ys: seq<int>, y: int)
    ensures Count(ys, y) == Outcomes(ys, y)
  {
    var all := set i | 0 <= i < |ys| && ys[i] == y;
    if ys != [] {
      var n := |ys| - 1;
      CountIsASet(ys[..n], y);
      var front := set i | 0 <= i < n && ys[..n][i] == y;
      if ys[n] == y {
        assert all == front + {n};
      } else {
        assert all == front;
      }
    }
  }

  /** `(N + 1) / (N + 2)` for a positive among N, and `1 / (N + 2)` for a negative among N. */
  ghost predicate AreSmoothed(ys: seq<int>, ts: seq<real>) {
    && |ts| == |ys|
    && forall i :: 0 <= i < |ys| ==> IsSmoothed(ys[i], Outcomes(ys, 1), Outcomes(ys, 0), ts[i])
  }

  predicate IsSmoothed(y: int, positives: nat, negatives: nat, t: real) {
    if y == 1 then Times(t, (positives + 2) as real) == (positives + 1) as real
    else Times(t, (negatives + 2) as real) == 1.0
  }

  lemma TargetIsSmoothed(y: int, positives: nat, negatives: nat)
    ensures IsSmoothed(y, positives, negatives, TargetOf(positives, negatives, y))
  {
    QuotientTimes(positives as real + 1.0, positives as real + 2.0);
    QuotientTimes(1.0, negatives as real + 2.0);
  }

  lemma {:induction false} TargetsAreSmoothed(ys: seq<int>)
    ensures AreSmoothed(ys, Targets(ys))
  {
    CountIsASet(ys, 1);
    CountIsASet(ys, 0);
    forall i | 0 <= i < |ys|
      ensures IsSmoothed(ys[i], Outcomes(ys, 1), Outcomes(ys, 0), Targets(ys)[i])
    {
      TargetIsSmoothed(ys[i], Count(ys, 1), Count(ys, 0));
    }
  }

  // --------------------------------------------------------------------------- the forecasts

  /** The probability whose odds are `exp(a + b s)`, no nearer than a millionth to 0 or 1. */
  ghost predicate IsForecast(m: Math, params: Platt, s: real, p: real) {
    exists q :: HasOdds(q, m.Exp(params.a + Times(params.b, s))) && IsNearest(q, p)
  }

  predicate HasOdds(q: real, odds: real) {
    0.0 < q < 1.0 && q == Times(odds, 1.0 - q)
  }

  predicate IsNearest(q: real, p: real) {
    p == if q < 0.000001 then 0.000001 else if q > 0.999999 then 0.999999 else q
  }

  ghost predicate AreForecasts(m: Math, params: Platt, ss: seq<real>, ps: seq<real>) {
    |ps| == |ss| && forall i :: 0 <= i < |ss| ==> IsForecast(m, params, ss[i], ps[i])
  }

  lemma OddsTimes(q: real, odds: real)
    requires 0.0 < q < 1.0 && Odds(q) == odds
    ensures HasOdds(q, odds)
  {
  }

  lemma {:induction false} ForecastsAre(m: Math, params: Platt, ss: seq<real>)
    requires m.Lawful()
    ensures AreForecasts(m, params, ss, Forecasts(m, params, ss))
  {
    forall i | 0 <= i < |ss|
      ensures IsForecast(m, params, ss[i], Forecasts(m, params, ss)[i])
    {
      var x := params.a + Times(params.b, ss[i]);
      m.SigmoidIsLogistic(x);
      OddsTimes(m.Sigmoid(x), m.Exp(x));
      assert IsNearest(m.Sigmoid(x), Forecast(m, params, ss[i]));
    }
  }

  // --------------------------------------------------------------------------- the iteration

  /** `p (1 - p)` of each forecast. */
  ghost predicate AreWeights(ps: seq<real>, ws: seq<real>) {
    |ws| == |ps| && forall i :: 0 <= i < |ps| ==> ws[i] == Times(ps[i], 1.0 - ps[i])
  }

  /** Each forecast less its target. */
  ghost predicate AreResiduals(ps: seq<real>, ts: seq<real>, rs: seq<real>) {
    |rs| == |ps| == |ts| && forall i :: 0 <= i < |ps| ==> rs[i] == ps[i] - ts[i]
  }

  /** `sum w * sum w s^2 - (sum w s)^2` */
  function Determinant(ws: seq<real>, ss: seq<real>): real
    requires |ws| == |ss|
  {
    Times(Total(ws, |ws|), WeightedTwice(ws, ss, |ws|)) - Times(Weighted(ws, ss, |ws|), Weighted(ws, ss, |ws|))
  }

  /** The determinant at these parameters is too small to solve with. */
  ghost predicate IsSingular(m: Math, ss: seq<real>, params: Platt) {
    exists ps, ws :: AreForecasts(m, params, ss, ps) && AreWeights(ps, ws) && TooSmall(ws, ss)
  }

  predicate TooSmall(ws: seq<real>, ss: seq<real>) {
    |ws| == |ss| && -0.000000000001 < Determinant(ws, ss) < 0.000000000001
  }

  /** The change `(x, y)` solves both equations `sum w (x + y s) = sum r` and `sum w s (x + y s) = sum r s`. */
  ghost predicate Balances(ws: seq<real>, rs: seq<real>, ss: seq<real>, x: real, y: real) {
    && |ws| == |rs| == |ss| && !TooSmall(ws, ss)
    && Times(Total(ws, |ws|), x) + Times(Weighted(ws, ss, |ws|), y) == Total(rs, |rs|)
    && Times(Weighted(ws, ss, |ws|), x) + Times(WeightedTwice(ws, ss, |ws|), y) == Weighted(rs, ss, |rs|)
  }

  /** One Newton step: what is taken off `before` to get `after` balances the residuals. */
  ghost predicate StepsTo(m: Math, ss: seq<real>, ts: seq<real>, before: Platt, after: Platt) {
    exists ps, ws, rs ::
      AreForecasts(m, before, ss, ps) && AreWeights(ps, ws) && AreResiduals(ps, ts, rs)
      && Balances(ws, rs, ss, before.a - after.a, before.b - after.b)
  }

  predicate Settled(before: Platt, after: Platt, tol: real) {
    Abs(before.a - after.a) < tol && Abs(before.b - after.b) < tol
  }

  lemma {:induction false} SystemSums(m: Math, params: Platt, ss: seq<real>, ts: seq<real>, ws: seq<real>,
      rs: seq<real>)
    requires |ss| == |ts|
    requires ws == Curvatures(Forecasts(m, params, ss)) && rs == Differences(Forecasts(m, params, ss), ts)
    ensures |ws| == |rs| == |ss|
    ensures HessianAt(m, params, ss) ==
      Hessian(Total(ws, |ws|), Weighted(ws, ss, |ws|), WeightedTwice(ws, ss, |ws|))
    ensures GradientAt(m, params, ss, ts) == Gradient(Total(rs, |rs|), Weighted(rs, ss, |rs|))
  {
    HessianSums(ws, ss, |ws|);
    GradientSums(rs, ss, |rs|);
    assert ws[..|ws|] == ws && rs[..|rs|] == rs && ss[..|ws|] == ss;
  }

  lemma DetIs(h: Hessian)
    ensures h.Det() == Times(h.h00, h.h11) - Times(h.h01, h.h01)
  {
  }

  lemma SolvesIs(h: Hessian, step: Gradient, g: Gradient)
    requires Solves(h, step, g)
    ensures Times(h.h00, step.a) + Times(h.h01, step.b) == g.a
    ensures Times(h.h01, step.a) + Times(h.h11, step.b) == g.b
  {
  }

  ghost predicate IsIteration(m: Math, ss: seq<real>, ts: seq<real>, params: Platt, tol: real, iteration: Iteration) {
    if iteration.Singular? then IsSingular(m, ss, params)
    else
      && StepsTo(m, ss, ts, params, iteration.params)
      && (iteration.last <==> Settled(params, iteration.params, tol))
  }

  lemma {:induction false} IterationBalances(m: Math, ss: seq<real>, ts: seq<real>, params: Platt, tol: real)
    requires m.Lawful() && |ss| == |ts|
    ensures IsIteration(m, ss, ts, params, tol, IterationAt(m, ss, ts, params, tol))
  {
    var ps := Forecasts(m, params, ss);
    var ws, rs := Curvatures(ps), Differences(ps, ts);
    var h, g := HessianAt(m, params, ss), GradientAt(m, params, ss, ts);
    SystemSums(m, params, ss, ts, ws, rs);
    ForecastsAre(m, params, ss);
    DetIs(h);
    assert AreWeights(ps, ws) && AreResiduals(ps, ts, rs);
    if Abs(h.Det()) < SINGULAR {
      assert TooSmall(ws, ss);
    } else {
      var step := NewtonStep(h, g);
      StepSolvesTheSystem(h, g);
      SolvesIs(h, step, g);
      assert Balances(ws, rs, ss, step.a, step.b);
      StepIsTaken(params, step);
    }
  }

  lemma StepIsTaken(params: Platt, step: Gradient)
    ensures params.a - Moved(params, step).a == step.a && params.b - Moved(params, step).b == step.b
  {
  }

  // --------------------------------------------------------------------------------- the run

  /**
   * A run of Newton's method: every step balances the residuals, none but the last is settled, and it ends
   * settled, singular or out of iterations.
   */
  ghost predicate IsRun(m: Math, ss: seq<real>, ts: seq<real>, tol: real, budget: nat, trace: seq<Platt>) {
    && 0 < |trace| <= budget + 1
    && (forall i :: 0 <= i < |trace| - 1 ==> StepsTo(m, ss, ts, trace[i], trace[i + 1]))
    && (forall i :: 0 <= i < |trace| - 2 ==> !Settled(trace[i], trace[i + 1], tol))
    && (|| |trace| == budget + 1
        || IsSingular(m, ss, trace[|trace| - 1])
        || (|trace| > 1 && Settled(trace[|trace| - 2], trace[|trace| - 1], tol)))
  }

  /** Such a run, for any notion of a step and of a dead end. */
  ghost predicate IsTrace(steps: (Platt, Platt) -> bool, dead: Platt -> bool, tol: real, budget: nat,
      trace: seq<Platt>) {
    && 0 < |trace| <= budget + 1
    && (forall i :: 0 <= i < |trace| - 1 ==> steps(trace[i], trace[i + 1]))
    && (forall i :: 0 <= i < |trace| - 2 ==> !Settled(trace[i], trace[i + 1], tol))
    && (|| |trace| == budget + 1
        || dead(trace[|trace| - 1])
        || (|trace| > 1 && Settled(trace[|trace| - 2], trace[|trace| - 1], tol)))
  }

  lemma {:induction false} TraceGrows(steps: (Platt, Platt) -> bool, dead: Platt -> bool, tol: real, budget: nat,
      first: Platt, rest: seq<Platt>)
    requires IsTrace(steps, dead, tol, budget, rest)
    requires steps(first, rest[0]) && !Settled(first, rest[0], tol)
    ensures IsTrace(steps, dead, tol, budget + 1, [first] + rest)
  {
    var trace := [first] + rest;
    forall i | 0 <= i < |trace| - 1
      ensures steps(trace[i], trace[i + 1])
      ensures i < |trace| - 2 ==> !Settled(trace[i], trace[i + 1], tol)
    {
      if i > 0 {
        assert trace[i] == rest[i - 1] && trace[i + 1] == rest[i];
      }
    }
    assert trace[|trace| - 1] == rest[|rest| - 1];
  }

  /** `run` continues from `params` as one iteration says. */
  ghost predicate Follows(steps: (Platt, Platt) -> bool, dead: Platt -> bool, tol: real,
      run: (Platt, nat) -> Platt, params: Platt, budget: nat) {
    if budget == 0 || dead(params) then run(params, budget) == params
    else exists next :: steps(params, next) && run(params, budget) == Onward(run, params, next, tol, budget)
  }

  function Onward(run: (Platt, nat) -> Platt, params: Platt, next: Platt, tol: real, budget: nat): Platt
    requires budget > 0
  {
    if Settled(params, next, tol) then next else run(next, budget - 1)
  }

  lemma {:induction false} FollowedRuns(steps: (Platt, Platt) -> bool, dead: Platt -> bool, params: Platt, tol: real,
      budget: nat, run: (Platt, nat) -> Platt)
    returns (trace: seq<Platt>)
    requires forall p, k :: Follows(steps, dead, tol, run, p, k)
    ensures IsTrace(steps, dead, tol, budget, trace)
    ensures trace[0] == params && trace[|trace| - 1] == run(params, budget)
    decreases budget
  {
    trace := [params];
    assert Follows(steps, dead, tol, run, params, budget);
    if budget > 0 && !dead(params) {
      var next :| steps(params, next) && run(params, budget) == Onward(run, params, next, tol, budget);
      if Settled(params, next, tol) {
        trace := [params, next];
      } else {
        var rest := FollowedRuns(steps, dead, next, tol, budget - 1, run);
        TraceGrows(steps, dead, tol, budget - 1, params, rest);
        trace := [params] + rest;
      }
    }
  }

  lemma {:induction false} NewtonFollows(m: Math, ss: seq<real>, ts: seq<real>, tol: real, params: Platt, budget: nat)
    returns (iteration: Iteration)
    requires m.Lawful() && |ss| == |ts| && budget > 0
    ensures IsIteration(m, ss, ts, params, tol, iteration)
    ensures Newton(m, ss, ts, params, tol, budget) ==
      if iteration.Singular? then params
      else if iteration.last then iteration.params
      else Newton(m, ss, ts, iteration.params, tol, budget - 1)
  {
    iteration := IterationAt(m, ss, ts, params, tol);
    IterationBalances(m, ss, ts, params, tol);
  }

  lemma {:induction false} SingularIsUnique(m: Math, ss: seq<real>, ts: seq<real>, before: Platt, after: Platt)
    requires m.Lawful() && IsSingular(m, ss, before)
    ensures !StepsTo(m, ss, ts, before, after)
  {
    var ps, ws :| AreForecasts(m, before, ss, ps) && AreWeights(ps, ws) && TooSmall(ws, ss);
    forall ps', ws', rs | AreForecasts(m, before, ss, ps') && AreWeights(ps', ws') && AreResiduals(ps', ts, rs)
      ensures !Balances(ws', rs, ss, before.a - after.a, before.b - after.b)
    {
      ForecastsAreUnique(m, before, ss, ps, ps');
      assert ws == ws';
    }
  }

  lemma OddsAreUnique(p: real, q: real, odds: real)
    requires HasOdds(p, odds) && HasOdds(q, odds) && odds > 0.0
    ensures p == q
  {
    assert odds * (1.0 - p) - odds * (1.0 - q) == odds * (q - p);
    assert odds * (p - q) == -(odds * (q - p));
    if p < q {
      SameSign(odds, q - p);
    } else if q < p {
      SameSign(odds, p - q);
    }
  }

  lemma {:induction false} ForecastIsUnique(m: Math, params: Platt, s: real, p: real, p': real)
    requires m.Lawful() && IsForecast(m, params, s, p) && IsForecast(m, params, s, p')
    ensures p == p'
  {
    var odds := m.Exp(params.a + Times(params.b, s));
    m.Positive(params.a + Times(params.b, s));
    var q :| HasOdds(q, odds) && IsNearest(q, p);
    var q' :| HasOdds(q', odds) && IsNearest(q', p');
    OddsAreUnique(q, q', odds);
  }

  lemma {:induction false} ForecastsAreUnique(m: Math, params: Platt, ss: seq<real>, ps: seq<real>, ps': seq<real>)
    requires m.Lawful() && AreForecasts(m, params, ss, ps) && AreForecasts(m, params, ss, ps')
    ensures ps == ps'
  {
    forall i | 0 <= i < |ss|
      ensures ps[i] == ps'[i]
    {
      ForecastIsUnique(m, params, ss[i], ps[i], ps'[i]);
    }
  }

  lemma {:induction false} NewtonFollowsSteps(m: Math, ss: seq<real>, ts: seq<real>, tol: real,
      steps: (Platt, Platt) -> bool, dead: Platt -> bool, run: (Platt, nat) -> Platt, params: Platt, budget: nat)
    requires m.Lawful() && |ss| == |ts|
    requires forall p, q :: steps(p, q) == StepsTo(m, ss, ts, p, q)
    requires forall p :: dead(p) == IsSingular(m, ss, p)
    requires forall p, k :: EndsAlike(m, ss, ts, tol, run, p, k)
    ensures Follows(steps, dead, tol, run, params, budget)
  {
    assert EndsAlike(m, ss, ts, tol, run, params, budget);
    if budget > 0 {
      var iteration := NewtonFollows(m, ss, ts, tol, params, budget);
      if iteration.Move? {
        assert EndsAlike(m, ss, ts, tol, run, iteration.params, budget - 1);
        if IsSingular(m, ss, params) {
          SingularIsUnique(m, ss, ts, params, iteration.params);
        }
        assert steps(params, iteration.params);
      }
    }
  }

  lemma {:induction false} NewtonRuns(m: Math, ss: seq<real>, ts: seq<real>, params: Platt, tol: real, budget: nat)
    returns (trace: seq<Platt>)
    requires m.Lawful() && |ss| == |ts|
    ensures IsRun(m, ss, ts, tol, budget, trace)
    ensures trace[0] == params && trace[|trace| - 1] == Newton(m, ss, ts, params, tol, budget)
  {
    var run := (p: Platt, k: nat) => Newton(m, ss, ts, p, tol, k);
    var steps := (p: Platt, q: Platt) => StepsTo(m, ss, ts, p, q);
    var dead := (p: Platt) => IsSingular(m, ss, p);
    forall p, k
      ensures Follows(steps, dead, tol, run, p, k)
    {
      NewtonFollowsSteps(m, ss, ts, tol, steps, dead, run, p, k);
    }
    trace := FollowedRuns(steps, dead, params, tol, budget, run);
    TraceIsRun(m, ss, ts, tol, budget, steps, dead, trace);
  }

  lemma {:induction false} TraceIsRun(m: Math, ss: seq<real>, ts: seq<real>, tol: real, budget: nat,
      steps: (Platt, Platt) -> bool, dead: Platt -> bool, trace: seq<Platt>)
    requires forall p, q :: steps(p, q) == StepsTo(m, ss, ts, p, q)
    requires forall p :: dead(p) == IsSingular(m, ss, p)
    requires IsTrace(steps, dead, tol, budget, trace)
    ensures IsRun(m, ss, ts, tol, budget, trace)
  {
  }

  /** The fit ends where a run from `(0, 2)` against the smoothed labels does. */
  ghost predicate IsFit(m: Math, ss: seq<real>, ys: seq<int>, tol: real, maxIter: nat, params: Platt) {
    exists ts, trace :: AreSmoothed(ys, ts) && IsRun(m, ss, ts, tol, maxIter, trace)
      && trace[0] == Platt(0.0, 2.0) && trace[|trace| - 1] == params
  }

  lemma {:induction false} FitIsARun(m: Math, ss: seq<real>, ys: seq<int>, tol: real, maxIter: nat)
    requires m.Lawful() && |ss| == |ys|
    ensures IsFit(m, ss, ys, tol, maxIter, Newton(m, ss, Targets(ys), Platt(0.0, 2.0), tol, maxIter))
  {
    TargetsAreSmoothed(ys);
    var trace := NewtonRuns(m, ss, Targets(ys), Platt(0.0, 2.0), tol, maxIter);
  }

  // -------------------------------------------------------------------------------- the loss

  /** The probability the forecasts gave to what happened. */
  function Likelihood(ps: seq<real>, ys: seq<int>, n: nat): real
    requires n <= |ps| && n <= |ys|
  {
    if n == 0 then 1.0
    else Times(Likelihood(ps, ys, n - 1), if ys[n - 1] == 1 then ps[n - 1] else 1.0 - ps[n - 1])
  }

  lemma {:induction false} LossAdds(m: Math, loss: real, chance: real, likelihood: real)
    requires m.Lawful() && chance > 0.0 && m.Exp(-loss) == likelihood
    ensures m.Exp(-(loss + -m.Ln(chance))) == Times(likelihood, chance)
  {
    m.Adds(-loss, m.Ln(chance));
    m.Restores(chance);
    assert -loss + m.Ln(chance) == -(loss + -m.Ln(chance));
  }

  lemma {:induction false} LossOfPrefix(m: Math, params: Platt, ss: seq<real>, ys: seq<int>, n: nat)
    requires m.Lawful() && n <= |ss| == |ys|
    ensures m.Exp(-TotalLoss(m, params, ss[..n], ys[..n])) == Likelihood(Forecasts(m, params, ss), ys, n)
  {
    if n == 0 {
      m.AtZero();
      assert -0.0 == 0.0;
    } else {
      LossOfPrefix(m, params, ss, ys, n - 1);
      assert ss[..n][..n - 1] == ss[..n - 1] && ys[..n][..n - 1] == ys[..n - 1];
      var p := Forecast(m, params, ss[n - 1]);
      LossAdds(m, TotalLoss(m, params, ss[..n - 1], ys[..n - 1]), if ys[n - 1] == 1 then p else 1.0 - p,
        Likelihood(Forecasts(m, params, ss), ys, n - 1));
    }
  }

  ghost predicate HasLikelihood(m: Math, params: Platt, ss: seq<real>, ys: seq<int>, likelihood: real)
    requires |ss| == |ys|
  {
    exists ps :: AreForecasts(m, params, ss, ps) && likelihood == Likelihood(ps, ys, |ss|)
  }

  /** The reported loss times the number of observations is minus the logarithm of that probability. */
  lemma {:induction false} LossIsLikelihood(m: Math, params: Platt, ss: seq<real>, ys: seq<int>, loss: real)
    requires m.Lawful() && |ss| == |ys| > 0 && loss == TotalLoss(m, params, ss, ys) / |ss| as real
    ensures HasLikelihood(m, params, ss, ys, m.Exp(-Times(loss, |ss| as real)))
  {
    QuotientTimes(TotalLoss(m, params, ss, ys), |ss| as real);
    LossOfPrefix(m, params, ss, ys, |ss|);
    assert ss[..|ss|] == ss && ys[..|ss|] == ys;
    ForecastsAre(m, params, ss);
  }
}
