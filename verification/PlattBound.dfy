/** What smoothing the labels buys: wherever the fit comes to rest, its log-odds are bounded. */
module PlattBound {
  import opened Wrappers
  import opened Transcendental
  import opened Calibration
  import opened PlattFit

  /** The largest class the smoothing keeps inside the clip: `1 / EPS` less two, exclusive. */
  const CLASS_LIMIT := 999998

  /** The sum of the absolute log-odds forecast. */
  function Reach(params: Platt, ss: seq<real>): (sum: real)
    ensures sum >= 0.0
  {
    if ss == [] then 0.0 else Reach(params, ss[..|ss| - 1]) + Abs(Line(params, ss[|ss| - 1]))
  }

  /** Twice `d` away from either end of the clip. */
  predicate Inside(t: real, d: real) {
    EPS + 2.0 * d <= t <= 1.0 - EPS - 2.0 * d
  }

  ghost predicate AllInside(ts: seq<real>, d: real) {
    forall i :: 0 <= i < |ts| ==> Inside(ts[i], d)
  }

  /** The log-odds beyond which a forecast is past every target by `d`. */
  function Knee(m: Math, d: real): real {
    m.Logit(1.0 - EPS - d)
  }

  lemma {:induction false} SigmoidReflects(m: Math, x: real)
    requires m.Lawful()
    ensures m.Sigmoid(-x) == 1.0 - m.Sigmoid(x)
  {
    m.SigmoidIsLogistic(x);
    m.SigmoidIsLogistic(-x);
    var e := m.Exp(x);
    assert 1.0 / (1.0 + e) + e / (1.0 + e) == 1.0;
  }

  lemma {:induction false} KneeIsPositive(m: Math, d: real)
    requires m.Lawful() && d > 0.0 && EPS + 2.0 * d <= 0.5
    ensures Knee(m, d) > 0.0
    ensures m.Sigmoid(Knee(m, d)) == 1.0 - EPS - d && m.Sigmoid(-Knee(m, d)) == EPS + d
  {
    m.SigmoidOfLogit(1.0 - EPS - d);
    SigmoidReflects(m, Knee(m, d));
    SigmoidReflects(m, 0.0);
    m.SigmoidIncreases(0.0, Knee(m, d));
  }

  lemma SameProduct(x: real, y: real)
    ensures Times(-x, -y) == Times(x, y)
  {
  }

  lemma ScaledUp(gap: real, z: real, d: real)
    requires gap >= d && z >= 0.0
    ensures Times(gap, z) >= Times(d, z)
  {
    MulMonotone(d, gap, z);
  }

  lemma ProductIsAtLeast(gap: real, z: real, d: real)
    requires (gap >= d && z > 0.0) || (gap <= -d && z < 0.0)
    ensures Times(gap, z) >= Times(d, Abs(z))
  {
    if z > 0.0 {
      ScaledUp(gap, z, d);
    } else {
      ScaledUp(-gap, -z, d);
      SameProduct(gap, z);
    }
  }

  lemma NoMoreThan(gap: real, z: real)
    requires -1.0 <= gap <= 1.0
    ensures Times(gap, z) >= -Abs(z)
  {
    assert Times(-1.0, Abs(z)) == -Abs(z);
    if z >= 0.0 {
      ScaledUp(gap, z, -1.0);
    } else {
      ScaledUp(-gap, -z, -1.0);
      SameProduct(gap, z);
    }
  }

  lemma ProductNearZero(gap: real, z: real, d: real, knee: real)
    requires -1.0 <= gap <= 1.0 && Abs(z) <= knee && d > 0.0
    ensures Times(gap, z) >= Times(d, Abs(z)) - Times(1.0 + d, knee)
  {
    var size := Abs(z);
    assert Times(gap, z) >= -size by {
      NoMoreThan(gap, z);
    }
    MulMonotone(size, knee, 1.0 + d);
    assert (1.0 + d) * size == size + d * size;
  }

  /** Every observation pulls its log-odds back, but for what the knee allows. */
  lemma {:induction false} OneIsHeld(m: Math, params: Platt, s: real, t: real, d: real)
    requires m.Lawful() && d > 0.0 && Inside(t, d)
    ensures Times(Forecast(m, params, s) - t, Line(params, s)) >=
      Times(d, Abs(Line(params, s))) - Times(1.0 + d, Knee(m, d))
  {
    var z, knee, gap := Line(params, s), Knee(m, d), Forecast(m, params, s) - t;
    KneeIsPositive(m, d);
    SameSign(1.0 + d, knee);
    if z > knee {
      m.SigmoidIncreases(knee, z);
      ProductIsAtLeast(gap, z, d);
    } else if z < -knee {
      m.SigmoidIncreases(z, -knee);
      ProductIsAtLeast(gap, z, d);
    } else {
      ProductNearZero(gap, z, d, knee);
    }
  }

  lemma SumStep(n: nat, d: real, reach: real, z: real, allowed: real, pairing: real, last: real)
    requires pairing >= Times(d, reach) - Times(n as real, allowed) && last >= Times(d, z) - allowed
    ensures pairing + last >= Times(d, reach + z) - Times((n + 1) as real, allowed)
  {
    assert (n + 1) as real == n as real + 1.0;
    assert d * (reach + z) == d * reach + d * z && (n as real + 1.0) * allowed == n as real * allowed + allowed;
  }

  lemma ReachAppend(params: Platt, ss: seq<real>, s: real)
    ensures Reach(params, ss + [s]) == Reach(params, ss) + Abs(Line(params, s))
  {
    assert (ss + [s])[..|ss|] == ss;
  }

  lemma {:induction false} AllAreHeld(m: Math, params: Platt, ss: seq<real>, ts: seq<real>, d: real)
    requires m.Lawful() && |ss| == |ts| && d > 0.0 && AllInside(ts, d)
    ensures Pairing(Residuals(m, params, ss, ts), params, ss) >=
      Times(d, Reach(params, ss)) - Times(|ss| as real, Times(1.0 + d, Knee(m, d)))
  {
    if ss == [] {
      assert Times(d, 0.0) == 0.0 && Times(0.0, Times(1.0 + d, Knee(m, d))) == 0.0;
    } else {
      var n := |ss| - 1;
      var front, s, targets, t := ss[..n], ss[n], ts[..n], ts[n];
      assert ss == front + [s] && ts == targets + [t];
      assert AllInside(targets, d) && Inside(t, d);
      AllAreHeld(m, params, front, targets, d);
      OneMoreIsHeld(m, params, front, targets, s, t, d, Times(1.0 + d, Knee(m, d)));
    }
  }

  lemma {:induction false} OneMoreIsHeld(m: Math, params: Platt, ss: seq<real>, ts: seq<real>, s: real, t: real,
      d: real, allowed: real)
    requires m.Lawful() && |ss| == |ts| && d > 0.0 && Inside(t, d) && allowed == Times(1.0 + d, Knee(m, d))
    requires Pairing(Residuals(m, params, ss, ts), params, ss) >=
      Times(d, Reach(params, ss)) - Times(|ss| as real, allowed)
    ensures Pairing(Residuals(m, params, ss + [s], ts + [t]), params, ss + [s]) >=
      Times(d, Reach(params, ss + [s])) - Times((|ss| + 1) as real, allowed)
  {
    OneIsHeld(m, params, s, t, d);
    ResidualsAppend(m, params, ss, ts, s, t);
    PairingAppend(Residuals(m, params, ss, ts), Forecast(m, params, s) - t, params, ss, s);
    ReachAppend(params, ss, s);
    SumStep(|ss|, d, Reach(params, ss), Abs(Line(params, s)), allowed,
      Pairing(Residuals(m, params, ss, ts), params, ss), Times(Forecast(m, params, s) - t, Line(params, s)));
  }

  /**
   * Against targets inside the clip every stationary point is bounded: its mean absolute log-odds
   * are at most `(1 + d) / d` knees, whatever the signals.
   */
  lemma {:induction false} StationaryPointIsBounded(m: Math, params: Platt, ss: seq<real>, ts: seq<real>, d: real)
    requires m.Lawful() && |ss| == |ts| && d > 0.0 && AllInside(ts, d)
    requires GradientAt(m, params, ss, ts) == Gradient(0.0, 0.0)
    ensures Times(d, Reach(params, ss)) <= Times(|ss| as real, Times(1.0 + d, Knee(m, d)))
  {
    AllAreHeld(m, params, ss, ts, d);
    PairingIsGradient(Residuals(m, params, ss, ts), params, ss);
    assert Times(params.a, 0.0) == 0.0 && Times(params.b, 0.0) == 0.0;
  }

  // ------------------------------------------------------------------------ the smoothed labels

  /** Half the room that classes of these sizes leave to the clip. */
  function Margin(positives: nat, negatives: nat): real {
    var larger := if positives >= negatives then positives else negatives;
    (1.0 / (larger as real + 2.0) - EPS) / 2.0
  }

  lemma ReciprocalOrder(x: real, y: real)
    requires 0.0 < x <= y
    ensures 1.0 / y <= 1.0 / x
    ensures 1.0 / y == 1.0 / x ==> x == y
  {
    var u, v := 1.0 / x, 1.0 / y;
    assert u * x == 1.0 && v * y == 1.0;
    if v > u {
      MulMonotone(u, v, y);
      MulMonotone(x, y, u);
    }
    if v == u {
      assert u * (y - x) == 0.0;
    }
  }

  lemma PositiveLabel(n: real)
    requires n >= 0.0
    ensures (n + 1.0) / (n + 2.0) == 1.0 - 1.0 / (n + 2.0)
  {
    var u := 1.0 / (n + 2.0);
    assert u * (n + 2.0) == 1.0;
    assert (1.0 - u) * (n + 2.0) == n + 1.0;
  }

  lemma {:induction false} LabelsAreInside(positives: nat, negatives: nat, y: int)
    ensures Inside(TargetOf(positives, negatives, y), Margin(positives, negatives))
  {
    var larger := if positives >= negatives then positives else negatives;
    PositiveLabel(positives as real);
    ReciprocalOrder(positives as real + 2.0, larger as real + 2.0);
    ReciprocalOrder(negatives as real + 2.0, larger as real + 2.0);
    ReciprocalOrder(2.0, larger as real + 2.0);
    ReciprocalOrder(2.0, positives as real + 2.0);
    ReciprocalOrder(2.0, negatives as real + 2.0);
  }

  lemma {:induction false} RoomExactlyWhen(n: nat)
    ensures 1.0 / (n as real + 2.0) > EPS <==> n < CLASS_LIMIT
  {
    var u := 1.0 / (n as real + 2.0);
    assert u * (n as real + 2.0) == 1.0;
    assert EPS * 1000000.0 == 1.0;
    if n < CLASS_LIMIT {
      ReciprocalOrder(n as real + 2.0, 1000000.0);
    } else {
      ReciprocalOrder(1000000.0, n as real + 2.0);
    }
  }

  /** The smoothed labels lie strictly inside the clip exactly while no class reaches `CLASS_LIMIT`. */
  lemma {:induction false} LabelsAreInsideExactlyWhen(positives: nat, negatives: nat)
    ensures EPS < TargetOf(positives, negatives, 0) && TargetOf(positives, negatives, 1) < 1.0 - EPS
      <==> positives < CLASS_LIMIT && negatives < CLASS_LIMIT
  {
    PositiveLabel(positives as real);
    RoomExactlyWhen(positives);
    RoomExactlyWhen(negatives);
  }

  /** The mean absolute log-odds that classes of these sizes allow. */
  function MeanBound(m: Math, positives: nat, negatives: nat): real
    requires Margin(positives, negatives) > 0.0
  {
    var d := Margin(positives, negatives);
    Times(1.0 + d, Knee(m, d)) / d
  }

  lemma DivideOut(d: real, reach: real, n: real, allowed: real)
    requires d > 0.0 && Times(d, reach) <= Times(n, allowed)
    ensures reach <= Times(n, allowed / d)
  {
    var q := allowed / d;
    assert q * d == allowed;
    assert Times(n, allowed) == Times(d, Times(n, q));
    if reach > Times(n, q) {
      TimesIncreases(d, Times(n, q), reach);
    }
  }

  /**
   * Smoothing bounds the solution: at any stationary point of a fit whose classes stay below
   * `CLASS_LIMIT`, the mean absolute log-odds are within a bound that depends on the class sizes alone.
   */
  lemma {:induction false} SmoothingBoundsTheFit(m: Math, params: Platt, ss: seq<real>, ys: seq<int>)
    requires m.Lawful() && |ss| == |ys|
    requires Count(ys, 1) < CLASS_LIMIT && Count(ys, 0) < CLASS_LIMIT
    requires GradientAt(m, params, ss, Targets(ys)) == Gradient(0.0, 0.0)
    ensures Margin(Count(ys, 1), Count(ys, 0)) > 0.0
    ensures Reach(params, ss) <= Times(|ss| as real, MeanBound(m, Count(ys, 1), Count(ys, 0)))
  {
    var d, ts := Margin(Count(ys, 1), Count(ys, 0)), Targets(ys);
    RoomExactlyWhen(Count(ys, 1));
    RoomExactlyWhen(Count(ys, 0));
    forall i | 0 <= i < |ts|
      ensures Inside(ts[i], d)
    {
      LabelsAreInside(Count(ys, 1), Count(ys, 0), ys[i]);
    }
    StationaryPointIsBounded(m, params, ss, ts, d);
    DivideOut(d, Reach(params, ss), |ss| as real, Times(1.0 + d, Knee(m, d)));
  }

  lemma {:induction false} ReachCovers(params: Platt, ss: seq<real>, i: nat)
    requires i < |ss|
    ensures Abs(Line(params, ss[i])) <= Reach(params, ss)
  {
    if i < |ss| - 1 {
      ReachCovers(params, ss[..|ss| - 1], i);
    }
  }

  lemma {:induction false} ReachCoversTwo(params: Platt, ss: seq<real>, i: nat, j: nat)
    requires i < j < |ss|
    ensures Abs(Line(params, ss[i])) + Abs(Line(params, ss[j])) <= Reach(params, ss)
  {
    if j < |ss| - 1 {
      ReachCoversTwo(params, ss[..|ss| - 1], i, j);
    } else {
      ReachCovers(params, ss[..|ss| - 1], i);
    }
  }

  lemma SlopeOf(params: Platt, s: real, t: real)
    ensures Times(params.b, s - t) == Line(params, s) - Line(params, t)
  {
  }

  /** So is the slope, by any two signals: `|b| |s - t|` is at most the reach. */
  lemma {:induction false} ReachBoundsTheSlope(params: Platt, ss: seq<real>, i: nat, j: nat)
    requires i < j < |ss|
    ensures Abs(Times(params.b, ss[i] - ss[j])) <= Reach(params, ss)
  {
    ReachCoversTwo(params, ss, i, j);
    SlopeOf(params, ss[i], ss[j]);
  }

  /** Past that limit smoothing no longer helps: separable data has no stationary point again. */
  lemma {:induction false} LargeClassesHaveNoFit(m: Math, params: Platt, direction: Platt, ss: seq<real>, ys: seq<int>)
    requires |ss| == |ys| && ss != [] && Separates(direction, ss, ys)
    requires Count(ys, 1) > CLASS_LIMIT && Count(ys, 0) > CLASS_LIMIT
    ensures GradientAt(m, params, ss, Targets(ys)) != Gradient(0.0, 0.0)
  {
    var ts := Targets(ys);
    LabelsArePast(Count(ys, 1), Count(ys, 0));
    forall i | 0 <= i < |ss|
      ensures OutOfReach(direction, ss[i], ys[i], ts[i])
    {
      assert OnItsSide(direction, ss[i], ys[i]);
    }
    PastTheClipNothingFits(m, params, direction, ss, ys, ts);
  }

  lemma {:induction false} LabelsArePast(positives: nat, negatives: nat)
    requires positives > CLASS_LIMIT && negatives > CLASS_LIMIT
    ensures TargetOf(positives, negatives, 0) < EPS && TargetOf(positives, negatives, 1) > 1.0 - EPS
  {
    PositiveLabel(positives as real);
    assert 1.0 / 1000000.0 == EPS;
    ReciprocalOrder(1000000.0, positives as real + 2.0);
    ReciprocalOrder(1000000.0, negatives as real + 2.0);
  }
}
