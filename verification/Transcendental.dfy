/** `exp` and `ln` by their laws, and the logistic pair derived from them. */
module Transcendental {

  /** Probabilities are held off {0, 1} by this much before any logit. */
  const EPS: real := 0.000001

  function Min(x: real, y: real): real {
    if x < y then x else y
  }

  function Max(x: real, y: real): real {
    if x < y then y else x
  }

  function Abs(x: real): real {
    if x < 0.0 then -x else x
  }

  function Clip(x: real, lo: real, hi: real): real {
    Max(lo, Min(hi, x))
  }

  /** A product with a name, so that equal factors visibly give equal products. */
  function Times(x: real, y: real): real {
    x * y
  }

  function ClampProbability(p: real): (q: real)
    ensures EPS <= q <= 1.0 - EPS
    ensures EPS <= p <= 1.0 - EPS ==> q == p
  {
    Min(1.0 - EPS, Max(EPS, p))
  }

  /** What is known of the real functions, one instance at a time. */
  datatype Law =
    | ExpOfZero
    | ExpPositive(x: real)
    | ExpAdds(x: real, y: real)
    | ExpIncreases(x: real, y: real)
    | LnUndoesExp(x: real)
    | ExpUndoesLn(y: real)
    | SigmoidComputed(x: real)
    | LogitComputed(p: real)
    | RootSquares(y: real)

  /**
   * Real exponential, logarithm and square root, and the logistic pair the services compute from them.
   * The laws tie `Sigmoid` and `Logit` to the code that evaluates them; rounding plays no part.
   */
  datatype Math = Math(
    exponential: real -> real, logarithm: real -> real, logistic: real -> real, logOdds: real -> real,
    root: real -> real)
  {
    function Exp(x: real): real { exponential(x) }
    function Ln(x: real): real { logarithm(x) }
    function Sigmoid(x: real): real { logistic(x) }
    function Logit(p: real): real { logOdds(p) }
    function Root(y: real): real { root(y) }

    /** The logistic function, branching on the sign to keep `exp` small. */
    function StableSigmoid(x: real): real
      requires Exp(x) > 0.0 && Exp(-x) > 0.0
    {
      if x >= 0.0 then 1.0 / (1.0 + Exp(-x)) else Exp(x) / (1.0 + Exp(x))
    }

    function ClampedLogit(p: real): real {
      var q := ClampProbability(p);
      Ln(q / (1.0 - q))
    }

    ghost predicate Holds(law: Law) {
      match law
      case ExpOfZero => Exp(0.0) == 1.0
      case ExpPositive(x) => Exp(x) > 0.0
      case ExpAdds(x, y) => Exp(x + y) == Exp(x) * Exp(y)
      case ExpIncreases(x, y) => x < y ==> Exp(x) < Exp(y)
      case LnUndoesExp(x) => Ln(Exp(x)) == x
      case ExpUndoesLn(y) => y > 0.0 ==> Exp(Ln(y)) == y
      case SigmoidComputed(x) => Exp(x) > 0.0 && Exp(-x) > 0.0 && Sigmoid(x) == StableSigmoid(x)
      case LogitComputed(p) => Logit(p) == ClampedLogit(p)
      case RootSquares(y) => y >= 0.0 ==> Root(y) >= 0.0 && Times(Root(y), Root(y)) == y
    }

    ghost predicate Lawful() {
      forall law :: Holds(law)
    }

    lemma AtZero()
      requires Lawful()
      ensures Exp(0.0) == 1.0 && Ln(1.0) == 0.0
    {
      assert Holds(ExpOfZero) && Holds(LnUndoesExp(0.0));
    }

    lemma Positive(x: real)
      requires Lawful()
      ensures Exp(x) > 0.0
    {
      assert Holds(ExpPositive(x));
    }

    lemma Adds(x: real, y: real)
      requires Lawful()
      ensures Exp(x + y) == Exp(x) * Exp(y)
    {
      assert Holds(ExpAdds(x, y));
    }

    lemma {:induction false} Compares(x: real, y: real)
      requires Lawful()
      ensures x < y <==> Exp(x) < Exp(y)
      ensures x == y <==> Exp(x) == Exp(y)
    {
      assert Holds(ExpIncreases(x, y)) && Holds(ExpIncreases(y, x));
    }

    lemma Inverse(x: real)
      requires Lawful()
      ensures Ln(Exp(x)) == x
    {
      assert Holds(LnUndoesExp(x));
    }

    lemma Restores(y: real)
      requires Lawful() && y > 0.0
      ensures Exp(Ln(y)) == y
    {
      assert Holds(ExpUndoesLn(y));
    }

    lemma RootIs(y: real, x: real)
      requires Lawful() && x >= 0.0 && y == Times(x, x)
      ensures Root(y) == x
    {
      SquareSign(x);
      assert Holds(RootSquares(y));
      SameSquare(Root(y), x);
    }

    lemma {:induction false} LnCompares(x: real, y: real)
      requires Lawful() && x > 0.0 && y > 0.0
      ensures x < y <==> Ln(x) < Ln(y)
      ensures x == y <==> Ln(x) == Ln(y)
    {
      Restores(x);
      Restores(y);
      Compares(Ln(x), Ln(y));
    }

    lemma {:induction false} LnOfProduct(x: real, y: real, z: real)
      requires Lawful() && x > 0.0 && y > 0.0 && z == x * y
      ensures Ln(z) == Ln(x) + Ln(y)
    {
      Restores(x);
      Restores(y);
      var u, v := Ln(x), Ln(y);
      Adds(u, v);
      assert Exp(u + v) == z by {
        assert Exp(u) * Exp(v) == x * Exp(v);
      }
      Inverse(u + v);
    }

    lemma {:induction false} Negates(x: real)
      requires Lawful()
      ensures Exp(-x) > 0.0 && Exp(x) > 0.0 && Exp(-x) * Exp(x) == 1.0
      ensures Exp(-x) == 1.0 / Exp(x)
    {
      Positive(x);
      Positive(-x);
      Adds(-x, x);
      AtZero();
    }

    /** Every logit lies in `[-Band(), Band()]`. */
    function Band(): real {
      Ln((1.0 - EPS) / EPS)
    }

    /** Both branches are the one logistic curve, and the odds of its value are `Exp(x)`. */
    lemma {:induction false} SigmoidIsLogistic(x: real)
      requires Lawful()
      ensures Exp(x) > 0.0 && Exp(-x) > 0.0
      ensures Sigmoid(x) == 1.0 / (1.0 + Exp(-x)) == Exp(x) / (1.0 + Exp(x))
      ensures 0.0 < Sigmoid(x) < 1.0
      ensures Odds(Sigmoid(x)) == Exp(x)
    {
      assert Holds(SigmoidComputed(x));
      Negates(x);
      var e, f := Exp(x), Exp(-x);
      assert e / (1.0 + e) == 1.0 / (1.0 + f) by {
        assert e * (1.0 + f) == e + f * e;
        CrossMultiply(e, 1.0 + e, 1.0, 1.0 + f);
      }
      OddsOfShare(e);
    }

    lemma {:induction false} SigmoidIncreases(x: real, y: real)
      requires Lawful()
      ensures x < y <==> Sigmoid(x) < Sigmoid(y)
      ensures x == y <==> Sigmoid(x) == Sigmoid(y)
    {
      SigmoidIsLogistic(x);
      SigmoidIsLogistic(y);
      Compares(x, y);
      OddsIncrease(Sigmoid(x), Sigmoid(y));
    }

    lemma {:induction false} BandIsPositive()
      requires Lawful()
      ensures Band() > 0.0
      ensures Exp(Band()) == Odds(1.0 - EPS) && Exp(-Band()) == Odds(EPS)
      ensures Logit(0.0) == -Band() && Logit(1.0) == Band()
    {
      var o := (1.0 - EPS) / EPS;
      Restores(o);
      AtZero();
      Compares(0.0, Band());
      Negates(Band());
      assert Holds(LogitComputed(0.0)) && Holds(LogitComputed(1.0));
      assert Exp(-Band()) == EPS / (1.0 - EPS);
      Inverse(-Band());
    }

    lemma {:induction false} LogitInBand(p: real)
      requires Lawful()
      ensures -Band() <= Logit(p) <= Band()
      ensures Exp(Logit(p)) == Odds(ClampProbability(p))
    {
      assert Holds(LogitComputed(p));
      var q := ClampProbability(p);
      OddsIncrease(q, 1.0 - EPS);
      OddsIncrease(EPS, q);
      BandIsPositive();
      OddsPositive(q);
      Restores(Odds(q));
      Compares(Logit(p), Band());
      Compares(-Band(), Logit(p));
    }

    lemma {:induction false} LogitOfClamped(p: real)
      requires Lawful()
      ensures Logit(ClampProbability(p)) == Logit(p)
    {
      assert Holds(LogitComputed(p)) && Holds(LogitComputed(ClampProbability(p)));
    }

    /** `sigmoid` undoes `logit` up to the probability clamp. */
    lemma {:induction false} SigmoidOfLogit(p: real)
      requires Lawful()
      ensures Sigmoid(Logit(p)) == ClampProbability(p)
    {
      LogitInBand(p);
      SigmoidIsLogistic(Logit(p));
      OddsIncrease(Sigmoid(Logit(p)), ClampProbability(p));
    }

    /** `logit` undoes `sigmoid` up to the clamp to the band. */
    lemma {:induction false} LogitOfSigmoid(x: real)
      requires Lawful()
      ensures Logit(Sigmoid(x)) == Clip(x, -Band(), Band())
    {
      var s := Sigmoid(x);
      SigmoidIsLogistic(x);
      LogitInBand(s);
      BandIsPositive();
      Compares(x, Band());
      Compares(x, -Band());
      OddsIncrease(s, EPS);
      OddsIncrease(s, 1.0 - EPS);
      Compares(Logit(s), x);
      Compares(Logit(s), Band());
      Compares(Logit(s), -Band());
    }

    /** Logits are strictly increasing between the clamps. */
    lemma {:induction false} LogitCompares(p: real, q: real)
      requires Lawful()
      ensures Logit(p) < Logit(q) <==> ClampProbability(p) < ClampProbability(q)
    {
      LogitInBand(p);
      LogitInBand(q);
      Compares(Logit(p), Logit(q));
      OddsIncrease(ClampProbability(p), ClampProbability(q));
    }
  }

  lemma MulMonotone(x: real, y: real, k: real)
    requires x <= y && k >= 0.0
    ensures x * k <= y * k
    ensures x < y && k > 0.0 ==> x * k < y * k
  {
  }

  lemma ScalesUp(x: real, y: real, k: real)
    requires x <= y && k >= 0.0
    ensures Times(x, k) <= Times(y, k)
  {
  }

  lemma QuotientTimes(x: real, y: real)
    requires y > 0.0
    ensures Times(x / y, y) == x
  {
  }

  lemma TimesIncreases(k: real, x: real, y: real)
    requires k > 0.0 && x < y
    ensures Times(k, x) < Times(k, y)
  {
  }

  lemma SquareSign(d: real)
    ensures Times(d, d) >= 0.0
    ensures Times(d, d) == 0.0 <==> d == 0.0
  {
    if d != 0.0 {
      SameSign(d, d);
    } else {
      assert Times(0.0, d) == 0.0;
    }
  }

  lemma SameSquare(x: real, y: real)
    requires x >= 0.0 && y >= 0.0 && Times(x, x) == Times(y, y)
    ensures x == y
  {
    assert (x - y) * (x + y) == x * x - y * y && (y - x) * (x + y) == y * y - x * x;
    if x < y {
      SameSign(y - x, x + y);
    } else if y < x {
      SameSign(x - y, x + y);
    }
  }

  lemma SameSign(x: real, y: real)
    requires (x > 0.0 && y > 0.0) || (x < 0.0 && y < 0.0)
    ensures Times(x, y) > 0.0
  {
  }

  function Odds(p: real): real
    requires p != 1.0
  {
    p / (1.0 - p)
  }

  lemma CrossMultiply(a: real, b: real, c: real, d: real)
    requires b > 0.0 && d > 0.0
    requires a * d == c * b
    ensures a / b == c / d
  {
    var x, y := a / b, c / d;
    assert x * b == a && y * d == c;
    assert x * (b * d) == y * (b * d) by {
      assert x * (b * d) == (x * b) * d;
      assert y * (b * d) == (y * d) * b;
    }
    assert (x - y) * (b * d) == 0.0;
    assert b * d > 0.0;
  }

  lemma OddsPositive(p: real)
    requires 0.0 < p < 1.0
    ensures Odds(p) > 0.0
  {
  }

  lemma OddsOfShare(e: real)
    requires e > 0.0
    ensures 0.0 < e / (1.0 + e) < 1.0
    ensures Odds(e / (1.0 + e)) == e
  {
    var s := e / (1.0 + e);
    assert s * (1.0 + e) == e;
    if s >= 1.0 {
      MulMonotone(1.0, s, 1.0 + e);
    }
    assert e * (1.0 - s) == s;
    CrossMultiply(s, 1.0 - s, e, 1.0);
  }

  lemma OddsIncrease(p: real, q: real)
    requires 0.0 < p < 1.0 && 0.0 < q < 1.0
    ensures p < q <==> Odds(p) < Odds(q)
    ensures p == q <==> Odds(p) == Odds(q)
  {
    var a, b := Odds(p), Odds(q);
    assert a * (1.0 - p) == p && b * (1.0 - q) == q;
    OddsPositive(p);
    OddsPositive(q);
    if p < q {
      OddsStrict(p, q);
    } else if q < p {
      OddsStrict(q, p);
    }
  }

  lemma OddsStrict(p: real, q: real)
    requires 0.0 < p < q < 1.0
    ensures Odds(p) < Odds(q)
  {
    var a, b := Odds(p), Odds(q);
    OddsPositive(p);
    OddsPositive(q);
    assert a == p + a * p && b == q + b * q;
    MulMonotone(p, q, a);
    assert a - a * q < q;
    if b <= a {
      MulMonotone(b, a, 1.0 - q);
    }
  }
}
