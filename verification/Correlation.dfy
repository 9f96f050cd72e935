/** Correlation of first differences, and the spread of a sample: what they can be, and when they reach their ends. */
module Correlation {
  import opened Transcendental

  function Steps(xs: seq<real>): (ds: seq<real>)
    requires xs != []
    ensures |ds| == |xs| - 1
  {
    seq(|xs| - 1, i requires 0 <= i < |xs| - 1 => xs[i + 1] - xs[i])
  }

  /** The sum of the first `n` values. */
  function Total(xs: seq<real>, n: nat): real
    requires n <= |xs|
  {
    if n == 0 then 0.0 else Total(xs, n - 1) + xs[n - 1]
  }

  function Mean(xs: seq<real>): real
    requires xs != []
  {
    Total(xs, |xs|) / |xs| as real
  }

  /** Every value, less `c`. */
  function Less(xs: seq<real>, c: real): (ys: seq<real>)
    ensures |ys| == |xs|
  {
    seq(|xs|, i requires 0 <= i < |xs| => xs[i] - c)
  }

  function Centred(xs: seq<real>): (ys: seq<real>)
    requires xs != []
    ensures |ys| == |xs|
  {
    Less(xs, Mean(xs))
  }

  /** The sum of the first `n` products. */
  function DotTo(xs: seq<real>, ys: seq<real>, n: nat): real
    requires n <= |xs| && n <= |ys|
  {
    if n == 0 then 0.0 else DotTo(xs, ys, n - 1) + Times(xs[n - 1], ys[n - 1])
  }

  function Dot(xs: seq<real>, ys: seq<real>): real
    requires |xs| == |ys|
  {
    DotTo(xs, ys, |xs|)
  }

  /** 0 when undefined: unpaired or too short, or either series without variation. */
  function OfCentred(m: Math, a: seq<real>, b: seq<real>): real
    requires |a| == |b|
  {
    if Dot(a, a) <= 0.0 || Dot(b, b) <= 0.0 then 0.0
    else
      var scale := m.Root(Times(Dot(a, a), Dot(b, b)));
      if scale == 0.0 then 0.0 else Dot(a, b) / scale
  }

  function OfDifferences(m: Math, left: seq<real>, right: seq<real>): real {
    if |left| != |right| || |left| < 3 then 0.0
    else OfCentred(m, Centred(Steps(left)), Centred(Steps(right)))
  }

  method Sum(xs: seq<real>) returns (total: real)
    ensures total == Total(xs, |xs|)
  {
    total := 0.0;
    for i := 0 to |xs|
      invariant total == Total(xs, i)
    {
      total := total + xs[i];
    }
  }

  /** The covariance and both variances, up to their common count. */
  method Moments(xs: seq<real>, ys: seq<real>, meanX: real, meanY: real)
    returns (cov: real, varX: real, varY: real)
    requires |xs| == |ys|
    ensures var a, b := Less(xs, meanX), Less(ys, meanY);
      cov == Dot(a, b) && varX == Dot(a, a) && varY == Dot(b, b)
  {
    ghost var a, b := Less(xs, meanX), Less(ys, meanY);
    cov, varX, varY := 0.0, 0.0, 0.0;
    for i := 0 to |xs|
      invariant cov == DotTo(a, b, i) && varX == DotTo(a, a, i) && varY == DotTo(b, b, i)
    {
      var x, y := xs[i] - meanX, ys[i] - meanY;
      cov := cov + Times(x, y);
      varX := varX + Times(x, x);
      varY := varY + Times(y, y);
    }
  }

  method DifferenceCorrelation(m: Math, left: seq<real>, right: seq<real>) returns (r: real)
    requires m.Lawful()
    ensures r == OfDifferences(m, left, right)
  {
    if |left| != |right| || |left| < 3 {
      return 0.0;
    }
    var dl, dr := Steps(left), Steps(right);
    var sumL := Sum(dl);
    var sumR := Sum(dr);
    var cov, varL, varR := Moments(dl, dr, sumL / |dl| as real, sumR / |dr| as real);
    if varL <= 0.0 || varR <= 0.0 {
      return 0.0;
    }
    ScaleIsPositive(m, varL, varR);
    r := cov / m.Root(Times(varL, varR));
  }

  lemma ScaleIsPositive(m: Math, x: real, y: real)
    requires m.Lawful() && x > 0.0 && y > 0.0
    ensures m.Root(Times(x, y)) > 0.0
    ensures Times(m.Root(Times(x, y)), m.Root(Times(x, y))) == Times(x, y)
  {
    SameSign(x, y);
    assert m.Holds(RootSquares(Times(x, y)));
    SquareSign(m.Root(Times(x, y)));
  }

  // -------------------------------------------------------------------------- what it can be

  /** `b - k a` */
  function Residual(a: seq<real>, b: seq<real>, k: real): (ds: seq<real>)
    requires |a| == |b|
    ensures |ds| == |a| && forall i :: 0 <= i < |a| ==> ds[i] == b[i] - Times(k, a[i])
  {
    seq(|a|, i requires 0 <= i < |a| => b[i] - Times(k, a[i]))
  }

  lemma {:induction false} SquaresSign(ds: seq<real>, n: nat)
    requires n <= |ds|
    ensures DotTo(ds, ds, n) >= 0.0
    ensures DotTo(ds, ds, n) == 0.0 <==> forall i :: 0 <= i < n ==> ds[i] == 0.0
  {
    if n > 0 {
      SquaresSign(ds, n - 1);
      SquareSign(ds[n - 1]);
    }
  }

  /** `B - 2 k C + k^2 A` */
  function Leftover(a: real, b: real, c: real, k: real): real {
    b - 2.0 * Times(k, c) + Times(k, Times(k, a))
  }

  lemma {:induction false} ResidualSquares(a: seq<real>, b: seq<real>, k: real, n: nat)
    requires n <= |a| == |b|
    ensures var ds := Residual(a, b, k);
      DotTo(ds, ds, n) == Leftover(DotTo(a, a, n), DotTo(b, b, n), DotTo(a, b, n), k)
  {
    if n > 0 {
      ResidualSquares(a, b, k, n - 1);
      LeftoverAdds(DotTo(a, a, n - 1), DotTo(b, b, n - 1), DotTo(a, b, n - 1), k, a[n - 1], b[n - 1]);
    }
  }

  lemma LeftoverAdds(a: real, b: real, c: real, k: real, x: real, y: real)
    ensures Leftover(a + Times(x, x), b + Times(y, y), c + Times(x, y), k) ==
      Leftover(a, b, c, k) + Times(y - Times(k, x), y - Times(k, x))
  {
    var kx := k * x;
    assert (y - kx) * (y - kx) == y * y - 2.0 * (kx * y) + kx * kx;
    assert k * (c + x * y) == k * c + kx * y;
    assert k * (k * (a + x * x)) == k * (k * a) + kx * kx;
  }

  /** At the best multiple nothing is left exactly when the squares match. */
  lemma LeftoverAtBest(a: real, b: real, c: real, k: real)
    requires a > 0.0 && Times(k, a) == c
    ensures Times(a, Leftover(a, b, c, k)) == Times(a, b) - Times(c, c)
  {
    assert Leftover(a, b, c, k) == b - k * c;
    assert a * (b - k * c) == a * b - (k * a) * c;
  }

  /** All of `b` is `k` times `a`. */
  predicate IsMultiple(a: seq<real>, b: seq<real>, k: real)
    requires |a| == |b|
  {
    forall i :: 0 <= i < |a| ==> b[i] == Times(k, a[i])
  }

  lemma BestMultiple(c: real, a: real) returns (k: real)
    requires a > 0.0
    ensures Times(k, a) == c
    ensures (k > 0.0 <==> c > 0.0) && (k < 0.0 <==> c < 0.0)
  {
    k := c / a;
    if k > 0.0 { SameSign(k, a); } else if k < 0.0 { SameSign(-k, a); assert Times(-k, a) == -Times(k, a); }
  }

  /** The inequality of Cauchy and Schwarz, with its equality case. */
  lemma {:induction false} CauchySchwarz(a: seq<real>, b: seq<real>) returns (k: real)
    requires |a| == |b| && Dot(a, a) > 0.0
    ensures Times(Dot(a, b), Dot(a, b)) <= Times(Dot(a, a), Dot(b, b))
    ensures Times(Dot(a, b), Dot(a, b)) == Times(Dot(a, a), Dot(b, b)) ==> IsMultiple(a, b, k)
    ensures (k > 0.0 <==> Dot(a, b) > 0.0) && (k < 0.0 <==> Dot(a, b) < 0.0)
  {
    k := BestMultiple(Dot(a, b), Dot(a, a));
    ResidualSquares(a, b, k, |a|);
    SquaresSign(Residual(a, b, k), |a|);
    LeftoverAtBest(Dot(a, a), Dot(b, b), Dot(a, b), k);
    ScaledSign(Dot(a, a), Leftover(Dot(a, a), Dot(b, b), Dot(a, b), k));
  }

  lemma ScaledSign(x: real, y: real)
    requires x > 0.0 && y >= 0.0
    ensures Times(x, y) >= 0.0 && (Times(x, y) == 0.0 <==> y == 0.0)
  {
    if y > 0.0 {
      SameSign(x, y);
    }
  }

  lemma {:induction false} DotOfMultiple(a: seq<real>, b: seq<real>, k: real, n: nat)
    requires n <= |a| == |b| && IsMultiple(a, b, k)
    ensures DotTo(a, b, n) == Times(k, DotTo(a, a, n)) && DotTo(b, b, n) == Times(k, Times(k, DotTo(a, a, n)))
  {
    if n > 0 {
      DotOfMultiple(a, b, k, n - 1);
      MultipleAdds(DotTo(a, a, n - 1), k, a[n - 1]);
    }
  }

  lemma MultipleAdds(s: real, k: real, x: real)
    ensures Times(k, s + Times(x, x)) == Times(k, s) + Times(x, Times(k, x))
    ensures Times(k, Times(k, s + Times(x, x))) == Times(k, Times(k, s)) + Times(Times(k, x), Times(k, x))
  {
    assert k * (s + x * x) == k * s + x * (k * x);
    assert k * (k * s + x * (k * x)) == k * (k * s) + (k * x) * (k * x);
  }

  lemma SquareOrder(x: real, y: real)
    requires x >= 0.0 && y >= 0.0 && Times(x, x) <= Times(y, y)
    ensures x <= y
  {
    assert (x - y) * (x + y) == x * x - y * y;
    if y < x {
      SameSign(x - y, x + y);
    }
  }

  lemma QuotientIsBounded(c: real, scale: real) returns (q: real)
    requires scale > 0.0 && Times(c, c) <= Times(scale, scale)
    ensures q == c / scale && -1.0 <= q <= 1.0
    ensures q == 1.0 <==> c == scale
    ensures q == -1.0 <==> c == -scale
  {
    assert Times(-c, -c) == Times(c, c);
    SquareOrder(if c >= 0.0 then c else -c, scale);
    q := c / scale;
    assert q * scale == c;
    QuotientOrder(q, 1.0, scale);
    QuotientOrder(-1.0, q, scale);
  }

  lemma QuotientOrder(x: real, y: real, scale: real)
    requires scale > 0.0
    ensures x <= y <==> Times(x, scale) <= Times(y, scale)
    ensures x == y <==> Times(x, scale) == Times(y, scale)
  {
    assert (y - x) * scale == y * scale - x * scale && (x - y) * scale == x * scale - y * scale;
    if x < y {
      SameSign(y - x, scale);
    } else if y < x {
      SameSign(x - y, scale);
    }
  }

  lemma {:induction false} MultipleReaches(m: Math, a: seq<real>, b: seq<real>, k: real)
    requires m.Lawful() && |a| == |b| && Dot(a, a) > 0.0 && Dot(b, b) > 0.0 && IsMultiple(a, b, k)
    ensures k > 0.0 ==> Dot(a, b) == m.Root(Times(Dot(a, a), Dot(b, b)))
    ensures k < 0.0 ==> Dot(a, b) == -m.Root(Times(Dot(a, a), Dot(b, b)))
  {
    DotOfMultiple(a, b, k, |a|);
    var s := Dot(a, a);
    assert Times(s, Times(k, Times(k, s))) == Times(Times(k, s), Times(k, s)) == Times(-Times(k, s), -Times(k, s));
    if k > 0.0 {
      SameSign(k, s);
      m.RootIs(Times(s, Dot(b, b)), Times(k, s));
    } else if k < 0.0 {
      SameSign(-k, s);
      assert Times(-k, s) == -Times(k, s);
      m.RootIs(Times(s, Dot(b, b)), -Times(k, s));
    }
  }

  lemma {:induction false} EndsReached(m: Math, a: seq<real>, b: seq<real>, scale: real)
    requires m.Lawful() && |a| == |b| && Dot(a, a) > 0.0 && Dot(b, b) > 0.0
    requires scale == m.Root(Times(Dot(a, a), Dot(b, b)))
    ensures scale > 0.0 && Times(Dot(a, b), Dot(a, b)) <= Times(scale, scale)
    ensures Dot(a, b) == scale <==> exists k :: k > 0.0 && IsMultiple(a, b, k)
    ensures Dot(a, b) == -scale <==> exists k :: k < 0.0 && IsMultiple(a, b, k)
  {
    ScaleIsPositive(m, Dot(a, a), Dot(b, b));
    var best := CauchySchwarz(a, b);
    assert Times(-scale, -scale) == Times(scale, scale);
    if k :| k > 0.0 && IsMultiple(a, b, k) {
      MultipleReaches(m, a, b, k);
    }
    if k :| k < 0.0 && IsMultiple(a, b, k) {
      MultipleReaches(m, a, b, k);
    }
  }

  /**
   * For series that both vary the correlation lies in `[-1, 1]`, and reaches an end exactly when
   * the one's centred differences are a multiple of the other's, with that sign.
   */
  lemma {:induction false} CorrelationIsBounded(m: Math, a: seq<real>, b: seq<real>)
    requires m.Lawful() && |a| == |b| && Dot(a, a) > 0.0 && Dot(b, b) > 0.0
    ensures -1.0 <= OfCentred(m, a, b) <= 1.0
    ensures OfCentred(m, a, b) == 1.0 <==> exists k :: k > 0.0 && IsMultiple(a, b, k)
    ensures OfCentred(m, a, b) == -1.0 <==> exists k :: k < 0.0 && IsMultiple(a, b, k)
  {
    var scale := m.Root(Times(Dot(a, a), Dot(b, b)));
    EndsReached(m, a, b, scale);
    var q := QuotientIsBounded(Dot(a, b), scale);
    assert OfCentred(m, a, b) == q;
  }

  /** Whatever is compared, the reported correlation lies in `[-1, 1]`. */
  lemma {:induction false} ReportedCorrelationIsBounded(m: Math, left: seq<real>, right: seq<real>)
    requires m.Lawful()
    ensures -1.0 <= OfDifferences(m, left, right) <= 1.0
  {
    if |left| == |right| && |left| >= 3 {
      var a, b := Centred(Steps(left)), Centred(Steps(right));
      if Dot(a, a) > 0.0 && Dot(b, b) > 0.0 {
        CorrelationIsBounded(m, a, b);
      }
    }
  }

  /** A series that varies correlates perfectly with itself; one that only trends steadily counts as 0. */
  lemma {:induction false} SelfCorrelation(m: Math, xs: seq<real>)
    requires m.Lawful() && |xs| >= 3
    ensures OfDifferences(m, xs, xs) == 1.0 || OfDifferences(m, xs, xs) == 0.0
    ensures OfDifferences(m, xs, xs) == 0.0 <==>
      forall i :: 0 <= i < |xs| - 1 ==> Steps(xs)[i] == Mean(Steps(xs))
  {
    var a := Centred(Steps(xs));
    SquaresSign(a, |a|);
    assert forall i :: 0 <= i < |a| ==> (a[i] == 0.0 <==> Steps(xs)[i] == Mean(Steps(xs)));
    if Dot(a, a) > 0.0 {
      CorrelationIsBounded(m, a, a);
      assert IsMultiple(a, a, 1.0);
    }
  }

  // ------------------------------------------------------------------------------ how they spread

  /** Mean squared distance from the mean. */
  function Variance(xs: seq<real>): real
    requires xs != []
  {
    Dot(Centred(xs), Centred(xs)) / |xs| as real
  }

  /** Standard deviation over mean, 0 unless the mean is positive. */
  function Variation(m: Math, xs: seq<real>): real
    requires xs != []
  {
    if Mean(xs) <= 0.0 then 0.0 else m.Root(Variance(xs)) / Mean(xs)
  }

  method SumSquares(xs: seq<real>, mean: real) returns (total: real)
    ensures total == Dot(Less(xs, mean), Less(xs, mean))
  {
    ghost var a := Less(xs, mean);
    total := 0.0;
    for i := 0 to |xs|
      invariant total == DotTo(a, a, i)
    {
      var d := xs[i] - mean;
      total := total + Times(d, d);
    }
  }

  method CoefficientOfVariation(m: Math, xs: seq<real>, mean: real) returns (v: real)
    requires xs != [] && mean == Mean(xs)
    ensures v == Variation(m, xs)
  {
    var squares := SumSquares(xs, mean);
    v := if mean > 0.0 then m.Root(squares / |xs| as real) / mean else 0.0;
  }

  lemma QuotientSignOf(x: real, y: real)
    requires y > 0.0 && x >= 0.0
    ensures x / y >= 0.0 && (x / y == 0.0 <==> x == 0.0)
  {
    var q := x / y;
    assert q * y == x && Times(-q, y) == -x;
    if q < 0.0 {
      SameSign(-q, y);
    }
  }

  lemma RootSign(m: Math, y: real)
    requires m.Lawful() && y >= 0.0
    ensures m.Root(y) >= 0.0 && (m.Root(y) == 0.0 <==> y == 0.0)
  {
    assert m.Holds(RootSquares(y));
    SquareSign(m.Root(y));
  }

  /** The coefficient of variation is zero exactly for equal values, when the mean is positive. */
  lemma {:induction false} VariationIsZeroForEqualValues(m: Math, xs: seq<real>)
    requires m.Lawful() && xs != [] && Mean(xs) > 0.0
    ensures Variation(m, xs) >= 0.0
    ensures Variation(m, xs) == 0.0 <==> forall i :: 0 <= i < |xs| ==> xs[i] == Mean(xs)
  {
    var a := Centred(xs);
    SquaresSign(a, |a|);
    assert forall i :: 0 <= i < |a| ==> (a[i] == 0.0 <==> xs[i] == Mean(xs));
    QuotientSignOf(Dot(a, a), |xs| as real);
    RootSign(m, Variance(xs));
    QuotientSignOf(m.Root(Variance(xs)), Mean(xs));
  }
}
