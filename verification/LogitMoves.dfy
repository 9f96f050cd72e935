/** What a fractional move of the log-odds does to a price. */
module LogitMoves {
  import opened Transcendental
  import opened BinaryMarket

  /** The nearest probability a market quotes: at least a millionth away from 0 and 1. */
  function Bounded(p: real): real {
    if p < 0.000001 then 0.000001 else if p > 0.999999 then 0.999999 else p
  }

  predicate Between(x: real, y: real, z: real) {
    x <= y <= z || z <= y <= x
  }

  /** `y` lies from `x` towards `z`: past neither, still at `x` only if that is `z`, and at `z` only in one go. */
  predicate MovesTowards(x: real, y: real, z: real, r: real) {
    Between(x, y, z) && (y == x <==> x == z) && (y == z <==> x == z || r == 1.0)
  }

  lemma BoundedIsClamped(p: real)
    ensures Bounded(p) == ClampProbability(p)
  {
  }

  lemma {:induction false} PriceOfLogit(m: Math, p: real)
    requires m.Lawful()
    ensures m.Sigmoid(m.Logit(p)) == Bounded(p)
  {
    m.SigmoidOfLogit(p);
    BoundedIsClamped(p);
  }

  lemma PartOf(gap: real, r: real, part: real)
    requires gap > 0.0 && 0.0 < r <= 1.0 && part == gap * r
    ensures 0.0 < part <= gap && (part == gap <==> r == 1.0)
  {
    MulMonotone(0.0, r, gap);
    MulMonotone(r, 1.0, gap);
  }

  lemma TowardsMoves(x: real, z: real, r: real)
    requires 0.0 < r <= 1.0
    ensures MovesTowards(x, Towards(x, z, r), z, r)
  {
    var part := (z - x) * r;
    assert Towards(x, z, r) == x + part;
    if x < z {
      PartOf(z - x, r, part);
    } else if z < x {
      assert -part == (x - z) * r;
      PartOf(x - z, r, -part);
    } else {
      assert part == 0.0;
    }
  }

  /** Prices move as their log-odds do. */
  lemma {:induction false} PricesMove(m: Math, x: real, z: real, r: real)
    requires m.Lawful() && 0.0 < r <= 1.0
    ensures MovesTowards(m.Sigmoid(x), m.Sigmoid(Towards(x, z, r)), m.Sigmoid(z), r)
  {
    var y := Towards(x, z, r);
    TowardsMoves(x, z, r);
    m.SigmoidIncreases(x, y);
    m.SigmoidIncreases(y, x);
    m.SigmoidIncreases(y, z);
    m.SigmoidIncreases(z, y);
    m.SigmoidIncreases(x, z);
  }

  lemma TowardsIsMonotone(x: real, y: real, s: real, t: real, r: real)
    requires 0.0 < r <= 1.0 && x <= y && s <= t
    ensures Towards(x, s, r) <= Towards(y, t, r)
  {
    ScalesUp(s, t, r);
    ScalesUp(x, y, 1.0 - r);
    Weighted(x, s, r);
    Weighted(y, t, r);
  }

  lemma Weighted(x: real, t: real, r: real)
    ensures Towards(x, t, r) == Times(x, 1.0 - r) + Times(t, r)
  {
  }

  lemma {:induction false} LogitIsMonotone(m: Math, p: real, q: real)
    requires m.Lawful() && p <= q
    ensures m.Logit(p) <= m.Logit(q)
  {
    m.LogitCompares(q, p);
  }

  lemma {:induction false} SigmoidIsMonotone(m: Math, x: real, y: real)
    requires m.Lawful() && x <= y
    ensures m.Sigmoid(x) <= m.Sigmoid(y)
  {
    m.SigmoidIncreases(y, x);
  }
}
