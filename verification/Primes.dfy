/** The number theory behind the hash family: affine maps modulo a prime are permutations. */
module Primes {

  ghost predicate IsPrime(p: nat) {
    p > 1 && forall d :: 1 < d < p ==> p % d != 0
  }

  lemma ModOfMultiple(p: nat, k: int)
    requires p > 0
    ensures (k * p) % p == 0
  {
    ModUnique(p, k * p, k, 0);
  }

  lemma MulAtLeast(k: int, p: int)
    requires k >= 1 && p >= 0
    ensures k * p >= p
  {
  }

  lemma MulAtMost(x: nat, y: nat, n: nat)
    requires x <= y
    ensures x * n <= y * n
  {
  }

  lemma ModUnique(p: nat, x: int, q: int, r: int)
    requires p > 0 && x == q * p + r && 0 <= r < p
    ensures x % p == r && x / p == q
  {
    var q', r' := x / p, x % p;
    assert x == q' * p + r';
    assert (q - q') * p == r' - r by {
      assert (q - q') * p == q * p - q' * p;
    }
    if q - q' >= 1 {
      MulAtLeast(q - q', p);
    } else if q' - q >= 1 {
      MulAtLeast(q' - q, p);
    }
  }

  /** Adding a multiple of the modulus changes nothing. */
  lemma ModShift(p: nat, x: int, k: int)
    requires p > 0
    ensures (x + k * p) % p == x % p
  {
    assert x + k * p == (x / p + k) * p + x % p;
    ModUnique(p, x + k * p, x / p + k, x % p);
  }

  /** Neither factor is a multiple of the prime, so neither is the product. */
  lemma {:induction false} PrimeDividesNoProduct(p: nat, a: nat, d: nat)
    requires IsPrime(p) && 1 <= a < p && 1 <= d < p
    ensures (a * d) % p != 0
    decreases a
  {
    if a == 1 {
      ModUnique(p, d, 0, d);
    } else {
      var q, r := p / a, p % a;
      assert p == a * q + r;
      PrimeDividesNoProduct(p, r, d);
      if (a * d) % p == 0 {
        var k := (a * d) / p;
        assert a * d == k * p;
        assert r * d == (d - q * k) * p by {
          assert r * d == p * d - q * (a * d);
        }
        ModOfMultiple(p, d - q * k);
        assert false;
      }
    }
  }

  function MulAdd(a: nat, b: nat, x: nat): nat {
    a * x + b
  }

  function Affine(p: nat, a: nat, b: nat, x: nat): (y: nat)
    requires p > 0
    ensures y < p
  {
    MulAdd(a, b, x) % p
  }

  lemma {:induction false} AffineInjective(p: nat, a: nat, b: nat, x: nat, y: nat)
    requires IsPrime(p) && 1 <= a < p && x < p && y < p
    requires Affine(p, a, b, x) == Affine(p, a, b, y)
    ensures x == y
  {
    if x != y {
      var lo, hi := if x < y then x else y, if x < y then y else x;
      var u, v := a * hi + b, a * lo + b;
      assert u - v == a * (hi - lo);
      assert u - v == (u / p - v / p) * p;
      ModOfMultiple(p, u / p - v / p);
      PrimeDividesNoProduct(p, a, hi - lo);
    }
  }

  /** The first `n` residues and their images. */
  function Residues(n: nat): (s: set<nat>)
    ensures forall x :: x in s <==> 0 <= x < n
    ensures |s| == n
  {
    if n == 0 then {} else Residues(n - 1) + {n - 1}
  }

  ghost function AffineImage(p: nat, a: nat, b: nat, n: nat): set<nat>
    requires p > 0
  {
    set x | 0 <= x < n :: Affine(p, a, b, x)
  }

  lemma {:induction false} AffineImageSize(p: nat, a: nat, b: nat, n: nat)
    requires IsPrime(p) && 1 <= a < p && n <= p
    ensures |AffineImage(p, a, b, n)| == n
  {
    if n > 0 {
      AffineImageSize(p, a, b, n - 1);
      var y := Affine(p, a, b, n - 1);
      assert AffineImage(p, a, b, n) == AffineImage(p, a, b, n - 1) + {y};
      if y in AffineImage(p, a, b, n - 1) {
        var x :| 0 <= x < n - 1 && y == Affine(p, a, b, x);
        AffineInjective(p, a, b, x, n - 1);
      }
    }
  }

  lemma {:induction false} SubsetOfSameSize<T>(s: set<T>, t: set<T>)
    requires s <= t && |s| == |t|
    ensures s == t
  {
    assert |t - s| == |t| - |s|;
    assert t - s == {};
    assert t == s + (t - s);
  }

  /** Every `x -> (a*x + b) mod p` with `1 <= a < p` permutes the residues `[0, p)`. */
  lemma {:induction false} AffineIsPermutation(p: nat, a: nat, b: nat)
    requires IsPrime(p) && 1 <= a < p
    ensures forall x: nat, y: nat :: x < p && y < p && Affine(p, a, b, x) == Affine(p, a, b, y) ==> x == y
    ensures AffineImage(p, a, b, p) == Residues(p)
  {
    forall x: nat, y: nat | x < p && y < p && Affine(p, a, b, x) == Affine(p, a, b, y)
      ensures x == y
    {
      AffineInjective(p, a, b, x, y);
    }
    AffineImageSize(p, a, b, p);
    SubsetOfSameSize(AffineImage(p, a, b, p), Residues(p));
  }
}
