/** The modulus of the hash family is prime: a Pocklington certificate for `2^61 - 1`. */
module Mersenne {
  import opened Primes

  const MERSENNE_PRIME: nat := 0x1FFF_FFFF_FFFF_FFFF

  // ------------------------------------------------------------------- powers modulo a number

  function MulMod(n: nat, x: nat, y: nat): (z: nat)
    requires n > 0
    ensures z < n
  {
    (x * y) % n
  }

  function PowMod(n: nat, b: nat, e: nat): (z: nat)
    requires n > 0
    ensures z < n
  {
    if e == 0 then 1 % n else MulMod(n, PowMod(n, b, e - 1), b)
  }

  lemma ReduceLeft(n: nat, x: nat, y: nat)
    requires n > 0
    ensures MulMod(n, x % n, y) == MulMod(n, x, y)
  {
    var q, r := x / n, x % n;
    assert x == q * n + r;
    assert x * y == r * y + (q * y) * n;
    ModShift(n, r * y, q * y);
  }

  lemma ReduceRight(n: nat, x: nat, y: nat)
    requires n > 0
    ensures MulMod(n, x, y % n) == MulMod(n, x, y)
  {
    ReduceLeft(n, y, x);
    assert x * (y % n) == (y % n) * x && x * y == y * x;
  }

  lemma MulModAssociates(n: nat, x: nat, y: nat, z: nat)
    requires n > 0
    ensures MulMod(n, MulMod(n, x, y), z) == MulMod(n, x, MulMod(n, y, z))
  {
    ReduceLeft(n, x * y, z);
    ReduceRight(n, x, y * z);
    assert (x * y) * z == x * (y * z);
  }

  lemma MulModOne(n: nat, x: nat)
    requires n > 1 && x < n
    ensures MulMod(n, 1, x) == x && MulMod(n, x, 1) == x
  {
    ModUnique(n, x, 0, x);
  }

  lemma {:induction false} PowModAdds(n: nat, b: nat, e: nat, f: nat)
    requires n > 1
    ensures PowMod(n, b, e + f) == MulMod(n, PowMod(n, b, e), PowMod(n, b, f))
  {
    if f == 0 {
      ModUnique(n, 1, 0, 1);
      MulModOne(n, PowMod(n, b, e));
    } else {
      PowModAdds(n, b, e, f - 1);
      MulModAssociates(n, PowMod(n, b, e), PowMod(n, b, f - 1), b);
    }
  }

  lemma ModOfMod(n: nat, d: nat, x: nat)
    requires n > 0 && d > 0 && n % d == 0
    ensures (x % n) % d == x % d
  {
    var q, r, k := x / n, x % n, n / d;
    assert x == q * n + r && n == k * d;
    assert x == r + (q * k) * d;
    ModShift(d, r, q * k);
  }

  lemma {:induction false} PowModOfDivisor(n: nat, d: nat, b: nat, e: nat)
    requires n > 0 && d > 0 && n % d == 0
    ensures PowMod(n, b, e) % d == PowMod(d, b, e)
  {
    if e == 0 {
      ModOfMod(n, d, 1);
    } else {
      PowModOfDivisor(n, d, b, e - 1);
      ModOfMod(n, d, PowMod(n, b, e - 1) * b);
      ReduceLeft(d, PowMod(n, b, e - 1), b);
    }
  }

  // ------------------------------------------------------ an element of prime order, and its orbits

  ghost predicate Associates(mul: (nat, nat) -> nat, x: nat, y: nat, z: nat) {
    mul(mul(x, y), z) == mul(x, mul(y, z))
  }

  ghost predicate Adds(mul: (nat, nat) -> nat, pow: nat -> nat, e: nat, f: nat) {
    pow(e + f) == mul(pow(e), pow(f))
  }

  ghost predicate HasUnit(mul: (nat, nat) -> nat, d: nat, x: nat) {
    x < d ==> mul(x, 1) == x && mul(1, x) == x
  }

  ghost predicate Cancels(mul: (nat, nat) -> nat, d: nat, x: nat, y: nat, z: nat) {
    1 <= x < d && y < d && z < d && mul(x, y) == mul(x, z) ==> y == z
  }

  /** `pow` lists the powers of an element of prime order `q` among the residues of `d`. */
  ghost predicate HasOrder(mul: (nat, nat) -> nat, pow: nat -> nat, d: nat, q: nat) {
    && (forall x, y, z :: Associates(mul, x, y, z))
    && (forall e, f :: Adds(mul, pow, e, f))
    && (forall x :: HasUnit(mul, d, x))
    && (forall x, y, z :: Cancels(mul, d, x, y, z))
    && (forall e :: pow(e) < d)
    && d > 1 && IsPrime(q) && pow(0) == 1 && pow(q) == 1 && pow(1) != 1
  }

  lemma {:induction false} PeriodRepeats(mul: (nat, nat) -> nat, pow: nat -> nat, d: nat, q: nat, k: nat, m: nat)
    requires HasOrder(mul, pow, d, q) && pow(k) == 1
    ensures pow(m * k) == 1
  {
    if m == 0 {
      assert m * k == 0;
    } else {
      PeriodRepeats(mul, pow, d, q, k, m - 1);
      assert m * k == (m - 1) * k + k;
      assert Adds(mul, pow, (m - 1) * k, k) && HasUnit(mul, d, 1);
    }
  }

  /** A prime order has no smaller one. */
  lemma {:induction false} NoSmallerPower(mul: (nat, nat) -> nat, pow: nat -> nat, d: nat, q: nat, k: nat)
    requires HasOrder(mul, pow, d, q) && 1 <= k < q
    ensures pow(k) != 1
    decreases k
  {
    if k > 1 && pow(k) == 1 {
      var m, r := q / k, q % k;
      PeriodRepeats(mul, pow, d, q, k, m);
      assert q == m * k + r;
      assert Adds(mul, pow, m * k, r) && HasUnit(mul, d, pow(r));
      NoSmallerPower(mul, pow, d, q, r);
    }
  }

  /** The first `n` points of the orbit of `x`. */
  ghost function Orbit(mul: (nat, nat) -> nat, pow: nat -> nat, x: nat, n: nat): set<nat> {
    set i | 0 <= i < n :: mul(x, pow(i))
  }

  lemma {:induction false} OrbitPointsDiffer(mul: (nat, nat) -> nat, pow: nat -> nat, d: nat, q: nat, x: nat,
      i: nat, j: nat)
    requires HasOrder(mul, pow, d, q) && 1 <= x < d && i < j < q
    ensures mul(x, pow(i)) != mul(x, pow(j))
  {
    assert Cancels(mul, d, x, pow(i), pow(j));
    if pow(i) == pow(j) {
      assert Adds(mul, pow, i, q - i) && Adds(mul, pow, j, q - i);
      assert i + (q - i) == q && j + (q - i) == q + (j - i);
      assert Adds(mul, pow, q, j - i) && HasUnit(mul, d, pow(j - i));
      NoSmallerPower(mul, pow, d, q, j - i);
    }
  }

  lemma {:induction false} OrbitSize(mul: (nat, nat) -> nat, pow: nat -> nat, d: nat, q: nat, x: nat, n: nat)
    requires HasOrder(mul, pow, d, q) && 1 <= x < d && n <= q
    ensures |Orbit(mul, pow, x, n)| == n
  {
    if n > 0 {
      OrbitSize(mul, pow, d, q, x, n - 1);
      var y := mul(x, pow(n - 1));
      assert Orbit(mul, pow, x, n) == Orbit(mul, pow, x, n - 1) + {y};
      if y in Orbit(mul, pow, x, n - 1) {
        var i :| 0 <= i < n - 1 && y == mul(x, pow(i));
        OrbitPointsDiffer(mul, pow, d, q, x, i, n - 1);
      }
    }
  }

  /** A set of residues that multiplication by the element does not leave. */
  ghost predicate Closed(mul: (nat, nat) -> nat, pow: nat -> nat, d: nat, s: set<nat>) {
    forall x :: x in s ==> 1 <= x < d && mul(x, pow(1)) in s
  }

  lemma {:induction false} OrbitWithin(mul: (nat, nat) -> nat, pow: nat -> nat, d: nat, q: nat, s: set<nat>, x: nat,
      n: nat)
    requires HasOrder(mul, pow, d, q) && Closed(mul, pow, d, s) && x in s
    ensures mul(x, pow(n)) in s
  {
    if n == 0 {
      assert HasUnit(mul, d, x);
    } else {
      OrbitWithin(mul, pow, d, q, s, x, n - 1);
      assert Adds(mul, pow, n - 1, 1) && Associates(mul, x, pow(n - 1), pow(1));
    }
  }

  /** What lies outside an orbit is not led into it. */
  lemma {:induction false} OutsideStaysOutside(mul: (nat, nat) -> nat, pow: nat -> nat, d: nat, q: nat, x: nat, y: nat)
    requires HasOrder(mul, pow, d, q) && 1 <= y < d
    requires mul(y, pow(1)) in Orbit(mul, pow, x, q)
    ensures y in Orbit(mul, pow, x, q)
  {
    var i :| 0 <= i < q && mul(y, pow(1)) == mul(x, pow(i));
    assert Associates(mul, y, pow(1), pow(q - 1)) && Adds(mul, pow, 1, q - 1) && HasUnit(mul, d, y);
    assert y == mul(mul(x, pow(i)), pow(q - 1));
    assert Associates(mul, x, pow(i), pow(q - 1)) && Adds(mul, pow, i, q - 1);
    if i > 0 {
      assert i + (q - 1) == q + (i - 1);
      assert Adds(mul, pow, q, i - 1) && HasUnit(mul, d, pow(i - 1));
      assert y == mul(x, pow(i - 1));
    } else {
      assert y == mul(x, pow(q - 1));
    }
  }

  /** A closed set is a union of orbits of `q` points each. */
  lemma {:induction false} ClosedSetsAreOrbits(mul: (nat, nat) -> nat, pow: nat -> nat, d: nat, q: nat, s: set<nat>)
    requires HasOrder(mul, pow, d, q) && Closed(mul, pow, d, s)
    ensures |s| % q == 0
    decreases |s|
  {
    if s == {} {
      ModUnique(q, 0, 0, 0);
    } else {
      var x :| x in s;
      var orbit := Orbit(mul, pow, x, q);
      RestIsClosed(mul, pow, d, q, s, x);
      OrbitSize(mul, pow, d, q, x, q);
      assert |s - orbit| == |s| - q;
      ClosedSetsAreOrbits(mul, pow, d, q, s - orbit);
      ModShift(q, |s| - q, 1);
    }
  }

  lemma {:induction false} RestIsClosed(mul: (nat, nat) -> nat, pow: nat -> nat, d: nat, q: nat, s: set<nat>, x: nat)
    requires HasOrder(mul, pow, d, q) && Closed(mul, pow, d, s) && x in s
    ensures Orbit(mul, pow, x, q) <= s
    ensures Closed(mul, pow, d, s - Orbit(mul, pow, x, q))
  {
    var orbit := Orbit(mul, pow, x, q);
    forall y | y in orbit
      ensures y in s
    {
      var i :| 0 <= i < q && y == mul(x, pow(i));
      OrbitWithin(mul, pow, d, q, s, x, i);
    }
    forall y | y in s - orbit
      ensures mul(y, pow(1)) in s - orbit
    {
      if mul(y, pow(1)) in orbit {
        OutsideStaysOutside(mul, pow, d, q, x, y);
      }
    }
  }

  /** The residues of a prime other than 0 are closed, so the order divides how many there are. */
  lemma {:induction false} OrderDivides(d: nat, c: nat, q: nat)
    requires IsPrime(d) && IsPrime(q) && PowMod(d, c, q) == 1 && c % d != 1
    ensures (d - 1) % q == 0
  {
    var mul, pow := (x: nat, y: nat) => MulMod(d, x, y), (e: nat) => PowMod(d, c, e);
    IsAnOrder(d, c, q, mul, pow);
    var s := Residues(d) - {0};
    assert 0 in Residues(d);
    assert |s| == d - 1;
    forall x | x in s
      ensures mul(x, pow(1)) in s
    {
      assert Associates(mul, x, pow(1), pow(q - 1)) && Adds(mul, pow, 1, q - 1) && HasUnit(mul, d, x);
      ZeroAbsorbs(d, pow(q - 1));
    }
    ClosedSetsAreOrbits(mul, pow, d, q, s);
  }

  lemma ZeroAbsorbs(d: nat, y: nat)
    requires d > 0
    ensures MulMod(d, 0, y) == 0
  {
    ModUnique(d, 0, 0, 0);
  }

  lemma {:induction false} IsAnOrder(d: nat, c: nat, q: nat, mul: (nat, nat) -> nat, pow: nat -> nat)
    requires IsPrime(d) && IsPrime(q) && PowMod(d, c, q) == 1 && c % d != 1
    requires forall x, y :: mul(x, y) == MulMod(d, x, y)
    requires forall e :: pow(e) == PowMod(d, c, e)
    ensures HasOrder(mul, pow, d, q)
  {
    forall x: nat, y: nat, z: nat
      ensures Associates(mul, x, y, z)
    {
      MulModAssociates(d, x, y, z);
    }
    forall e: nat, f: nat
      ensures Adds(mul, pow, e, f)
    {
      PowModAdds(d, c, e, f);
    }
    forall x: nat
      ensures HasUnit(mul, d, x)
    {
      if x < d { MulModOne(d, x); }
    }
    forall x: nat, y: nat, z: nat
      ensures Cancels(mul, d, x, y, z)
    {
      if 1 <= x < d && y < d && z < d && mul(x, y) == mul(x, z) {
        assert Affine(d, x, 0, y) == Affine(d, x, 0, z);
        AffineInjective(d, x, 0, y, z);
      }
    }
    FirstPower(d, c);
  }

  lemma FirstPower(d: nat, c: nat)
    requires d > 1
    ensures PowMod(d, c, 0) == 1 && PowMod(d, c, 1) == c % d
  {
    ModUnique(d, 1, 0, 1);
    assert PowMod(d, c, 1) == MulMod(d, PowMod(d, c, 0), c);
  }

  // --------------------------------------------------------------------------- prime divisors

  lemma {:induction false} PrimeDivisor(n: nat) returns (d: nat)
    requires n > 1
    ensures IsPrime(d) && d <= n && n % d == 0
  {
    if IsPrime(n) {
      d := n;
      ModUnique(n, n, 1, 0);
    } else {
      var t :| 1 < t < n && n % t == 0;
      d := PrimeDivisor(t);
      ModOfMod(t, d, n);
    }
  }

  /** A composite number has a prime divisor at most its root. */
  lemma {:induction false} SmallPrimeDivisor(n: nat) returns (d: nat)
    requires n > 1 && !IsPrime(n)
    ensures IsPrime(d) && n % d == 0 && d * d <= n
  {
    var t :| 1 < t < n && n % t == 0;
    var k := n / t;
    assert n == k * t;
    var s := SmallerFactor(n, k, t);
    d := PrimeDivisor(s);
    ModOfMod(s, d, n);
    MulAtMost(d, s, d);
    MulAtMost(d, s, s);
  }

  lemma SmallerFactor(n: nat, k: nat, t: nat) returns (s: nat)
    requires 1 < t < n && n == k * t
    ensures s > 1 && n % s == 0 && s * s <= n
  {
    if k <= 1 {
      MulAtMost(k, 1, t);
    }
    if k <= t {
      s := k;
      MulAtMost(k, t, k);
      assert n == t * k;
      ModOfMultiple(k, t);
    } else {
      s := t;
      MulAtMost(t, k, t);
      ModOfMultiple(t, k);
    }
  }

  predicate NoDivisorUpTo(n: nat, k: nat) {
    k <= 1 || (n % k != 0 && NoDivisorUpTo(n, k - 1))
  }

  lemma {:induction false} NoDivisor(n: nat, k: nat, t: nat)
    requires NoDivisorUpTo(n, k) && 1 < t <= k
    ensures n % t != 0
  {
    if t < k {
      NoDivisor(n, k - 1, t);
    }
  }

  lemma {:induction false} SmallPrime(n: nat, k: nat)
    requires n > 1 && NoDivisorUpTo(n, k) && (k + 1) * (k + 1) > n
    ensures IsPrime(n)
  {
    if !IsPrime(n) {
      var d := SmallPrimeDivisor(n);
      if d > k {
        MulAtMost(k + 1, d, k + 1);
        MulAtMost(k + 1, d, d);
      } else {
        NoDivisor(n, k, d);
      }
    }
  }

  // --------------------------------------------------------------------------- the certificate

  /** `pow` lists the powers of `c` modulo the candidate, one opaque value each. */
  ghost predicate ListsPowers(pow: nat -> nat, c: nat) {
    forall e :: IsPower(pow, c, e)
  }

  ghost predicate IsPower(pow: nat -> nat, c: nat, e: nat) {
    pow(e) == PowMod(MERSENNE_PRIME, c, e)
  }

  lemma PowersOf(c: nat) returns (pow: nat -> nat)
    requires c < MERSENNE_PRIME
    ensures ListsPowers(pow, c) && pow(1) == c
  {
    pow := (e: nat) => PowMod(MERSENNE_PRIME, c, e);
    FirstPower(MERSENNE_PRIME, c);
    ModUnique(MERSENNE_PRIME, c, 0, c);
  }

  /** An element whose `q`-th power is 1, with an inverse of `c - 1`: it is not 1 modulo any divisor. */
  lemma {:induction false} WitnessDivides(d: nat, q: nat, c: nat, inverse: nat, k: nat, pow: nat -> nat)
    requires IsPrime(d) && MERSENNE_PRIME % d == 0 && IsPrime(q)
    requires ListsPowers(pow, c) && pow(q) == 1
    requires c >= 1 && inverse * (c - 1) == k * 2305843009213693951 + 1
    ensures (d - 1) % q == 0
  {
    ModUnique(MERSENNE_PRIME, inverse * (c - 1), k, 1);
    assert IsPower(pow, c, q);
    PowModOfDivisor(MERSENNE_PRIME, d, c, q);
    ModUnique(d, 1, 0, 1);
    NotOne(MERSENNE_PRIME, d, c, inverse);
    OrderDivides(d, c, q);
  }

  lemma {:induction false} NotOne(n: nat, d: nat, c: nat, inverse: nat)
    requires n > 0 && d > 1 && n % d == 0 && c >= 1 && MulMod(n, inverse, c - 1) == 1
    ensures c % d != 1
  {
    ModOfMod(n, d, inverse * (c - 1));
    ModUnique(d, 1, 0, 1);
    if c % d == 1 {
      var k := c / d;
      assert c - 1 == k * d;
      assert inverse * (c - 1) == (inverse * k) * d;
      ModOfMultiple(d, inverse * k);
    }
  }

  lemma ModOfProduct(q: nat, x: nat, y: nat)
    requires q > 0
    ensures (x * y) % q == ((x % q) * (y % q)) % q
  {
    ReduceLeft(q, x, y);
    ReduceRight(q, x % q, y);
  }

  lemma {:induction false} JointDivisor(n: nat, m: nat, q: nat)
    requires m > 0 && IsPrime(q) && n % m == 0 && n % q == 0 && m % q != 0
    ensures n % (m * q) == 0
  {
    var k := n / m;
    assert n == m * k;
    ModOfProduct(q, m, k);
    if k % q != 0 {
      PrimeDividesNoProduct(q, m % q, k % q);
    }
    var l := k / q;
    assert k == l * q;
    Regroup(n, m, l, q);
    ModOfMultiple(m * q, l);
  }

  lemma Regroup(n: nat, m: nat, l: nat, q: nat)
    requires n == m * (l * q)
    ensures n == l * (m * q)
  {
  }

  lemma AtLeastModulus(n: nat, m: nat)
    requires n > 0 && m > 0 && n % m == 0
    ensures n >= m
  {
    if n < m {
      ModUnique(m, n, 0, n);
    }
  }

  lemma SmallPrimes()
    ensures IsPrime(61) && IsPrime(151) && IsPrime(331) && IsPrime(1321)
  {
    assert NoDivisorUpTo(61, 6);
    SmallPrime(61, 7);
    assert NoDivisorUpTo(151, 6);
    SmallPrime(151, 12);
    assert NoDivisorUpTo(331, 6);
    assert NoDivisorUpTo(331, 12);
    SmallPrime(331, 18);
    assert NoDivisorUpTo(1321, 6);
    assert NoDivisorUpTo(1321, 12);
    assert NoDivisorUpTo(1321, 18);
    assert NoDivisorUpTo(1321, 24);
    assert NoDivisorUpTo(1321, 30);
    SmallPrime(1321, 36);
  }

  // The chains below write the modulus out: 2305843009213693951 is `2^61 - 1`.

  /** One step of the square-and-multiply chain, with the quotient to check it by. */
  lemma Squared(pow: nat -> nat, c: nat, e: nat, v: nat, k: nat, w: nat)
    requires ListsPowers(pow, c) && pow(e) == v
    requires v * v == k * 2305843009213693951 + w && w < 2305843009213693951
    ensures pow(2 * e) == w
  {
    assert IsPower(pow, c, e) && IsPower(pow, c, 2 * e);
    PowModAdds(MERSENNE_PRIME, c, e, e);
    ModUnique(MERSENNE_PRIME, v * v, k, w);
  }

  lemma OneMore(pow: nat -> nat, c: nat, e: nat, v: nat, k: nat, w: nat)
    requires ListsPowers(pow, c) && pow(e) == v
    requires v * c == k * 2305843009213693951 + w && w < 2305843009213693951
    ensures pow(e + 1) == w
  {
    assert IsPower(pow, c, e) && IsPower(pow, c, e + 1);
    ModUnique(MERSENNE_PRIME, v * c, k, w);
  }

  lemma Order61(pow: nat -> nat)
    requires ListsPowers(pow, 2) && pow(1) == 2
    ensures pow(61) == 1
  {
    Squared(pow, 2, 1, 2, 0, 4);
    OneMore(pow, 2, 2, 4, 0, 8);
    Squared(pow, 2, 3, 8, 0, 64);
    OneMore(pow, 2, 6, 64, 0, 128);
    Squared(pow, 2, 7, 128, 0, 16384);
    OneMore(pow, 2, 14, 16384, 0, 32768);
    Squared(pow, 2, 15, 32768, 0, 1073741824);
    Squared(pow, 2, 30, 1073741824, 0, 1152921504606846976);
    OneMore(pow, 2, 60, 1152921504606846976, 1, 1);
  }

  lemma Divides61(d: nat)
    requires IsPrime(d) && MERSENNE_PRIME % d == 0
    ensures (d - 1) % 61 == 0
  {
    SmallPrimes();
    var pow := PowersOf(2);
    Order61(pow);
    WitnessDivides(d, 61, 2, 1, 0, pow);
  }

  lemma Order151(pow: nat -> nat)
    requires ListsPowers(pow, 2211238755008147949) && pow(1) == 2211238755008147949
    ensures pow(151) == 1
  {
    Squared(pow, 2211238755008147949, 1, 2211238755008147949, 2120515929363880955, 1905995146105303396);
    Squared(pow, 2211238755008147949, 2, 1905995146105303396, 1575483448986316291, 63567945049677075);
    Squared(pow, 2211238755008147949, 4, 63567945049677075, 1752453927562366, 1288863997991107559);
    OneMore(pow, 2211238755008147949, 8, 1288863997991107559, 1235984414769218308, 1094750906426191583);
    Squared(pow, 2211238755008147949, 9, 1094750906426191583, 519757651467198829, 652144535748462510);
    Squared(pow, 2211238755008147949, 18, 652144535748462510, 184441219028005268, 1403639591507766232);
    OneMore(pow, 2211238755008147949, 36, 1403639591507766232, 1346050988902399905, 1152182138280783513);
    Squared(pow, 2211238755008147949, 37, 1152182138280783513, 575721623054455877, 2139767711661321142);
    OneMore(pow, 2211238755008147949, 74, 2139767711661321142, 2051977203926860376, 489946467164852182);
    Squared(pow, 2211238755008147949, 75, 489946467164852182, 104104026045197761, 1458550166785717413);
    OneMore(pow, 2211238755008147949, 150, 1458550166785717413, 1398708690068188736, 1);
  }

  lemma Divides151(d: nat)
    requires IsPrime(d) && MERSENNE_PRIME % d == 0
    ensures (d - 1) % 151 == 0
  {
    SmallPrimes();
    var pow := PowersOf(2211238755008147949);
    Order151(pow);
    WitnessDivides(d, 151, 2211238755008147949, 1896004468068488480, 1818215092141647489, pow);
  }

  lemma Order331(pow: nat -> nat)
    requires ListsPowers(pow, 1491285494954315879) && pow(1) == 1491285494954315879
    ensures pow(331) == 1
  {
    Squared(pow, 1491285494954315879, 1, 1491285494954315879, 964476947725731314, 1596621434058461027);
    Squared(pow, 1491285494954315879, 2, 1596621434058461027, 1105539272842425135, 2182127085158036344);
    OneMore(pow, 1491285494954315879, 4, 2182127085158036344, 1411273212113782840, 1899072366902705536);
    Squared(pow, 1491285494954315879, 5, 1899072366902705536, 1564059582687406695, 1091085247126645351);
    Squared(pow, 1491285494954315879, 10, 1091085247126645351, 516282770223532703, 1672797255448133648);
    Squared(pow, 1491285494954315879, 20, 1672797255448133648, 1213547776953396517, 982058548882419237);
    OneMore(pow, 1491285494954315879, 40, 982058548882419237, 635138499582262988, 383641940377378735);
    Squared(pow, 1491285494954315879, 41, 383641940377378735, 63829644008032383, 1157546146970984992);
    Squared(pow, 1491285494954315879, 82, 1157546146970984992, 581094669937781862, 185945230422323302);
    OneMore(pow, 1491285494954315879, 164, 185945230422323302, 120258588237240303, 1079428458485805305);
    Squared(pow, 1491285494954315879, 165, 1079428458485805305, 505310115360529382, 1709298423274974743);
    OneMore(pow, 1491285494954315879, 330, 1709298423274974743, 1105475062696264896, 1);
  }

  lemma Divides331(d: nat)
    requires IsPrime(d) && MERSENNE_PRIME % d == 0
    ensures (d - 1) % 331 == 0
  {
    SmallPrimes();
    var pow := PowersOf(1491285494954315879);
    Order331(pow);
    WitnessDivides(d, 331, 1491285494954315879, 1881382712785867029, 1216769198433903011, pow);
  }

  lemma Order1321(pow: nat -> nat)
    requires ListsPowers(pow, 234060095121088422) && pow(1) == 234060095121088422
    ensures pow(1321) == 1
  {
    Squared(pow, 234060095121088422, 1, 234060095121088422, 23758828293681047, 1138144871675203387);
    Squared(pow, 234060095121088422, 2, 1138144871675203387, 561778813104147651, 925218022786712668);
    OneMore(pow, 234060095121088422, 4, 925218022786712668, 93916462463353220, 1232610417245157676);
    Squared(pow, 234060095121088422, 5, 1232610417245157676, 658903678450937406, 2052015042159889870);
    Squared(pow, 234060095121088422, 10, 2052015042159889870, 1826128542327064373, 1413654373430909177);
    Squared(pow, 234060095121088422, 20, 1413654373430909177, 866675953018071667, 1399396648900431012);
    OneMore(pow, 234060095121088422, 40, 1399396648900431012, 142049095035945800, 1189989421339087264);
    Squared(pow, 234060095121088422, 41, 1189989421339087264, 614124559755620835, 606841734917936611);
    Squared(pow, 234060095121088422, 82, 606841734917936611, 159705968605290702, 1236305722200221719);
    OneMore(pow, 234060095121088422, 164, 1236305722200221719, 125494161476156449, 2270811616122897419);
    Squared(pow, 234060095121088422, 165, 2270811616122897419, 2236312435544825414, 2278904677273990847);
    Squared(pow, 234060095121088422, 330, 2278904677273990847, 2252281056147120177, 1173230281344828082);
    Squared(pow, 234060095121088422, 660, 1173230281344828082, 596948399160031538, 125558427495972086);
    OneMore(pow, 234060095121088422, 1320, 125558427495972086, 12745107696201341, 1);
  }

  lemma Divides1321(d: nat)
    requires IsPrime(d) && MERSENNE_PRIME % d == 0
    ensures (d - 1) % 1321 == 0
  {
    SmallPrimes();
    var pow := PowersOf(234060095121088422);
    Order1321(pow);
    WitnessDivides(d, 1321, 234060095121088422, 828993518632009434, 84148964630484863, pow);
  }

  lemma {:induction false} FourDivisors(d: nat)
    requires d > 1
    requires (d - 1) % 61 == 0 && (d - 1) % 151 == 0 && (d - 1) % 331 == 0 && (d - 1) % 1321 == 0
    ensures d >= 4027518962
  {
    SmallPrimes();
    JointDivisor(d - 1, 61, 151);
    JointDivisor(d - 1, 9211, 331);
    JointDivisor(d - 1, 3048841, 1321);
    AtLeastModulus(d - 1, 4027518961);
  }

  /** Four primes divide what precedes any prime divisor, so none is small enough to be one. */
  lemma {:induction false} MersenneIsPrime()
    ensures IsPrime(MERSENNE_PRIME)
  {
    if !IsPrime(MERSENNE_PRIME) {
      var d := SmallPrimeDivisor(MERSENNE_PRIME);
      Divides61(d);
      Divides151(d);
      Divides331(d);
      Divides1321(d);
      FourDivisors(d);
      MulAtMost(4027518962, d, 4027518962);
      MulAtMost(4027518962, d, d);
    }
  }
}
