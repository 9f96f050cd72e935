/** MinHash signatures, their similarity, and the banding that indexes them. */
module MinHash {
  import opened Wrappers
  import opened Mersenne
  import opened Primes
  import Text

  const TWO_64: nat := 0x1_0000_0000_0000_0000
  const GAMMA: nat := 0x9E37_79B9_7F4A_7C15

  type Signature = seq<int>

  /** `r{rows}:{band}:{hash}`, kept structured: the rendering is injective. */
  datatype BucketKey = BucketKey(rows: nat, band: nat, hash: nat)

  /** FNV-1a over a shingle, FNV-1a over a band, and the splitmix64 finaliser. */
  datatype Hashes = Hashes(text: string -> nat, band: (nat, Signature) -> nat, mix: nat -> nat)

  /** The splitmix64 counter after `k` draws from the fixed seed. */
  function Counter(k: nat): nat {
    ((k + 1) * GAMMA) % TWO_64
  }

  function Draw(hashes: Hashes, k: nat): nat {
    hashes.mix(Counter(k + 1))
  }

  /** The wrapping additions of the generator reach the `k`-th counter. */
  lemma CounterStep(k: nat)
    ensures (Counter(k) + GAMMA) % TWO_64 == Counter(k + 1)
  {
    var x := (k + 1) * GAMMA;
    assert x == (x / TWO_64) * TWO_64 + x % TWO_64;
    ModShift(TWO_64, x % TWO_64 + GAMMA, x / TWO_64);
  }

  function MinImage(a: nat, b: nat, hashed: seq<nat>): (m: nat)
    requires hashed != []
    ensures m < MERSENNE_PRIME
    ensures exists h :: h in hashed && m == Affine(MERSENNE_PRIME, a, b, h)
    ensures forall h :: h in hashed ==> m <= Affine(MERSENNE_PRIME, a, b, h)
  {
    var head := Affine(MERSENNE_PRIME, a, b, hashed[0]);
    assert hashed[0] in hashed;
    assert forall h :: h in hashed ==> h == hashed[0] || h in hashed[1..];
    if |hashed| == 1 then head
    else
      var rest := MinImage(a, b, hashed[1..]);
      if head < rest then head else rest
  }

  datatype MinHasher = MinHasher(
    chars: Text.CharModel, hashes: Hashes, coefficients: seq<(nat, nat)>, numBands: nat)
  {
    /** What construction guarantees. */
    ghost predicate WellFormed() {
      && |coefficients| > 0 && numBands > 0
      && |coefficients| % numBands == 0
      && forall i :: 0 <= i < |coefficients| ==>
           1 <= coefficients[i].0 < MERSENNE_PRIME && coefficients[i].1 < MERSENNE_PRIME
    }

    function NumHashes(): nat {
      |coefficients|
    }

    function RowsPerBand(): (rows: nat)
      requires WellFormed()
      ensures rows > 0
    {
      |coefficients| / numBands
    }

    lemma RowsTimesBands()
      requires WellFormed()
      ensures RowsPerBand() * numBands == |coefficients|
    {
    }

    function Hashed(shingles: seq<string>): (hs: seq<nat>)
      ensures |hs| == |shingles|
      ensures forall i :: 0 <= i < |hs| ==> hs[i] == hashes.text(shingles[i]) % MERSENNE_PRIME
    {
      seq(|shingles|, i requires 0 <= i < |shingles| => hashes.text(shingles[i]) % MERSENNE_PRIME)
    }

    /** One minimum per hash function. */
    function Sketch(hashed: seq<nat>): (sig: Signature)
      requires hashed != []
      ensures |sig| == NumHashes()
    {
      seq(|coefficients|, i requires 0 <= i < |coefficients| =>
        MinImage(coefficients[i].0, coefficients[i].1, hashed))
    }

    function SignatureOf(text: string): (sig: Option<Signature>)
      ensures sig.Some? ==> |sig.value| == NumHashes()
    {
      var shingles := chars.Shingles(text);
      if shingles == [] then None else Some(Sketch(Hashed(shingles)))
    }

    /** One key per chunk of `rows` values; the last chunk may be short. */
    function Buckets(sig: Signature): (keys: seq<BucketKey>)
      requires WellFormed()
      ensures forall i, j :: 0 <= i < j < |keys| ==> keys[i] != keys[j]
      ensures |sig| == NumHashes() ==> |keys| == numBands
    {
      RowsTimesBands();
      WholeChunks(RowsPerBand(), numBands);
      BandKeys(hashes.band, RowsPerBand(), sig, ChunkCount(|sig|, RowsPerBand()))
    }

    function PrimaryBucket(sig: Signature): Option<BucketKey>
      requires WellFormed()
    {
      if Buckets(sig) == [] then None else Some(Buckets(sig)[0])
    }
  }

  /** The band number enters the hash as one byte, and the key in full. */
  function BandKeys(band: (nat, Signature) -> nat, rows: nat, sig: Signature, chunks: nat): (keys: seq<BucketKey>)
    ensures |keys| == chunks
    ensures forall j :: 0 <= j < chunks ==> keys[j] == BucketKey(rows, j, band(j % 256, Chunk(sig, rows, j)))
  {
    seq(chunks, j requires 0 <= j < chunks => BucketKey(rows, j, band(j % 256, Chunk(sig, rows, j))))
  }

  function Chunk(sig: Signature, rows: nat, j: nat): Signature
  {
    var lo := if j * rows <= |sig| then j * rows else |sig|;
    var hi := if lo + rows <= |sig| then lo + rows else |sig|;
    sig[lo..hi]
  }

  function ChunkCount(n: nat, rows: nat): nat
    requires rows > 0
  {
    if n <= rows then if n == 0 then 0 else 1
    else 1 + ChunkCount(n - rows, rows)
  }

  lemma {:induction false} WholeChunks(rows: nat, bands: nat)
    requires rows > 0
    ensures ChunkCount(rows * bands, rows) == bands
  {
    if bands > 1 {
      MulAtMost(1, bands - 1, rows);
      assert rows * bands - rows == rows * (bands - 1);
      WholeChunks(rows, bands - 1);
    }
  }

  /** Hash function `i` takes two consecutive draws; its multiplier is never zero. */
  function Coefficients(hashes: Hashes, i: nat): (c: (nat, nat))
    ensures 1 <= c.0 < MERSENNE_PRIME && c.1 < MERSENNE_PRIME
  {
    (Draw(hashes, 2 * i) % (MERSENNE_PRIME - 1) + 1, Draw(hashes, 2 * i + 1) % MERSENNE_PRIME)
  }

  /** Building a hasher: the panics of `new` become `Err`. */
  method NewMinHasher(chars: Text.CharModel, hashes: Hashes, numHashes: nat, numBands: nat)
    returns (r: Result<MinHasher, string>)
    ensures r.Ok? <==> numHashes > 0 && numBands > 0 && numHashes % numBands == 0
    ensures r.Ok? ==>
      && r.value.WellFormed()
      && r.value.chars == chars && r.value.hashes == hashes && r.value.numBands == numBands
      && |r.value.coefficients| == numHashes
      && forall i :: 0 <= i < numHashes ==> r.value.coefficients[i] == Coefficients(hashes, i)
  {
    if numHashes == 0 {
      return Err("num_hashes must be positive");
    }
    if numBands == 0 {
      return Err("num_bands must be positive");
    }
    if numHashes % numBands != 0 {
      return Err("num_hashes must be divisible by num_bands");
    }
    var coefficients: seq<(nat, nat)> := [];
    var state := GAMMA;
    for i := 0 to numHashes
      invariant state == Counter(2 * i)
      invariant |coefficients| == i
      invariant forall j :: 0 <= j < i ==> coefficients[j] == Coefficients(hashes, j)
    {
      CounterStep(2 * i);
      CounterStep(2 * i + 1);
      state := (state + GAMMA) % TWO_64;
      var a := hashes.mix(state) % (MERSENNE_PRIME - 1) + 1;
      state := (state + GAMMA) % TWO_64;
      var b := hashes.mix(state) % MERSENNE_PRIME;
      coefficients := coefficients + [(a, b)];
    }
    r := Ok(MinHasher(chars, hashes, coefficients, numBands));
  }

  // ------------------------------------------------------------- signatures

  ghost function Elements(hashed: seq<nat>): set<nat> {
    set h | h in hashed
  }

  /** The sketch of a union is the pointwise minimum. */
  lemma {:induction false} SketchOfUnion(hasher: MinHasher, xs: seq<nat>, ys: seq<nat>, zs: seq<nat>)
    requires xs != [] && ys != [] && zs != []
    requires Elements(zs) == Elements(xs) + Elements(ys)
    ensures forall i :: 0 <= i < hasher.NumHashes() ==>
      var x, y := hasher.Sketch(xs)[i], hasher.Sketch(ys)[i];
      hasher.Sketch(zs)[i] == if x < y then x else y
  {
    forall i | 0 <= i < hasher.NumHashes()
      ensures var x, y := hasher.Sketch(xs)[i], hasher.Sketch(ys)[i];
              hasher.Sketch(zs)[i] == if x < y then x else y
    {
      var (a, b) := hasher.coefficients[i];
      MinImageOfUnion(a, b, xs, ys, zs);
    }
  }

  lemma {:induction false} MinImageOfUnion(a: nat, b: nat, xs: seq<nat>, ys: seq<nat>, zs: seq<nat>)
    requires xs != [] && ys != [] && zs != []
    requires Elements(zs) == Elements(xs) + Elements(ys)
    ensures var x, y := MinImage(a, b, xs), MinImage(a, b, ys);
            MinImage(a, b, zs) == if x < y then x else y
  {
    assert forall h :: h in zs <==> h in Elements(zs);
    assert forall h :: h in xs <==> h in Elements(xs);
    assert forall h :: h in ys <==> h in Elements(ys);
  }

  /** Repetition and order of shingles do not matter: the signature is a function of the set. */
  lemma {:induction false} SignatureIsOfTheShingleSet(hasher: MinHasher, s: string, t: string)
    requires forall w :: w in hasher.chars.Shingles(s) <==> w in hasher.chars.Shingles(t)
    ensures hasher.SignatureOf(s) == hasher.SignatureOf(t)
  {
    var ss, ts := hasher.chars.Shingles(s), hasher.chars.Shingles(t);
    if ss != [] {
      assert ss[0] in ss;
    }
    if ts != [] {
      assert ts[0] in ts;
    }
    if ss != [] {
      var hs, ht := hasher.Hashed(ss), hasher.Hashed(ts);
      HashedElements(hasher, ss, ts);
      HashedElements(hasher, ts, ss);
      SketchOfUnion(hasher, hs, hs, ht);
      assert hasher.Sketch(hs) == hasher.Sketch(ht);
    }
  }

  lemma {:induction false} HashedElements(hasher: MinHasher, ss: seq<string>, ts: seq<string>)
    requires forall w :: w in ss ==> w in ts
    ensures Elements(hasher.Hashed(ss)) <= Elements(hasher.Hashed(ts))
  {
    var hs, ht := hasher.Hashed(ss), hasher.Hashed(ts);
    forall h | h in hs
      ensures h in ht
    {
      var i :| 0 <= i < |hs| && hs[i] == h;
      assert ss[i] in ts;
      var j :| 0 <= j < |ts| && ts[j] == ss[i];
      assert ht[j] == h;
    }
  }

  /**
   * Where two sketches agree, the documents share the very hash that realises the minimum:
   * modulo a prime no two residues can collide under `x -> a*x + b`.
   */
  lemma {:induction false} AgreementSharesAHash(hasher: MinHasher, xs: seq<nat>, ys: seq<nat>, i: nat)
    requires hasher.WellFormed() && i < hasher.NumHashes()
    requires xs != [] && ys != []
    requires forall h :: h in xs || h in ys ==> h < MERSENNE_PRIME
    requires hasher.Sketch(xs)[i] == hasher.Sketch(ys)[i]
    ensures var (a, b) := hasher.coefficients[i];
            exists h :: h in xs && h in ys
              && Affine(MERSENNE_PRIME, a, b, h) == hasher.Sketch(xs)[i]
              && forall g :: (g in xs || g in ys) && g != h ==>
                   Affine(MERSENNE_PRIME, a, b, h) < Affine(MERSENNE_PRIME, a, b, g)
  {
    var (a, b) := hasher.coefficients[i];
    var m := MinImage(a, b, xs);
    assert m == MinImage(a, b, ys);
    var h :| h in xs && m == Affine(MERSENNE_PRIME, a, b, h);
    var k :| k in ys && m == Affine(MERSENNE_PRIME, a, b, k);
    MersenneIsPrime();
    AffineInjective(MERSENNE_PRIME, a, b, h, k);
    forall g | (g in xs || g in ys) && g != h
      ensures Affine(MERSENNE_PRIME, a, b, h) < Affine(MERSENNE_PRIME, a, b, g)
    {
      if Affine(MERSENNE_PRIME, a, b, h) == Affine(MERSENNE_PRIME, a, b, g) {
        AffineInjective(MERSENNE_PRIME, a, b, h, g);
      }
    }
  }

  /** No intermediate product leaves `u128`; every entry is a non-negative `i64`. */
  lemma {:induction false} NoOverflow(hasher: MinHasher, text: string)
    requires hasher.WellFormed()
    ensures forall i, h: nat :: 0 <= i < hasher.NumHashes() && h < MERSENNE_PRIME ==>
      MulAdd(hasher.coefficients[i].0, hasher.coefficients[i].1, h) < TWO_64 * TWO_64
    ensures hasher.SignatureOf(text).Some? ==>
      forall i :: 0 <= i < hasher.NumHashes() ==> 0 <= hasher.SignatureOf(text).value[i] < TWO_64 / 8
  {
    forall i, h: nat | 0 <= i < hasher.NumHashes() && h < MERSENNE_PRIME
      ensures MulAdd(hasher.coefficients[i].0, hasher.coefficients[i].1, h) < TWO_64 * TWO_64
    {
      ProductBound(hasher.coefficients[i].0, h, MERSENNE_PRIME);
    }
  }

  lemma ProductBound(x: nat, y: nat, n: nat)
    requires x <= n && y <= n
    ensures x * y <= n * n
  {
    assert x * y <= x * n;
    assert x * n <= n * n;
  }

  // ------------------------------------------------------------- similarity

  function Agreements(left: Signature, right: Signature): (n: nat)
    requires |left| == |right|
    ensures n <= |left|
    ensures n == |left| <==> left == right
  {
    if left == [] then 0
    else
      assert left == [left[0]] + left[1..] && right == [right[0]] + right[1..];
      (if left[0] == right[0] then 1 else 0) + Agreements(left[1..], right[1..])
  }

  function Similarity(left: Signature, right: Signature): (s: real)
    ensures 0.0 <= s <= 1.0
    ensures left != [] ==> (s == 1.0 <==> left == right)
  {
    if left == [] || |left| != |right| then 0.0
    else
      var n := Agreements(left, right);
      RatioBounds(n, |left|);
      n as real / |left| as real
  }

  lemma RatioBounds(n: nat, d: nat)
    requires n <= d && d > 0
    ensures 0.0 <= n as real / d as real <= 1.0
    ensures n as real / d as real == 1.0 <==> n == d
    ensures n == 0 ==> n as real / d as real == 0.0
  {
    var q := n as real / d as real;
    assert q * d as real == n as real;
  }

  lemma {:induction false} NoAgreement(left: Signature, right: Signature)
    requires |left| == |right|
    requires forall i :: 0 <= i < |left| ==> left[i] != right[i]
    ensures Agreements(left, right) == 0
  {
    if left != [] {
      NoAgreement(left[1..], right[1..]);
    }
  }

  lemma {:induction false} DisjointSketches(hasher: MinHasher, xs: seq<nat>, ys: seq<nat>)
    requires hasher.WellFormed()
    requires xs != [] && ys != []
    requires forall h :: h in xs || h in ys ==> h < MERSENNE_PRIME
    requires forall h :: h in xs ==> h !in ys
    ensures Similarity(hasher.Sketch(xs), hasher.Sketch(ys)) == 0.0
  {
    var a, b := hasher.Sketch(xs), hasher.Sketch(ys);
    forall i | 0 <= i < |a|
      ensures a[i] != b[i]
    {
      if a[i] == b[i] {
        AgreementSharesAHash(hasher, xs, ys, i);
      }
    }
    NoAgreement(a, b);
    RatioBounds(0, |a|);
  }

  /** Documents with no shingle hash in common are reported as having similarity zero. */
  lemma {:induction false} DisjointDocumentsAreDissimilar(hasher: MinHasher, s: string, t: string)
    requires hasher.WellFormed()
    requires hasher.SignatureOf(s).Some? && hasher.SignatureOf(t).Some?
    requires forall h :: h in hasher.Hashed(hasher.chars.Shingles(s)) ==> h !in hasher.Hashed(hasher.chars.Shingles(t))
    ensures Similarity(hasher.SignatureOf(s).value, hasher.SignatureOf(t).value) == 0.0
  {
    DisjointSketches(hasher, hasher.Hashed(hasher.chars.Shingles(s)), hasher.Hashed(hasher.chars.Shingles(t)));
  }

  // ---------------------------------------------------------------- banding

  predicate SharesKey(left: seq<BucketKey>, right: seq<BucketKey>) {
    exists k :: k in left && k in right
  }

  lemma {:induction false} AgreementsSplit(left: Signature, right: Signature, n: nat)
    requires |left| == |right| && n <= |left|
    ensures Agreements(left, right) == Agreements(left[..n], right[..n]) + Agreements(left[n..], right[n..])
  {
    if n > 0 {
      AgreementsSplit(left[1..], right[1..], n - 1);
      assert left[..n][1..] == left[1..][..n - 1] && right[..n][1..] == right[1..][..n - 1];
      assert left[1..][n - 1..] == left[n..] && right[1..][n - 1..] == right[n..];
    } else {
      assert left[0..] == left && right[0..] == right;
    }
  }

  lemma FullChunk(sig: Signature, rows: nat, bands: nat, j: nat)
    requires j < bands && |sig| == bands * rows
    ensures j * rows + rows <= |sig|
    ensures Chunk(sig, rows, j) == sig[j * rows..j * rows + rows]
  {
    MulAtMost(j + 1, bands, rows);
    assert (j + 1) * rows == j * rows + rows;
  }

  lemma ChunkOfPrefix(sig: Signature, rows: nat, bands: nat, n: nat, j: nat)
    requires j < bands && n == bands * rows && |sig| == n + rows
    ensures Chunk(sig[..n], rows, j) == Chunk(sig, rows, j)
  {
    FullChunk(sig[..n], rows, bands, j);
    assert sig[..n][j * rows..j * rows + rows] == sig[j * rows..j * rows + rows];
  }

  lemma OneBandLess(bands: nat, rows: nat, n: nat)
    requires bands > 0 && n == bands * rows
    ensures n - rows >= 0 && n - rows == (bands - 1) * rows
  {
    MulAtLeast(bands, rows);
    assert (bands - 1) * rows == bands * rows - rows;
  }

  lemma LastChunk(sig: Signature, rows: nat, bands: nat, m: nat)
    requires bands > 0 && m == (bands - 1) * rows && |sig| == bands * rows == m + rows
    ensures Chunk(sig, rows, bands - 1) == sig[m..]
  {
    FullChunk(sig, rows, bands, bands - 1);
  }

  /** Pigeonhole: with fewer disagreements than bands, some band has none. */
  lemma {:induction false} SomeBandAgrees(left: Signature, right: Signature, rows: nat, bands: nat, n: nat)
    returns (j: nat)
    requires n == bands * rows
    requires |left| == |right| == n
    requires n - Agreements(left, right) < bands
    ensures j < bands
    ensures Chunk(left, rows, j) == Chunk(right, rows, j)
    decreases bands
  {
    if bands == 0 {
      assert false;
    }
    var m := n - rows;
    OneBandLess(bands, rows, n);
    if left[m..] == right[m..] {
      j := bands - 1;
      LastChunk(left, rows, bands, m);
      LastChunk(right, rows, bands, m);
    } else {
      EarlierDisagreements(left, right, m);
      j := SomeBandAgrees(left[..m], right[..m], rows, bands - 1, m);
      ChunkOfPrefix(left, rows, bands - 1, m, j);
      ChunkOfPrefix(right, rows, bands - 1, m, j);
    }
  }

  lemma {:induction false} EarlierDisagreements(left: Signature, right: Signature, m: nat)
    requires |left| == |right| && m <= |left|
    requires left[m..] != right[m..]
    ensures m - Agreements(left[..m], right[..m]) < |left| - Agreements(left, right)
  {
    AgreementsSplit(left, right, m);
  }

  /**
   * Banding completeness: signatures that disagree in fewer than `numBands` positions share
   * a bucket key. (With 128 hashes in 16 bands: 113 agreements suffice.)
   */
  lemma {:induction false} BandingCompleteness(hasher: MinHasher, left: Signature, right: Signature)
    requires hasher.WellFormed()
    requires |left| == |right| == hasher.NumHashes()
    requires Agreements(left, right) >= hasher.NumHashes() - hasher.numBands + 1
    ensures SharesKey(hasher.Buckets(left), hasher.Buckets(right))
  {
    hasher.RowsTimesBands();
    var j := SomeBandAgrees(left, right, hasher.RowsPerBand(), hasher.numBands, hasher.NumHashes());
    assert hasher.Buckets(left)[j] == hasher.Buckets(right)[j];
    assert hasher.Buckets(left)[j] in hasher.Buckets(left);
    assert hasher.Buckets(right)[j] in hasher.Buckets(right);
  }

  /** Two different contents of band `j` under one hash. */
  predicate Collides(band: (nat, Signature) -> nat, j: nat, u: Signature, v: Signature) {
    u != v && band(j % 256, u) == band(j % 256, v)
  }

  /**
   * The bound is tight: one disagreement per band leaves no band whole, so the two share a key
   * exactly when some band's hash collides on them.
   */
  lemma {:induction false} OneDisagreementPerBandHides(
      band: (nat, Signature) -> nat, left: Signature, right: Signature, rows: nat, chunks: nat)
    requires forall j :: 0 <= j < chunks ==> Chunk(left, rows, j) != Chunk(right, rows, j)
    ensures SharesKey(BandKeys(band, rows, left, chunks), BandKeys(band, rows, right, chunks))
      <==> exists j :: 0 <= j < chunks && Collides(band, j, Chunk(left, rows, j), Chunk(right, rows, j))
  {
    var ls, rs := BandKeys(band, rows, left, chunks), BandKeys(band, rows, right, chunks);
    if k :| k in ls && k in rs {
      var i :| 0 <= i < |ls| && ls[i] == k;
      var j :| 0 <= j < |rs| && rs[j] == k;
      assert i == j && Collides(band, j, Chunk(left, rows, j), Chunk(right, rows, j));
    }
    if j :| 0 <= j < chunks && Collides(band, j, Chunk(left, rows, j), Chunk(right, rows, j)) {
      assert ls[j] in ls && ls[j] == rs[j];
    }
  }
}
