/**
 * The streaming near-duplicate detector: a bounded first-in-first-out window, accelerated by an
 * inverted index from bucket key to arrival numbers.
 */
module DuplicateDetector {
  import opened Wrappers
  import opened MinHash
  import opened Primes
  import Text

  datatype Seen = Seen(postId: string, signature: Signature, buckets: seq<BucketKey>, arrival: nat)

  datatype Verdict = Unique | Duplicate(originalId: string, similarity: real)

  datatype Submission = Submission(postId: string, text: string)

  // ------------------------------------------------ the scan the index replaces

  /** The first of the highest-scoring eligible entries. */
  ghost predicate IsFirstBest(window: seq<Seen>, score: Seen -> real, eligible: Seen -> bool, i: nat) {
    && i < |window|
    && eligible(window[i])
    && forall j :: 0 <= j < |window| && eligible(window[j]) ==>
         && score(window[j]) <= score(window[i])
         && (j < i ==> score(window[j]) < score(window[i]))
  }

  /** A linear scan of the window in arrival order, keeping strictly better scores. */
  function Scan(window: seq<Seen>, score: Seen -> real, eligible: Seen -> bool): (best: Option<nat>)
    ensures best.None? <==> forall i :: 0 <= i < |window| ==> !eligible(window[i])
    ensures best.Some? ==> IsFirstBest(window, score, eligible, best.value)
  {
    if window == [] then None
    else
      var n := |window| - 1;
      var best := Scan(window[..n], score, eligible);
      if eligible(window[n]) && (best.None? || score(window[n]) > score(window[best.value]))
      then Some(n) else best
  }

  lemma {:induction false} FirstBestIsScan(window: seq<Seen>, score: Seen -> real, eligible: Seen -> bool, i: nat)
    requires IsFirstBest(window, score, eligible, i)
    ensures Scan(window, score, eligible) == Some(i)
  {
    var j := Scan(window, score, eligible).value;
    assert eligible(window[i]) && eligible(window[j]);
  }

  function Scorer(sig: Signature): Seen -> real {
    (e: Seen) => Similarity(sig, e.signature)
  }

  function Retrieved(score: Seen -> real, keys: seq<BucketKey>, threshold: real): Seen -> bool {
    (e: Seen) => SharesKey(e.buckets, keys) && score(e) >= threshold
  }

  function SimilarEnough(score: Seen -> real, threshold: real): Seen -> bool {
    (e: Seen) => score(e) >= threshold
  }

  function VerdictAt(window: seq<Seen>, score: Seen -> real, best: Option<nat>): Verdict
    requires best.Some? ==> best.value < |window|
  {
    match best
    case None => Unique
    case Some(i) => Duplicate(window[i].postId, score(window[i]))
  }

  /** The verdict of scanning every entry that shares a bucket key. */
  function ScanVerdict(window: seq<Seen>, score: Seen -> real, keys: seq<BucketKey>, threshold: real): Verdict {
    VerdictAt(window, score, Scan(window, score, Retrieved(score, keys, threshold)))
  }

  /** The verdict of comparing with every remembered entry, no banding at all. */
  function ExhaustiveVerdict(window: seq<Seen>, score: Seen -> real, threshold: real): Verdict {
    VerdictAt(window, score, Scan(window, score, SimilarEnough(score, threshold)))
  }

  // ---------------------------------------------------- the window over whole runs

  /** The submissions that have a signature, numbered in arrival order. */
  function Entries(hasher: MinHasher, history: seq<Submission>): (entries: seq<Seen>)
    requires hasher.WellFormed()
    ensures forall i :: 0 <= i < |entries| ==>
      && entries[i].arrival == i
      && |entries[i].signature| == hasher.NumHashes()
      && entries[i].buckets == hasher.Buckets(entries[i].signature)
  {
    if history == [] then []
    else
      var last := history[|history| - 1];
      var earlier := Entries(hasher, history[..|history| - 1]);
      match hasher.SignatureOf(last.text)
      case None => earlier
      case Some(sig) => earlier + [Seen(last.postId, sig, hasher.Buckets(sig), |earlier|)]
  }

  function LastN<T>(s: seq<T>, n: nat): seq<T> {
    if |s| <= n then s else s[|s| - n..]
  }

  /** The verdict on a text, given everything submitted before it. */
  function Judge(hasher: MinHasher, threshold: real, capacity: nat, history: seq<Submission>, text: string): Verdict
    requires hasher.WellFormed()
  {
    match hasher.SignatureOf(text)
    case None => Unique
    case Some(sig) =>
      ScanVerdict(LastN(Entries(hasher, history), capacity), Scorer(sig), hasher.Buckets(sig), threshold)
  }

  // ------------------------------------------------------------------ the index

  /** Arrival numbers of the entries filed under `key`, oldest first. */
  ghost function Postings(window: seq<Seen>, key: BucketKey): seq<nat> {
    if window == [] then []
    else (if key in window[0].buckets then [window[0].arrival] else []) + Postings(window[1..], key)
  }

  ghost predicate AgreesOn(index: map<BucketKey, seq<nat>>, window: seq<Seen>, key: BucketKey) {
    && (key in index <==> Postings(window, key) != [])
    && (key in index ==> index[key] == Postings(window, key))
  }

  predicate Filed(index: map<BucketKey, seq<nat>>, key: BucketKey, s: nat) {
    key in index && s in index[key]
  }

  ghost predicate Contiguous(window: seq<Seen>, front: nat) {
    forall i :: 0 <= i < |window| ==> window[i].arrival == front + i
  }

  lemma {:induction false} PostingsMember(window: seq<Seen>, key: BucketKey, front: nat, s: nat)
    requires Contiguous(window, front)
    ensures s in Postings(window, key) <==>
      front <= s < front + |window| && key in window[s - front].buckets
  {
    if window != [] {
      PostingsMember(window[1..], key, front + 1, s);
    }
  }

  lemma {:induction false} PostingsAscend(window: seq<Seen>, key: BucketKey, front: nat)
    requires Contiguous(window, front)
    ensures forall i, j :: 0 <= i < j < |Postings(window, key)| ==>
      Postings(window, key)[i] < Postings(window, key)[j]
  {
    if window != [] {
      var rest := Postings(window[1..], key);
      PostingsAscend(window[1..], key, front + 1);
      forall j | 0 <= j < |rest|
        ensures front < rest[j]
      {
        PostingsMember(window[1..], key, front + 1, rest[j]);
      }
    }
  }

  lemma {:induction false} PostingsAppend(window: seq<Seen>, e: Seen, key: BucketKey)
    ensures Postings(window + [e], key) ==
      Postings(window, key) + (if key in e.buckets then [e.arrival] else [])
  {
    if window == [] {
      assert (window + [e])[1..] == [];
    } else {
      assert (window + [e])[1..] == window[1..] + [e];
      PostingsAppend(window[1..], e, key);
    }
  }

  function Retain(seqs: seq<nat>, evicted: nat): (kept: seq<nat>)
    ensures evicted !in seqs ==> kept == seqs
  {
    if seqs == [] then []
    else (if seqs[0] != evicted then [seqs[0]] else []) + Retain(seqs[1..], evicted)
  }

  /** Unlinking the oldest arrival turns the postings of the window into those of its tail. */
  lemma {:induction false} RetainUnlinks(window: seq<Seen>, key: BucketKey, front: nat)
    requires window != [] && Contiguous(window, front)
    ensures Retain(Postings(window, key), front) == Postings(window[1..], key)
    ensures Retain(Postings(window[1..], key), front) == Postings(window[1..], key)
  {
    PostingsMember(window[1..], key, front + 1, front);
    if key in window[0].buckets {
      assert Postings(window, key)[1..] == Postings(window[1..], key);
    }
  }

  /** All keys in use. */
  ghost function Keys(window: seq<Seen>): set<BucketKey> {
    if window == [] then {} else (set k | k in window[0].buckets) + Keys(window[1..])
  }

  lemma {:induction false} KeysBounded(window: seq<Seen>, bands: nat)
    requires forall i :: 0 <= i < |window| ==> |window[i].buckets| == bands
    ensures |Keys(window)| <= |window| * bands
  {
    if window != [] {
      KeysBounded(window[1..], bands);
      ElementsBounded(window[0].buckets);
      OneMore(|window|, bands);
    }
  }

  lemma OneMore(n: nat, k: nat)
    requires n > 0
    ensures n * k == k + (n - 1) * k
  {
  }

  lemma {:induction false} ElementsBounded(keys: seq<BucketKey>)
    ensures |set k | k in keys| <= |keys|
  {
    if keys != [] {
      ElementsBounded(keys[1..]);
      assert (set k | k in keys) == {keys[0]} + (set k | k in keys[1..]);
    }
  }

  lemma {:induction false} PostingsInKeys(window: seq<Seen>, key: BucketKey)
    ensures Postings(window, key) != [] <==> key in Keys(window)
  {
    if window != [] {
      PostingsInKeys(window[1..], key);
    }
  }

  ghost predicate Ascending(s: seq<nat>) {
    forall i, j :: 0 <= i < j < |s| ==> s[i] < s[j]
  }

  function InsertOnce(s: seq<nat>, x: nat): (t: seq<nat>)
    requires Ascending(s)
    ensures Ascending(t)
    ensures forall y :: y in t <==> y == x || y in s
  {
    if s == [] || x < s[0] then [x] + s
    else if x == s[0] then s
    else
      var t := InsertOnce(s[1..], x);
      assert forall y :: y in s <==> y == s[0] || y in s[1..];
      assert forall j :: 0 <= j < |t| ==> t[j] in t;
      [s[0]] + t
  }

  /** `sort_unstable` then `dedup`. */
  method SortDedup(s: seq<nat>) returns (t: seq<nat>)
    ensures Ascending(t)
    ensures forall x :: x in t <==> x in s
  {
    t := [];
    for i := 0 to |s|
      invariant Ascending(t)
      invariant forall x :: x in t <==> x in s[..i]
    {
      t := InsertOnce(t, s[i]);
    }
    assert s[..|s|] == s;
  }

  // ------------------------------------------------------- the loops of `check`

  ghost predicate Indexes(index: map<BucketKey, seq<nat>>, window: seq<Seen>) {
    forall k :: AgreesOn(index, window, k)
  }

  /** The entry with arrival number `s` is live and filed under one of `keys`. */
  ghost predicate Candidate(window: seq<Seen>, front: nat, keys: seq<BucketKey>, s: nat) {
    front <= s < front + |window| && SharesKey(window[s - front].buckets, keys)
  }

  lemma {:induction false} CandidatesAreLive(index: map<BucketKey, seq<nat>>, window: seq<Seen>, front: nat,
      keys: seq<BucketKey>, s: nat)
    requires Contiguous(window, front) && Indexes(index, window)
    ensures (exists k :: k in keys && Filed(index, k, s)) <==> Candidate(window, front, keys, s)
  {
    forall k | k in keys
      ensures Filed(index, k, s) <==>
              front <= s < front + |window| && k in window[s - front].buckets
    {
      assert AgreesOn(index, window, k);
      PostingsMember(window, k, front, s);
    }
  }

  /** Retrieval: everything filed under any of `keys`, deduplicated, oldest first. */
  method Collect(index: map<BucketKey, seq<nat>>, keys: seq<BucketKey>, ghost window: seq<Seen>, ghost front: nat)
    returns (candidates: seq<nat>)
    requires Contiguous(window, front) && Indexes(index, window)
    ensures Ascending(candidates)
    ensures forall s: nat :: s in candidates <==> Candidate(window, front, keys, s)
  {
    var gathered: seq<nat> := [];
    for j := 0 to |keys|
      invariant forall s :: s in gathered <==> exists k :: k in keys[..j] && Filed(index, k, s)
    {
      ghost var was, key := gathered, keys[j];
      if keys[j] in index {
        gathered := gathered + index[keys[j]];
      }
      assert forall s :: s in gathered <==> s in was || Filed(index, key, s);
      assert keys[..j + 1] == keys[..j] + [key];
    }
    assert keys[..|keys|] == keys;
    candidates := SortDedup(gathered);
    forall s: nat
      ensures s in candidates <==> Candidate(window, front, keys, s)
    {
      CandidatesAreLive(index, window, front, keys, s);
    }
  }

  /** What the comparison loop knows after `n` candidates. */
  ghost predicate BestSoFar(window: seq<Seen>, front: nat, candidates: seq<nat>, score: Seen -> real, threshold: real,
      n: nat, best: Option<nat>)
    requires n <= |candidates|
    requires forall m :: 0 <= m < |candidates| ==> front <= candidates[m] < front + |window|
  {
    match best
    case None => forall m :: 0 <= m < n ==> score(window[candidates[m] - front]) < threshold
    case Some(i) =>
      && i < |window| && score(window[i]) >= threshold && front + i in candidates[..n]
      && forall m :: 0 <= m < n ==>
           && score(window[candidates[m] - front]) <= score(window[i])
           && (candidates[m] < front + i ==> score(window[candidates[m] - front]) < score(window[i]))
  }

  lemma {:induction false} BestIsScan(window: seq<Seen>, front: nat, candidates: seq<nat>, score: Seen -> real,
      threshold: real,
      keys: seq<BucketKey>, best: Option<nat>)
    requires forall m :: 0 <= m < |candidates| ==> front <= candidates[m] < front + |window|
    requires forall i :: 0 <= i < |window| ==> (front + i in candidates <==> SharesKey(window[i].buckets, keys))
    requires BestSoFar(window, front, candidates, score, threshold, |candidates|, best)
    ensures best == Scan(window, score, Retrieved(score, keys, threshold))
  {
    var eligible := Retrieved(score, keys, threshold);
    forall j | 0 <= j < |window| && eligible(window[j])
      ensures best.Some? && score(window[j]) <= score(window[best.value])
      ensures j < best.value ==> score(window[j]) < score(window[best.value])
    {
      var m :| 0 <= m < |candidates| && candidates[m] == front + j;
    }
    if best.Some? {
      assert front + best.value in candidates;
      FirstBestIsScan(window, score, eligible, best.value);
    }
  }

  /** The comparison loop finds what the linear scan finds. Its range guards never skip a candidate. */
  method BestOf(window: seq<Seen>, front: nat, candidates: seq<nat>, score: Seen -> real, threshold: real,
      ghost keys: seq<BucketKey>)
    returns (best: Option<nat>)
    requires Ascending(candidates)
    requires forall s: nat :: s in candidates <==> Candidate(window, front, keys, s)
    ensures best == Scan(window, score, Retrieved(score, keys, threshold))
  {
    best := None;
    forall m | 0 <= m < |candidates|
      ensures front <= candidates[m] < front + |window|
    {
      assert candidates[m] in candidates;
    }
    for n := 0 to |candidates|
      invariant BestSoFar(window, front, candidates, score, threshold, n, best)
    {
      var s := candidates[n];
      assert candidates[..n + 1] == candidates[..n] + [s];
      if front <= s && s - front < |window| {
        var current := score(window[s - front]);
        if current >= threshold && (best.None? || current > score(window[best.value])) {
          best := Some(s - front);
        }
      } else {
        assert false;
      }
    }
    forall i | 0 <= i < |window|
      ensures front + i in candidates <==> SharesKey(window[i].buckets, keys)
    {
      assert front + i in candidates <==> Candidate(window, front, keys, front + i);
    }
    BestIsScan(window, front, candidates, score, threshold, keys, best);
  }

  /** Part way through a change of window, only the keys in `done` have been brought up to date. */
  ghost predicate PartlyUpdated(index: map<BucketKey, seq<nat>>, before: seq<Seen>, after: seq<Seen>,
      done: seq<BucketKey>, key: BucketKey)
  {
    AgreesOn(index, if key in done then after else before, key)
  }

  function UnlinkKey(index: map<BucketKey, seq<nat>>, key: BucketKey, evicted: nat): map<BucketKey, seq<nat>> {
    if key !in index then index
    else
      var seqs := Retain(index[key], evicted);
      if seqs == [] then index - {key} else index[key := seqs]
  }

  lemma {:induction false} UnlinkKeyAgrees(index: map<BucketKey, seq<nat>>, window: seq<Seen>, key: BucketKey)
    requires window != [] && Contiguous(window, window[0].arrival)
    requires AgreesOn(index, window, key) || AgreesOn(index, window[1..], key)
    ensures AgreesOn(UnlinkKey(index, key, window[0].arrival), window[1..], key)
  {
    RetainUnlinks(window, key, window[0].arrival);
  }

  /** Unlink the oldest entry from every bucket it occupied, dropping lists that become empty. */
  method Unlink(index: map<BucketKey, seq<nat>>, evicted: Seen, ghost window: seq<Seen>)
    returns (unlinked: map<BucketKey, seq<nat>>)
    requires window != [] && window[0] == evicted && Contiguous(window, evicted.arrival)
    requires Indexes(index, window)
    ensures Indexes(unlinked, window[1..])
  {
    unlinked := index;
    ghost var rest := window[1..];
    for j := 0 to |evicted.buckets|
      invariant forall k :: PartlyUpdated(unlinked, window, rest, evicted.buckets[..j], k)
    {
      ghost var was := unlinked;
      unlinked := UnlinkKey(unlinked, evicted.buckets[j], evicted.arrival);
      ghost var done := evicted.buckets[..j + 1];
      assert done == evicted.buckets[..j] + [evicted.buckets[j]];
      forall k
        ensures PartlyUpdated(unlinked, window, rest, done, k)
      {
        assert PartlyUpdated(was, window, rest, evicted.buckets[..j], k);
        if k == evicted.buckets[j] {
          UnlinkKeyAgrees(was, window, k);
        }
      }
    }
    assert evicted.buckets[..|evicted.buckets|] == evicted.buckets;
    forall k
      ensures AgreesOn(unlinked, rest, k)
    {
      assert PartlyUpdated(unlinked, window, rest, evicted.buckets, k);
    }
  }

  /** File a new arrival under each of its keys. */
  method File(index: map<BucketKey, seq<nat>>, entry: Seen, ghost window: seq<Seen>)
    returns (filed: map<BucketKey, seq<nat>>)
    requires forall i, j :: 0 <= i < j < |entry.buckets| ==> entry.buckets[i] != entry.buckets[j]
    requires Indexes(index, window)
    ensures Indexes(filed, window + [entry])
  {
    filed := index;
    for j := 0 to |entry.buckets|
      invariant forall k :: PartlyUpdated(filed, window, window + [entry], entry.buckets[..j], k)
    {
      var key := entry.buckets[j];
      ghost var was := filed;
      assert key !in entry.buckets[..j];
      assert PartlyUpdated(was, window, window + [entry], entry.buckets[..j], key);
      filed := filed[key := (if key in filed then filed[key] else []) + [entry.arrival]];
      PostingsAppend(window, entry, key);
      ghost var done := entry.buckets[..j + 1];
      assert done == entry.buckets[..j] + [key];
      forall k
        ensures PartlyUpdated(filed, window, window + [entry], done, k)
      {
        assert PartlyUpdated(was, window, window + [entry], entry.buckets[..j], k);
      }
    }
    assert entry.buckets[..|entry.buckets|] == entry.buckets;
    forall k
      ensures AgreesOn(filed, window + [entry], k)
    {
      assert PartlyUpdated(filed, window, window + [entry], entry.buckets, k);
      PostingsAppend(window, entry, k);
    }
  }

  class Detector {
    const hasher: MinHasher
    const threshold: real
    const capacity: nat
    var window: seq<Seen>
    var index: map<BucketKey, seq<nat>>
    var frontSeq: nat
    var nextSeq: nat
    /** Everything ever submitted, in order. */
    ghost var history: seq<Submission>

    /** The arrival numbers address the window, and the index is exactly its inverse. */
    ghost predicate Linked()
      reads this
    {
      && nextSeq == frontSeq + |window|
      && Contiguous(window, frontSeq)
      && Indexes(index, window)
    }

    ghost predicate Valid()
      reads this
    {
      && hasher.WellFormed() && 0.0 <= threshold <= 1.0 && capacity > 0
      && Linked()
      && window == LastN(Entries(hasher, history), capacity)
      && nextSeq == |Entries(hasher, history)|
    }

    constructor (hasher: MinHasher, threshold: real, capacity: nat)
      requires hasher.WellFormed()
      requires 0.0 <= threshold <= 1.0 && capacity > 0
      ensures Valid() && history == []
      ensures this.hasher == hasher && this.threshold == threshold && this.capacity == capacity
    {
      this.hasher := hasher;
      this.threshold := threshold;
      this.capacity := capacity;
      window := [];
      index := map[];
      frontSeq := 0;
      nextSeq := 0;
      history := [];
    }

    /** Drop the oldest entry and unlink it from every bucket it occupied. */
    method EvictFront()
      requires Linked()
      modifies this`window, this`index, this`frontSeq
      ensures Linked()
      ensures window == if old(window) == [] then [] else old(window)[1..]
    {
      if window == [] {
        return;
      }
      var evicted := window[0];
      index := Unlink(index, evicted, window);
      window := window[1..];
      frontSeq := if window == [] then nextSeq else window[0].arrival;
    }

    /** Append a new arrival, evicting the oldest one from a full window. */
    method Remember(postId: string, sig: Signature, keys: seq<BucketKey>)
      requires Linked()
      requires capacity > 0
      requires forall i, j :: 0 <= i < j < |keys| ==> keys[i] != keys[j]
      modifies this`window, this`index, this`frontSeq, this`nextSeq
      ensures Linked() && nextSeq == old(nextSeq) + 1
      ensures window == (if |old(window)| == capacity then old(window)[1..] else old(window))
        + [Seen(postId, sig, keys, old(nextSeq))]
    {
      if |window| == capacity {
        EvictFront();
      }
      var entry := Seen(postId, sig, keys, nextSeq);
      nextSeq := nextSeq + 1;
      index := File(index, entry, window);
      window := window + [entry];
    }

    /** Check a post and remember it: the indexed verdict is that of the linear scan. */
    method Check(postId: string, text: string) returns (verdict: Verdict, signature: Option<Signature>)
      requires Valid()
      modifies this
      ensures Valid()
      ensures history == old(history) + [Submission(postId, text)]
      ensures signature == hasher.SignatureOf(text)
      ensures verdict == Judge(hasher, threshold, capacity, old(history), text)
    {
      signature := hasher.SignatureOf(text);
      ghost var submission := Submission(postId, text);
      WindowSlides(hasher, capacity, history, submission);
      history := history + [submission];
      if signature.None? {
        return Unique, None;
      }
      var sig := signature.value;
      var keys := hasher.Buckets(sig);
      var candidates := Collect(index, keys, window, frontSeq);
      var best := BestOf(window, frontSeq, candidates, Scorer(sig), threshold, keys);
      verdict := match best
        case None => Unique
        case Some(slot) => Duplicate(window[slot].postId, Similarity(sig, window[slot].signature));
      Remember(postId, sig, keys);
    }

    /**
     * In every reachable state the index is the exact inverse of the window: no dead or missing
     * arrival numbers, lists in arrival order, no empty lists, and at most `bands` keys per slot.
     */
    lemma IndexIsExact()
      requires Valid()
      ensures forall k, s: nat :: Filed(index, k, s) <==>
        frontSeq <= s < nextSeq && k in window[s - frontSeq].buckets
      ensures forall k :: k in index ==> index[k] != [] && Ascending(index[k])
      ensures |index| <= |window| * hasher.numBands <= capacity * hasher.numBands
    {
      IndexInverts(index, window, frontSeq);
      EntriesHaveKeys(hasher, history, capacity);
      IndexSize(index, window, hasher.numBands, capacity);
    }
  }

  lemma EntriesHaveKeys(hasher: MinHasher, history: seq<Submission>, capacity: nat)
    requires hasher.WellFormed()
    ensures forall i :: 0 <= i < |LastN(Entries(hasher, history), capacity)| ==>
      |LastN(Entries(hasher, history), capacity)[i].buckets| == hasher.numBands
  {
  }

  lemma {:induction false} IndexInverts(index: map<BucketKey, seq<nat>>, window: seq<Seen>, front: nat)
    requires Contiguous(window, front) && Indexes(index, window)
    ensures forall k, s: nat :: Filed(index, k, s) <==>
      front <= s < front + |window| && k in window[s - front].buckets
    ensures forall k :: k in index ==> index[k] != [] && Ascending(index[k])
  {
    forall k, s: nat
      ensures Filed(index, k, s) <==>
        front <= s < front + |window| && k in window[s - front].buckets
    {
      FiledExactly(index, window, front, k, s);
    }
    forall k | k in index
      ensures index[k] != [] && Ascending(index[k])
    {
      assert AgreesOn(index, window, k);
      PostingsAscend(window, k, front);
    }
  }

  lemma {:induction false} FiledExactly(
      index: map<BucketKey, seq<nat>>, window: seq<Seen>, front: nat, k: BucketKey, s: nat)
    requires Contiguous(window, front) && Indexes(index, window)
    ensures Filed(index, k, s) <==> front <= s < front + |window| && k in window[s - front].buckets
  {
    assert AgreesOn(index, window, k);
    PostingsMember(window, k, front, s);
  }

  lemma {:induction false} IndexSize(index: map<BucketKey, seq<nat>>, window: seq<Seen>, bands: nat, capacity: nat)
    requires Indexes(index, window) && |window| <= capacity
    requires forall i :: 0 <= i < |window| ==> |window[i].buckets| == bands
    ensures |index| <= |window| * bands <= capacity * bands
  {
    MulAtMost(|window|, capacity, bands);
    forall k | k in index
      ensures k in Keys(window)
    {
      assert AgreesOn(index, window, k);
      PostingsInKeys(window, k);
    }
    KeysBounded(window, bands);
    SubsetSize(index.Keys, Keys(window));
  }

  lemma {:induction false} SubsetSize<T>(s: set<T>, t: set<T>)
    requires s <= t
    ensures |s| <= |t|
  {
    assert |t - s| == |t| - |s|;
  }

  // --------------------------------------------------- consequences over whole runs

  /**
   * Whenever the best match of the exhaustive scan disagrees in fewer than `numBands`
   * positions, the indexed detector reports that very match.
   */
  lemma {:induction false} IndexedFindsTheExhaustiveBest(hasher: MinHasher, window: seq<Seen>, sig: Signature,
      threshold: real)
    requires hasher.WellFormed() && |sig| == hasher.NumHashes()
    requires forall i :: 0 <= i < |window| ==>
      |window[i].signature| == hasher.NumHashes() && window[i].buckets == hasher.Buckets(window[i].signature)
    requires var best := Scan(window, Scorer(sig), SimilarEnough(Scorer(sig), threshold));
      best.Some? ==> Agreements(sig, window[best.value].signature) >= hasher.NumHashes() - hasher.numBands + 1
    ensures ScanVerdict(window, Scorer(sig), hasher.Buckets(sig), threshold)
      == ExhaustiveVerdict(window, Scorer(sig), threshold)
  {
    var best := Scan(window, Scorer(sig), SimilarEnough(Scorer(sig), threshold));
    if best.Some? {
      BandingCompleteness(hasher, sig, window[best.value].signature);
    }
    BestSharesAKey(window, Scorer(sig), hasher.Buckets(sig), threshold);
  }

  lemma {:induction false} BestSharesAKey(window: seq<Seen>, score: Seen -> real, keys: seq<BucketKey>, threshold: real)
    requires var best := Scan(window, score, SimilarEnough(score, threshold));
      best.Some? ==> SharesKey(keys, window[best.value].buckets)
    ensures Scan(window, score, Retrieved(score, keys, threshold)) ==
      Scan(window, score, SimilarEnough(score, threshold))
  {
    var best := Scan(window, score, SimilarEnough(score, threshold));
    var banded := Scan(window, score, Retrieved(score, keys, threshold));
    forall i | 0 <= i < |window| && Retrieved(score, keys, threshold)(window[i])
      ensures SimilarEnough(score, threshold)(window[i])
    {
    }
    if best.Some? {
      var k :| k in keys && k in window[best.value].buckets;
      assert Retrieved(score, keys, threshold)(window[best.value]);
      assert banded.Some?;
    }
  }

  /** Banding can only lose matches: the indexed verdict never names a better match than the scan. */
  lemma {:induction false} BandingNeverInvents(window: seq<Seen>, score: Seen -> real, keys: seq<BucketKey>,
      threshold: real)
    requires ScanVerdict(window, score, keys, threshold).Duplicate?
    ensures ExhaustiveVerdict(window, score, threshold).Duplicate?
    ensures threshold <= ScanVerdict(window, score, keys, threshold).similarity
      <= ExhaustiveVerdict(window, score, threshold).similarity
  {
    var i := Scan(window, score, Retrieved(score, keys, threshold)).value;
    assert Retrieved(score, keys, threshold)(window[i]);
    assert SimilarEnough(score, threshold)(window[i]);
  }

  /** The earliest entry with a signature. */
  ghost predicate IsEarliestWith(window: seq<Seen>, sig: Signature, first: nat) {
    && first < |window| && window[first].signature == sig
    && forall j :: 0 <= j < first ==> window[j].signature != sig
  }

  /**
   * A repeat: a text whose signature is still in the window is a duplicate of similarity one,
   * attributed to the earliest entry with that signature.
   */
  lemma {:induction false} RepeatIsCaught(hasher: MinHasher, threshold: real, capacity: nat,
      history: seq<Submission>, text: string, first: nat)
    requires hasher.WellFormed() && threshold <= 1.0
    requires hasher.SignatureOf(text).Some?
    requires IsEarliestWith(LastN(Entries(hasher, history), capacity), hasher.SignatureOf(text).value, first)
    ensures Judge(hasher, threshold, capacity, history, text) ==
      Duplicate(LastN(Entries(hasher, history), capacity)[first].postId, 1.0)
  {
    var sig := hasher.SignatureOf(text).value;
    SameSignatureWins(LastN(Entries(hasher, history), capacity), sig, hasher.Buckets(sig), threshold, first);
  }

  /** A text is a duplicate of similarity one exactly when its signature is in the window. */
  lemma {:induction false} PerfectExactlyForRepeats(hasher: MinHasher, threshold: real, capacity: nat,
      history: seq<Submission>, text: string)
    requires hasher.WellFormed() && threshold <= 1.0
    requires hasher.SignatureOf(text).Some?
    ensures var verdict := Judge(hasher, threshold, capacity, history, text);
      verdict.Duplicate? && verdict.similarity == 1.0 <==>
        exists e :: e in LastN(Entries(hasher, history), capacity) && e.signature == hasher.SignatureOf(text).value
  {
    var sig := hasher.SignatureOf(text).value;
    var window := LastN(Entries(hasher, history), capacity);
    var verdict := Judge(hasher, threshold, capacity, history, text);
    if e :| e in window && e.signature == sig {
      var i :| 0 <= i < |window| && window[i] == e;
      var first := FirstWithSignature(window, sig, i);
      RepeatIsCaught(hasher, threshold, capacity, history, text, first);
    }
    if verdict.Duplicate? && verdict.similarity == 1.0 {
      var i := Scan(window, Scorer(sig), Retrieved(Scorer(sig), hasher.Buckets(sig), threshold)).value;
      assert window[i] in window && Similarity(sig, window[i].signature) == 1.0;
    }
  }

  lemma {:induction false} SameSignatureWins(window: seq<Seen>, sig: Signature, keys: seq<BucketKey>, threshold: real,
      i: nat)
    requires threshold <= 1.0 && sig != [] && keys != []
    requires i < |window| && window[i].signature == sig && window[i].buckets == keys
    requires forall j :: 0 <= j < i ==> window[j].signature != sig
    ensures ScanVerdict(window, Scorer(sig), keys, threshold) == Duplicate(window[i].postId, 1.0)
  {
    assert keys[0] in keys;
    assert SharesKey(window[i].buckets, keys);
    assert Similarity(sig, window[i].signature) == 1.0;
    FirstPerfectScoreWins(window, Scorer(sig), Retrieved(Scorer(sig), keys, threshold), i);
  }

  lemma {:induction false} FirstPerfectScoreWins(window: seq<Seen>, score: Seen -> real, eligible: Seen -> bool, i: nat)
    requires i < |window| && eligible(window[i]) && score(window[i]) == 1.0
    requires forall j :: 0 <= j < |window| ==> score(window[j]) <= 1.0
    requires forall j :: 0 <= j < i ==> score(window[j]) != 1.0
    ensures Scan(window, score, eligible) == Some(i)
  {
  }

  lemma EntriesSnoc(hasher: MinHasher, history: seq<Submission>, next: Submission)
    requires hasher.WellFormed()
    ensures Entries(hasher, history + [next]) ==
      match hasher.SignatureOf(next.text)
      case None => Entries(hasher, history)
      case Some(sig) =>
        Entries(hasher, history) + [Seen(next.postId, sig, hasher.Buckets(sig), |Entries(hasher, history)|)]
  {
    assert (history + [next])[..|history|] == history;
  }

  /** One more submission adds its signature to the log, or nothing. */
  ghost predicate LogsLast(log: seq<Submission> -> seq<Seen>, sign: string -> Option<Signature>,
      history: seq<Submission>)
    requires history != []
  {
    var n := |history| - 1;
    match sign(history[n].text)
    case None => log(history) == log(history[..n])
    case Some(sig) => exists e: Seen :: e.signature == sig && log(history) == log(history[..n]) + [e]
  }

  lemma {:induction false} EntryStays(log: seq<Submission> -> seq<Seen>, sign: string -> Option<Signature>,
      history: seq<Submission>, i: nat)
    requires forall h :: h != [] ==> LogsLast(log, sign, h)
    requires i < |history| && sign(history[i].text).Some?
    ensures |log(history[..i])| < |log(history)|
    ensures log(history)[|log(history[..i])|].signature == sign(history[i].text).value
    decreases |history|
  {
    var front := history[..|history| - 1];
    assert LogsLast(log, sign, history);
    if i < |front| {
      EntryStays(log, sign, front, i);
      assert front[..i] == history[..i];
    }
  }

  lemma {:induction false} EntriesLog(hasher: MinHasher, log: seq<Submission> -> seq<Seen>,
      sign: string -> Option<Signature>, history: seq<Submission>)
    requires hasher.WellFormed() && history != []
    requires log(history) == Entries(hasher, history)
    requires log(history[..|history| - 1]) == Entries(hasher, history[..|history| - 1])
    requires sign(history[|history| - 1].text) == hasher.SignatureOf(history[|history| - 1].text)
    ensures LogsLast(log, sign, history)
  {
    var last, earlier := history[|history| - 1], Entries(hasher, history[..|history| - 1]);
    var sig := hasher.SignatureOf(last.text);
    if sig.Some? {
      var e := Seen(last.postId, sig.value, hasher.Buckets(sig.value), |earlier|);
      assert Entries(hasher, history) == earlier + [e];
    }
  }

  /** A submission with a signature is entered right after the entries before it, and stays there. */
  lemma {:induction false} EntryOf(hasher: MinHasher, history: seq<Submission>, i: nat)
    requires hasher.WellFormed() && i < |history| && hasher.SignatureOf(history[i].text).Some?
    ensures |Entries(hasher, history[..i])| < |Entries(hasher, history)|
    ensures Entries(hasher, history)[|Entries(hasher, history[..i])|].signature ==
      hasher.SignatureOf(history[i].text).value
  {
    var log := (h: seq<Submission>) => Entries(hasher, h);
    var sign := (text: string) => hasher.SignatureOf(text);
    forall h: seq<Submission> | h != []
      ensures LogsLast(log, sign, h)
    {
      EntriesLog(hasher, log, sign, h);
    }
    EntryStays(log, sign, history, i);
  }

  lemma LastNHolds<T>(s: seq<T>, n: nat, k: nat) returns (slot: nat)
    requires k < |s| && |s| - k <= n
    ensures slot < |LastN(s, n)| && LastN(s, n)[slot] == s[k]
  {
    slot := k - (|s| - |LastN(s, n)|);
  }

  /** The verdict names the earliest remembered entry with this signature, at similarity one. */
  ghost predicate NamesTheEarliest(verdict: Verdict, window: seq<Seen>, sig: Signature) {
    exists first: nat :: IsEarliestWith(window, sig, first) && verdict == Duplicate(window[first].postId, 1.0)
  }

  /**
   * Whatever happened in between, a repeat arriving while at most `capacity` signatures have been
   * remembered since the original is a duplicate of similarity one of the earliest entry like it.
   */
  lemma {:induction false} RepeatWithinCapacity(hasher: MinHasher, threshold: real, capacity: nat,
      history: seq<Submission>, i: nat, text: string)
    requires hasher.WellFormed() && threshold <= 1.0
    requires i < |history|
    requires hasher.SignatureOf(text).Some? && hasher.SignatureOf(history[i].text) == hasher.SignatureOf(text)
    requires |Entries(hasher, history)| - |Entries(hasher, history[..i])| <= capacity
    ensures NamesTheEarliest(Judge(hasher, threshold, capacity, history, text),
      LastN(Entries(hasher, history), capacity), hasher.SignatureOf(text).value)
  {
    EntryOf(hasher, history, i);
    var slot := LastNHolds(Entries(hasher, history), capacity, |Entries(hasher, history[..i])|);
    var first := FirstWithSignature(LastN(Entries(hasher, history), capacity), hasher.SignatureOf(text).value, slot);
    RepeatIsCaught(hasher, threshold, capacity, history, text, first);
  }

  lemma {:induction false} FirstWithSignature(window: seq<Seen>, sig: Signature, i: nat) returns (first: nat)
    requires i < |window| && window[i].signature == sig
    ensures IsEarliestWith(window, sig, first)
  {
    if j :| 0 <= j < i && window[j].signature == sig {
      first := FirstWithSignature(window, sig, j);
    } else {
      first := i;
    }
  }

  /**
   * The reason the filter exists: a text that repeats an earlier one but for its links, handles
   * and tags, wherever they stand, is a duplicate of similarity one of the earliest entry like it.
   */
  lemma {:induction false} RepeatUpToLinksAndTags(hasher: MinHasher, threshold: real, capacity: nat,
      history: seq<Submission>, i: nat, text: string)
    requires hasher.WellFormed() && threshold <= 1.0
    requires i < |history|
    requires hasher.SignatureOf(text).Some?
    requires hasher.chars.Body(hasher.chars.Split(history[i].text)) == hasher.chars.Body(hasher.chars.Split(text))
    requires |Entries(hasher, history)| - |Entries(hasher, history[..i])| <= capacity
    ensures NamesTheEarliest(Judge(hasher, threshold, capacity, history, text),
      LastN(Entries(hasher, history), capacity), hasher.SignatureOf(text).value)
  {
    LinksAndTagsKeepTheSignature(hasher, history[i].text, text);
    RepeatWithinCapacity(hasher, threshold, capacity, history, i, text);
  }

  /** Texts that differ only by links, handles and tags have one signature. */
  lemma {:induction false} LinksAndTagsKeepTheSignature(hasher: MinHasher, s: string, t: string)
    requires hasher.chars.Body(hasher.chars.Split(s)) == hasher.chars.Body(hasher.chars.Split(t))
    ensures hasher.SignatureOf(s) == hasher.SignatureOf(t)
  {
    Text.LinksAndTagsAreInvisible(hasher.chars, s, t);
  }

  lemma {:induction false} LastNSnoc<T>(s: seq<T>, x: T, n: nat)
    requires n > 0
    ensures LastN(s + [x], n) == (if |LastN(s, n)| == n then LastN(s, n)[1..] else LastN(s, n)) + [x]
  {
    if |s| >= n {
      assert (s + [x])[|s| + 1 - n..] == s[|s| - n..][1..] + [x];
    }
  }

  /** One arrival: nothing for a text without a signature, else the oldest entry makes room for it. */
  function Slid(hasher: MinHasher, capacity: nat, window: seq<Seen>, arrival: nat, next: Submission): seq<Seen>
    requires hasher.WellFormed() && capacity > 0
  {
    match hasher.SignatureOf(next.text)
    case None => window
    case Some(sig) =>
      (if |window| == capacity then window[1..] else window)
        + [Seen(next.postId, sig, hasher.Buckets(sig), arrival)]
  }

  lemma {:induction false} WindowSlides(hasher: MinHasher, capacity: nat, history: seq<Submission>, next: Submission)
    requires hasher.WellFormed() && capacity > 0
    ensures LastN(Entries(hasher, history + [next]), capacity) ==
      Slid(hasher, capacity, LastN(Entries(hasher, history), capacity), |Entries(hasher, history)|, next)
  {
    var sig, entries := hasher.SignatureOf(next.text), Entries(hasher, history);
    EntriesSnoc(hasher, history, next);
    if sig.Some? {
      LastNSnoc(entries, Seen(next.postId, sig.value, hasher.Buckets(sig.value), |entries|), capacity);
    }
  }

  /** The window after a run of arrivals, starting empty. */
  function SlidThrough(hasher: MinHasher, capacity: nat, history: seq<Submission>): seq<Seen>
    requires hasher.WellFormed() && capacity > 0
  {
    if history == [] then []
    else
      var front := history[..|history| - 1];
      Slid(hasher, capacity, SlidThrough(hasher, capacity, front), |Entries(hasher, front)|, history[|history| - 1])
  }

  /** Over any run of arrivals the window is the last `min(n, capacity)` of the signature-bearing posts. */
  lemma {:induction false} WindowOverRuns(hasher: MinHasher, capacity: nat, history: seq<Submission>)
    requires hasher.WellFormed() && capacity > 0
    ensures SlidThrough(hasher, capacity, history) == LastN(Entries(hasher, history), capacity)
    ensures |SlidThrough(hasher, capacity, history)| ==
      if |Entries(hasher, history)| <= capacity then |Entries(hasher, history)| else capacity
  {
    SlidThroughIsLast(hasher, capacity, history);
    LastNSize(Entries(hasher, history), capacity);
  }

  lemma LastNSize<T>(s: seq<T>, n: nat)
    ensures |LastN(s, n)| == if |s| <= n then |s| else n
  {
  }

  lemma SlidThroughSnoc(hasher: MinHasher, capacity: nat, front: seq<Submission>, last: Submission)
    requires hasher.WellFormed() && capacity > 0
    ensures SlidThrough(hasher, capacity, front + [last]) ==
      Slid(hasher, capacity, SlidThrough(hasher, capacity, front), |Entries(hasher, front)|, last)
  {
    assert (front + [last])[..|front|] == front;
  }

  lemma {:induction false} SlideOn(hasher: MinHasher, capacity: nat, front: seq<Submission>, last: Submission)
    requires hasher.WellFormed() && capacity > 0
    requires SlidThrough(hasher, capacity, front) == LastN(Entries(hasher, front), capacity)
    ensures SlidThrough(hasher, capacity, front + [last]) == LastN(Entries(hasher, front + [last]), capacity)
  {
    SlidThroughSnoc(hasher, capacity, front, last);
    WindowSlides(hasher, capacity, front, last);
  }

  lemma {:induction false} SlidThroughIsLast(hasher: MinHasher, capacity: nat, history: seq<Submission>)
    requires hasher.WellFormed() && capacity > 0
    ensures SlidThrough(hasher, capacity, history) == LastN(Entries(hasher, history), capacity)
  {
    if history != [] {
      var front, last := history[..|history| - 1], history[|history| - 1];
      assert front + [last] == history;
      SlidThroughIsLast(hasher, capacity, front);
      SlideOn(hasher, capacity, front, last);
    }
  }
}
