/** The detector's verdicts in numbers of agreeing signature positions. */
module SimilarityCounts {
  import opened Wrappers
  import opened Transcendental
  import opened MinHash
  import opened DuplicateDetector
  import opened PostFilter

  /** In how many positions two signatures of one length agree. */
  ghost function MatchCount(left: Signature, right: Signature): nat {
    if |left| == |right| then |set i | 0 <= i < |left| && left[i] == right[i]| else 0
  }

  lemma OneMatch(x: int, y: int)
    ensures Agreements([x], [y]) == if x == y then 1 else 0
  {
    assert [x][1..] == [] && [y][1..] == [];
  }

  lemma {:induction false} MatchesGrow(left: Signature, right: Signature, n: nat)
    requires |left| == |right| == n + 1
    ensures MatchCount(left, right) == MatchCount(left[..n], right[..n]) + if left[n] == right[n] then 1 else 0
  {
    var front := set i | 0 <= i < n && left[..n][i] == right[..n][i];
    var all := set i | 0 <= i < n + 1 && left[i] == right[i];
    if left[n] == right[n] {
      assert all == front + {n};
    } else {
      assert all == front;
    }
  }

  lemma {:induction false} AgreementsAreMatches(left: Signature, right: Signature)
    requires |left| == |right|
    ensures Agreements(left, right) == MatchCount(left, right)
  {
    if left != [] {
      var n := |left| - 1;
      AgreementsAreMatches(left[..n], right[..n]);
      MatchesGrow(left, right, n);
      AgreementsSplit(left, right, n);
      assert left[n..] == [left[n]] && right[n..] == [right[n]];
      OneMatch(left[n], right[n]);
    }
  }

  lemma SimilarityOf(left: Signature, right: Signature)
    requires |left| == |right| && left != []
    ensures Similarity(left, right) == Agreements(left, right) as real / |left| as real
  {
  }

  /** The similarity is the share of positions in which the signatures agree; of unequal lengths it is 0. */
  lemma {:induction false} SimilarityIsTheShareOfMatches(left: Signature, right: Signature)
    requires left != []
    ensures Times(Similarity(left, right), |left| as real) == MatchCount(left, right) as real
  {
    if |left| == |right| {
      AgreementsAreMatches(left, right);
      SimilarityOf(left, right);
      QuotientTimes(Agreements(left, right) as real, |left| as real);
    }
  }

  // ------------------------------------------------------------------------------- verdicts

  /** The entry shares a bucket key and agrees in at least the threshold's share of the positions. */
  ghost predicate Qualifies(e: Seen, sig: Signature, keys: seq<BucketKey>, threshold: real) {
    && (exists k :: k in keys && k in e.buckets)
    && MatchCount(sig, e.signature) as real >= Times(threshold, |sig| as real)
  }

  lemma ShareOrder(share: real, count: real, size: real, threshold: real)
    requires size > 0.0 && Times(share, size) == count
    ensures share >= threshold <==> count >= Times(threshold, size)
  {
    var gap := share - threshold;
    assert gap * size == count - threshold * size;
    if gap < 0.0 {
      assert -gap * size > 0.0;
    }
  }

  lemma {:induction false} QualifiesIsRetrieved(e: Seen, sig: Signature, keys: seq<BucketKey>, threshold: real,
      score: Seen -> real)
    requires sig != [] && score(e) == Similarity(sig, e.signature)
    ensures Retrieved(score, keys, threshold)(e) <==> Qualifies(e, sig, keys, threshold)
  {
    SimilarityIsTheShareOfMatches(sig, e.signature);
    ShareOrder(score(e), MatchCount(sig, e.signature) as real, |sig| as real, threshold);
  }

  /** The earliest of the qualifying entries with the highest count. */
  ghost predicate IsFirstWithMost(window: seq<Seen>, count: Seen -> nat, qualifies: Seen -> bool, i: nat) {
    && i < |window| && qualifies(window[i])
    && forall j :: 0 <= j < |window| && qualifies(window[j]) ==>
         count(window[j]) <= count(window[i]) && (j < i ==> count(window[j]) < count(window[i]))
  }

  lemma CountOrder(x: real, y: real, m: nat, n: nat, size: real)
    requires size > 0.0 && Times(x, size) == m as real && Times(y, size) == n as real
    ensures x <= y <==> m <= n
    ensures x < y <==> m < n
  {
    assert (y - x) * size == n as real - m as real;
    if x < y {
      assert (y - x) * size > 0.0;
    } else if y < x {
      assert (x - y) * size > 0.0;
    }
  }

  ghost predicate Measures(score: Seen -> real, count: Seen -> nat, size: real, e: Seen) {
    Times(score(e), size) == count(e) as real
  }

  lemma {:induction false} FirstBestHasMost(window: seq<Seen>, score: Seen -> real, count: Seen -> nat,
      eligible: Seen -> bool, size: real, best: nat)
    requires size > 0.0 && forall i :: 0 <= i < |window| ==> Measures(score, count, size, window[i])
    requires IsFirstBest(window, score, eligible, best)
    ensures IsFirstWithMost(window, count, eligible, best)
  {
    forall j | 0 <= j < |window| && eligible(window[j])
      ensures count(window[j]) <= count(window[best]) && (j < best ==> count(window[j]) < count(window[best]))
    {
      assert Measures(score, count, size, window[j]) && Measures(score, count, size, window[best]);
      CountOrder(score(window[j]), score(window[best]), count(window[j]), count(window[best]), size);
    }
  }

  /** The earliest of the qualifying entries that agree in the most positions. */
  ghost predicate IsBestMatch(window: seq<Seen>, sig: Signature, keys: seq<BucketKey>, threshold: real, i: nat) {
    && i < |window| && Qualifies(window[i], sig, keys, threshold)
    && forall j :: 0 <= j < |window| && Qualifies(window[j], sig, keys, threshold) ==>
         && MatchCount(sig, window[j].signature) <= MatchCount(sig, window[i].signature)
         && (j < i ==> MatchCount(sig, window[j].signature) < MatchCount(sig, window[i].signature))
  }

  /** `score` is the similarity to `sig`. */
  ghost predicate ScoresTo(score: Seen -> real, sig: Signature, e: Seen) {
    score(e) == Similarity(sig, e.signature)
  }

  lemma {:induction false} BestMatchIsFirstBest(window: seq<Seen>, sig: Signature, keys: seq<BucketKey>,
      threshold: real, score: Seen -> real, best: nat)
    requires sig != [] && forall e :: ScoresTo(score, sig, e)
    requires IsFirstBest(window, score, Retrieved(score, keys, threshold), best)
    ensures IsBestMatch(window, sig, keys, threshold, best)
  {
    var eligible, count := Retrieved(score, keys, threshold), (e: Seen) => MatchCount(sig, e.signature);
    forall i | 0 <= i < |window|
      ensures Measures(score, count, |sig| as real, window[i])
    {
      assert ScoresTo(score, sig, window[i]);
      SimilarityIsTheShareOfMatches(sig, window[i].signature);
    }
    FirstBestHasMost(window, score, count, eligible, |sig| as real, best);
    forall i | 0 <= i < |window|
      ensures eligible(window[i]) <==> Qualifies(window[i], sig, keys, threshold)
    {
      assert ScoresTo(score, sig, window[i]);
      QualifiesIsRetrieved(window[i], sig, keys, threshold, score);
    }
    MostIsBestMatch(window, sig, keys, threshold, count, eligible, best);
  }

  lemma MostIsBestMatch(window: seq<Seen>, sig: Signature, keys: seq<BucketKey>, threshold: real,
      count: Seen -> nat, eligible: Seen -> bool, best: nat)
    requires forall e :: count(e) == MatchCount(sig, e.signature)
    requires forall i :: 0 <= i < |window| ==> (eligible(window[i]) <==> Qualifies(window[i], sig, keys, threshold))
    requires IsFirstWithMost(window, count, eligible, best)
    ensures IsBestMatch(window, sig, keys, threshold, best)
  {
  }

  /** A duplicate of the best match, its similarity times the signature length being the agreeing positions. */
  ghost predicate IsVerdict(verdict: Verdict, window: seq<Seen>, sig: Signature, keys: seq<BucketKey>,
      threshold: real)
  {
    match verdict
    case Unique => forall i :: 0 <= i < |window| ==> !Qualifies(window[i], sig, keys, threshold)
    case Duplicate(id, similarity) =>
      exists i: nat :: IsBestMatch(window, sig, keys, threshold, i) && Names(window[i], sig, id, similarity)
  }

  ghost predicate Names(e: Seen, sig: Signature, id: string, similarity: real) {
    e.postId == id && Times(similarity, |sig| as real) == MatchCount(sig, e.signature) as real
  }

  lemma {:induction false} ScanCountsMatches(window: seq<Seen>, sig: Signature, keys: seq<BucketKey>,
      threshold: real, score: Seen -> real)
    requires sig != [] && forall e :: ScoresTo(score, sig, e)
    ensures IsVerdict(ScanVerdict(window, score, keys, threshold), window, sig, keys, threshold)
  {
    var best := Scan(window, score, Retrieved(score, keys, threshold));
    if best.Some? {
      BestMatchIsFirstBest(window, sig, keys, threshold, score, best.value);
      assert ScoresTo(score, sig, window[best.value]);
      SimilarityIsTheShareOfMatches(sig, window[best.value].signature);
      assert Names(window[best.value], sig, window[best.value].postId, score(window[best.value]));
    } else {
      forall i | 0 <= i < |window|
        ensures !Qualifies(window[i], sig, keys, threshold)
      {
        assert ScoresTo(score, sig, window[i]);
        QualifiesIsRetrieved(window[i], sig, keys, threshold, score);
      }
    }
  }

  /**
   * What the detector decides, in counts: a text is a duplicate exactly when a remembered entry that
   * shares a bucket key agrees with it in at least `threshold * H` of the `H` positions; it is
   * attributed to the earliest with the most, and the reported similarity is that count over `H`.
   */
  lemma {:induction false} VerdictCountsMatches(hasher: MinHasher, threshold: real, capacity: nat,
      history: seq<Submission>, text: string)
    requires hasher.WellFormed()
    ensures var window, verdict := LastN(Entries(hasher, history), capacity),
        Judge(hasher, threshold, capacity, history, text);
      match hasher.SignatureOf(text)
      case None => verdict == Unique
      case Some(sig) => IsVerdict(verdict, window, sig, hasher.Buckets(sig), threshold)
  {
    var sig := hasher.SignatureOf(text);
    if sig.Some? {
      assert forall e :: ScoresTo(Scorer(sig.value), sig.value, e);
      ScanCountsMatches(LastN(Entries(hasher, history), capacity), sig.value, hasher.Buckets(sig.value), threshold,
        Scorer(sig.value));
    }
  }

  // -------------------------------------------------------------------------------- entries

  /** `e` is what a submission leaves in the window. */
  predicate EntryFor(hasher: MinHasher, submission: Submission, e: Seen) {
    e.postId == submission.postId && hasher.SignatureOf(submission.text) == Some(e.signature)
  }

  /** Every submission with a signature is entered after those before it, under its own id; no other entry exists. */
  lemma {:induction false} EntriesAreTheSubmissions(hasher: MinHasher, history: seq<Submission>, k: nat)
    requires hasher.WellFormed() && k < |history|
    ensures var before, through := Entries(hasher, history[..k]), Entries(hasher, history[..k + 1]);
      if hasher.SignatureOf(history[k].text).None? then through == before
      else |through| == |before| + 1 && before <= through && EntryFor(hasher, history[k], through[|before|])
  {
    assert history[..k + 1] == history[..k] + [history[k]];
    EntriesSnoc(hasher, history[..k], history[k]);
  }

  // ------------------------------------------------------------------------------ the filter

  ghost predicate AnyQualifies(window: seq<Seen>, sig: Signature, keys: seq<BucketKey>, threshold: real) {
    exists i :: 0 <= i < |window| && Qualifies(window[i], sig, keys, threshold)
  }

  /** Some remembered entry qualifies as the original of this text. */
  ghost predicate HasOriginal(s: Settings, history: seq<Submission>, text: string)
    requires s.hasher.WellFormed()
  {
    var sig := s.hasher.SignatureOf(text);
    sig.Some? && AnyQualifies(LastN(Entries(s.hasher, history), s.capacity), sig.value,
      s.hasher.Buckets(sig.value), s.threshold)
  }

  /** The reason of a rejection is the detector's verdict. */
  predicate Explains(reason: Reason, s: Settings, history: seq<Submission>, text: string)
    requires s.hasher.WellFormed()
  {
    reason.DuplicateOf? && Judge(s.hasher, s.threshold, s.capacity, history, text)
      == Duplicate(reason.originalId, reason.similarity)
  }

  /** A post is accepted exactly when no heuristic rejects it and nothing remembered qualifies as its original. */
  lemma {:induction false} AcceptedExactlyWhen(s: Settings, history: seq<Submission>, post: Post)
    requires s.hasher.WellFormed() && s.reject(s.Marked(post)).None?
    ensures var out := s.Classify(history, post);
      && (out.verdict == Accepted <==> !HasOriginal(s, history, post.text))
      && (out.verdict == RejectedDuplicate <==> HasOriginal(s, history, post.text))
      && (out.reason.Some? <==> out.verdict == RejectedDuplicate)
      && (out.reason.Some? ==> Explains(out.reason.value, s, history, post.text))
      && out.postId == post.postId && out.minhash == (if s.hasher.SignatureOf(post.text).Some?
                                                      then s.hasher.SignatureOf(post.text) else post.minhash)
  {
    VerdictCountsMatches(s.hasher, s.threshold, s.capacity, history, post.text);
    var sig := s.hasher.SignatureOf(post.text);
    if sig.Some? {
      var window := LastN(Entries(s.hasher, history), s.capacity);
      VerdictTellsOriginal(Judge(s.hasher, s.threshold, s.capacity, history, post.text), window, sig.value,
        s.hasher.Buckets(sig.value), s.threshold);
    }
  }

  lemma VerdictTellsOriginal(verdict: Verdict, window: seq<Seen>, sig: Signature, keys: seq<BucketKey>,
      threshold: real)
    requires IsVerdict(verdict, window, sig, keys, threshold)
    ensures verdict.Duplicate? <==> AnyQualifies(window, sig, keys, threshold)
  {
    if verdict.Duplicate? {
      var i: nat :| IsBestMatch(window, sig, keys, threshold, i);
      assert Qualifies(window[i], sig, keys, threshold);
    }
  }
}
