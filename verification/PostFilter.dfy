/** The stateful post filter: heuristics first, duplicate detection always. */
module PostFilter {
  import opened Wrappers
  import opened MinHash
  import opened DuplicateDetector

  datatype FilterVerdict = Accepted | RejectedDuplicate | Bot | LowQuality | OffTopic

  datatype Reason = Heuristic(why: string) | DuplicateOf(similarity: real, originalId: string)

  datatype Post = Post(
    postId: string, text: string, followers: int, accountAgeDays: Option<int>,
    minhash: Option<Signature>, lshBucket: Option<BucketKey>,
    verdict: FilterVerdict, reason: Option<Reason>)

  /** The cheap field checks: a verdict and a reason, or nothing. */
  type HeuristicReject = Post -> Option<(FilterVerdict, string)>

  datatype FilterStats = FilterStats(accepted: nat, duplicate: nat, bot: nat, lowQuality: nat)
  {
    function Total(): nat {
      accepted + duplicate + bot + lowQuality
    }

    function Record(verdict: FilterVerdict): FilterStats {
      match verdict
      case Accepted => this.(accepted := accepted + 1)
      case RejectedDuplicate => this.(duplicate := duplicate + 1)
      case Bot => this.(bot := bot + 1)
      case LowQuality | OffTopic => this.(lowQuality := lowQuality + 1)
    }

    function RecordAll(posts: seq<Post>): FilterStats {
      if posts == [] then this
      else RecordAll(posts[..|posts| - 1]).Record(posts[|posts| - 1].verdict)
    }
  }

  function CountVerdicts(posts: seq<Post>, verdicts: set<FilterVerdict>): nat {
    if posts == [] then 0
    else CountVerdicts(posts[..|posts| - 1], verdicts) + if posts[|posts| - 1].verdict in verdicts then 1 else 0
  }

  /** Each counter counts its verdicts, and together they account for every post. */
  lemma {:induction false} StatsAccountForEveryPost(stats: FilterStats, posts: seq<Post>)
    ensures stats.RecordAll(posts).Total() == stats.Total() + |posts|
    ensures stats.RecordAll(posts).accepted == stats.accepted + CountVerdicts(posts, {Accepted})
    ensures stats.RecordAll(posts).duplicate == stats.duplicate + CountVerdicts(posts, {RejectedDuplicate})
    ensures stats.RecordAll(posts).bot == stats.bot + CountVerdicts(posts, {Bot})
    ensures stats.RecordAll(posts).lowQuality == stats.lowQuality + CountVerdicts(posts, {LowQuality, OffTopic})
  {
    if posts != [] {
      StatsAccountForEveryPost(stats, posts[..|posts| - 1]);
    }
  }

  function Submitted(posts: seq<Post>): (subs: seq<Submission>)
    ensures |subs| == |posts|
    ensures forall i :: 0 <= i < |subs| ==> subs[i] == Submission(posts[i].postId, posts[i].text)
  {
    seq(|posts|, i requires 0 <= i < |posts| => Submission(posts[i].postId, posts[i].text))
  }

  datatype Settings = Settings(hasher: MinHasher, threshold: real, capacity: nat, reject: HeuristicReject)
  {
    /** The post with its signature attached, whatever the verdict will be. */
    function Marked(post: Post): Post
      requires hasher.WellFormed()
    {
      match hasher.SignatureOf(post.text)
      case None => post
      case Some(sig) => post.(minhash := Some(sig), lshBucket := hasher.PrimaryBucket(sig))
    }

    /** The filtered post, given every submission before it. */
    function Classify(history: seq<Submission>, post: Post): Post
      requires hasher.WellFormed()
    {
      var marked := Marked(post);
      match reject(marked)
      case Some((verdict, why)) => marked.(verdict := verdict, reason := Some(Heuristic(why)))
      case None =>
        match Judge(hasher, threshold, capacity, history, post.text)
        case Duplicate(id, similarity) =>
          marked.(verdict := RejectedDuplicate, reason := Some(DuplicateOf(similarity, id)))
        case Unique => marked.(verdict := Accepted, reason := None)
    }

    function Classifier(): Classifier
      requires hasher.WellFormed()
    {
      (history, post) => Classify(history, post)
    }
  }

  type Classifier = (seq<Submission>, Post) -> Post

  /** Filtering a batch: each post is judged against all that came before it. */
  function ClassifyAll(classify: Classifier, history: seq<Submission>, posts: seq<Post>): (outs: seq<Post>)
    ensures |outs| == |posts|
    ensures forall i :: 0 <= i < |posts| ==> outs[i] == classify(history + Submitted(posts[..i]), posts[i])
  {
    seq(|posts|, i requires 0 <= i < |posts| => classify(history + Submitted(posts[..i]), posts[i]))
  }

  class Filter {
    const detector: Detector
    const reject: HeuristicReject
    var stats: FilterStats

    ghost predicate Valid()
      reads this, detector
    {
      detector.Valid()
    }

    function GetSettings(): Settings {
      Settings(detector.hasher, detector.threshold, detector.capacity, reject)
    }

    constructor (detector: Detector, reject: HeuristicReject)
      requires detector.Valid()
      ensures Valid() && this.detector == detector && this.reject == reject
      ensures stats == FilterStats(0, 0, 0, 0)
    {
      this.detector := detector;
      this.reject := reject;
      stats := FilterStats(0, 0, 0, 0);
    }

    method ApplyMut(post: Post) returns (out: Post)
      requires Valid()
      modifies this, detector
      ensures Valid()
      ensures out == GetSettings().Classify(old(detector.history), post)
      ensures detector.history == old(detector.history) + [Submission(post.postId, post.text)]
      ensures stats == old(stats).Record(out.verdict)
    {
      var duplicate, signature := detector.Check(post.postId, post.text);
      out := post;
      if signature.Some? {
        out := out.(lshBucket := detector.hasher.PrimaryBucket(signature.value));
        out := out.(minhash := signature);
      }
      var verdict, reason;
      match reject(out) {
        case Some((v, why)) =>
          verdict, reason := v, Some(Heuristic(why));
        case None =>
          match duplicate {
            case Duplicate(id, similarity) =>
              verdict, reason := RejectedDuplicate, Some(DuplicateOf(similarity, id));
            case Unique =>
              verdict, reason := Accepted, None;
          }
      }
      stats := stats.Record(verdict);
      out := out.(verdict := verdict, reason := reason);
    }

    method ApplyBatch(posts: seq<Post>) returns (outs: seq<Post>)
      requires Valid()
      modifies this, detector
      ensures Valid()
      ensures outs == ClassifyAll(GetSettings().Classifier(), old(detector.history), posts)
      ensures detector.history == old(detector.history) + Submitted(posts)
      ensures stats == old(stats).RecordAll(outs)
    {
      outs := [];
      ghost var classify := GetSettings().Classifier();
      ghost var before := detector.history;
      for i := 0 to |posts|
        invariant Valid()
        invariant outs == ClassifyAll(classify, before, posts[..i])
        invariant detector.history == before + Submitted(posts[..i])
        invariant stats == old(stats).RecordAll(outs)
      {
        ClassifySnoc(classify, before, posts, i);
        var out := ApplyMut(posts[i]);
        assert out == classify(before + Submitted(posts[..i]), posts[i]);
        assert (outs + [out])[..|outs|] == outs;
        outs := outs + [out];
      }
      assert posts[..|posts|] == posts;
    }
  }

  lemma {:induction false} ClassifySnoc(classify: Classifier, history: seq<Submission>, posts: seq<Post>, i: nat)
    requires i < |posts|
    ensures ClassifyAll(classify, history, posts[..i + 1]) ==
      ClassifyAll(classify, history, posts[..i]) + [classify(history + Submitted(posts[..i]), posts[i])]
    ensures history + Submitted(posts[..i + 1]) ==
      history + Submitted(posts[..i]) + [Submission(posts[i].postId, posts[i].text)]
  {
    assert forall j :: 0 <= j <= i ==> posts[..i + 1][..j] == posts[..j];
    assert forall j :: 0 <= j < i ==> posts[..i][..j] == posts[..j];
  }

  /** One batch or two: splitting a batch anywhere changes nothing. */
  lemma {:induction false} BatchingIsSequential(classify: Classifier, history: seq<Submission>, ps: seq<Post>,
      qs: seq<Post>)
    ensures ClassifyAll(classify, history, ps + qs) ==
      ClassifyAll(classify, history, ps) + ClassifyAll(classify, history + Submitted(ps), qs)
  {
    forall i | 0 <= i < |ps + qs|
      ensures ClassifyAll(classify, history, ps + qs)[i] ==
        (ClassifyAll(classify, history, ps) + ClassifyAll(classify, history + Submitted(ps), qs))[i]
    {
      if i < |ps| {
        assert (ps + qs)[..i] == ps[..i];
      } else {
        assert history + Submitted((ps + qs)[..i]) == history + Submitted(ps) + Submitted(qs[..i - |ps|]);
      }
    }
  }

  /**
   * The heuristics never touch the duplicate window: two filters that differ only in their
   * heuristics agree on every post both let through, whatever either rejected before it.
   */
  lemma {:induction false} HeuristicsLeaveTheWindowAlone(s: Settings, other: HeuristicReject,
      history: seq<Submission>, posts: seq<Post>, i: nat)
    requires s.hasher.WellFormed() && i < |posts|
    requires s.reject(s.Marked(posts[i])).None? && other(s.Marked(posts[i])).None?
    ensures ClassifyAll(s.Classifier(), history, posts)[i] ==
      ClassifyAll(s.(reject := other).Classifier(), history, posts)[i]
  {
    assert s.Marked(posts[i]) == s.(reject := other).Marked(posts[i]);
  }

  /** Rejected as a duplicate of similarity one, of the earliest remembered entry with this signature. */
  ghost predicate CaughtAsRepeat(out: Post, window: seq<Seen>, sig: Signature) {
    && out.verdict == RejectedDuplicate
    && out.minhash == Some(sig)
    && exists first: nat :: IsEarliestWith(window, sig, first)
         && out.reason == Some(DuplicateOf(1.0, window[first].postId))
  }

  /**
   * A repeat of any earlier submission, even of one the heuristics rejected, is rejected as a
   * duplicate of similarity one while the window still spans both.
   */
  lemma {:induction false} RepeatOfRejectedPostIsCaught(s: Settings, history: seq<Submission>, i: nat, post: Post)
    requires s.hasher.WellFormed() && s.threshold <= 1.0
    requires i < |history|
    requires s.hasher.SignatureOf(post.text).Some?
    requires s.hasher.SignatureOf(history[i].text) == s.hasher.SignatureOf(post.text)
    requires |Entries(s.hasher, history)| - |Entries(s.hasher, history[..i])| <= s.capacity
    requires s.reject(s.Marked(post)).None?
    ensures CaughtAsRepeat(s.Classify(history, post), LastN(Entries(s.hasher, history), s.capacity),
      s.hasher.SignatureOf(post.text).value)
  {
    RepeatWithinCapacity(s.hasher, s.threshold, s.capacity, history, i, post.text);
  }
}
