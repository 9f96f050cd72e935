/** What a post weighs and how it ages, spelled out in followers, engagements and microseconds. */
module ReachAndAge {
  import opened Wrappers
  import opened Transcendental
  import opened Lmsr
  import opened Timeline
  import opened Decay

  // ---------------------------------------------------------------------------------- weight

  lemma UndoTimes(x: real, y: real, w: real)
    requires y > 0.0 && w == Times(x, y)
    ensures w / y == x
  {
    var q := w / y;
    assert (q - x) * y == 0.0;
  }

  lemma WeightOfReach(m: Math, followers: nat, engagements: nat, x: real, y: real)
    requires x == m.Ln(1.0 + followers as real) && y == 1.0 + engagements as real
    ensures PostWeight(m, followers, engagements).Ok? && PostWeight(m, followers, engagements).value == Times(x, y)
  {
  }

  /** The log of the audience, once for the post and once per engagement. */
  lemma {:induction false} WeightIsLogAudience(m: Math, followers: nat, engagements: nat)
    requires m.Lawful()
    ensures PostWeight(m, followers, engagements).Ok?
    ensures m.Exp(PostWeight(m, followers, engagements).value / (1.0 + engagements as real)) == 1.0 + followers as real
  {
    WeightOfReach(m, followers, engagements, m.Ln(1.0 + followers as real), 1.0 + engagements as real);
    m.Restores(1.0 + followers as real);
    UndoTimes(m.Ln(1.0 + followers as real), 1.0 + engagements as real,
      PostWeight(m, followers, engagements).value);
  }

  /** Every engagement counts as much as the post itself. */
  lemma {:induction false} EngagementsMultiply(m: Math, followers: nat, engagements: nat)
    ensures PostWeight(m, followers, engagements).Ok? && PostWeight(m, followers, 0).Ok?
    ensures PostWeight(m, followers, engagements).value ==
      (1.0 + engagements as real) * PostWeight(m, followers, 0).value
  {
  }

  /** More followers weigh strictly more; so do more engagements, if anyone follows. */
  lemma {:induction false} WeightIncreases(m: Math, followers: nat, more: nat, engagements: nat, later: nat)
    requires m.Lawful() && followers <= more && engagements <= later
    ensures var w, v := PostWeight(m, followers, engagements), PostWeight(m, more, later);
      && w.Ok? && v.Ok? && w.value <= v.value
      && (w.value < v.value <==> followers < more || (followers > 0 && engagements < later))
  {
    var x, y := m.Ln(1.0 + followers as real), m.Ln(1.0 + more as real);
    m.AtZero();
    m.LnCompares(1.0, 1.0 + followers as real);
    m.LnCompares(1.0 + followers as real, 1.0 + more as real);
    ProductsIncrease(x, y, 1.0 + engagements as real, 1.0 + later as real);
  }

  lemma ProductsIncrease(x: real, y: real, a: real, b: real)
    requires 0.0 <= x <= y && 0.0 < a <= b
    ensures x * a <= y * b
    ensures x * a < y * b <==> x < y || (x > 0.0 && a < b)
  {
    MulMonotone(x, y, a);
    MulMonotone(a, b, y);
  }

  /** Negative counts are refused. */
  lemma {:induction false} WeightNeedsCounts(m: Math, followers: int, engagements: int)
    ensures PostWeight(m, followers, engagements).Ok? <==> followers >= 0 && engagements >= 0
  {
  }

  // -------------------------------------------------------------------------------- windows

  lemma ShareCounts(m: Math, p: Post, at: int, rate: real, maxAge: Option<int>)
    requires Weighs(m, p.value) && -1.0 <= p.value.stance <= 1.0
    ensures !ShareOf(m, p, at, rate, maxAge).faulty
    ensures ShareOf(m, p, at, rate, maxAge).count ==
      if 0 <= at - p.ts && (maxAge.Some? ==> at - p.ts <= maxAge.value) then 1 else 0
  {
  }

  lemma ReadingCounts(sums: Sums, halfLife: real)
    requires !sums.faulty
    ensures ReadingOf(sums, halfLife).Ok? && (ReadingOf(sums, halfLife).value.Some? <==> sums.count > 0)
  {
  }

  lemma SignalAtRate(m: Math, posts: seq<Post>, at: int, halfLife: real, maxAge: Option<int>) returns (rate: real)
    requires halfLife > 0.0
    ensures SignalAt(m, posts, at, halfLife, maxAge) == ReadingOf(Collect(m, posts, at, rate, maxAge), halfLife)
  {
    rate := DecayLambda(m, halfLife).value;
  }

  /** A post counts from its own timestamp on, and through `maxAge` microseconds. */
  lemma {:induction false} CountsExactlyWhileFresh(m: Math, p: Post, at: int, halfLife: real, maxAge: Option<int>)
    requires halfLife > 0.0 && Weighs(m, p.value) && -1.0 <= p.value.stance <= 1.0
    ensures SignalAt(m, [p], at, halfLife, maxAge).Ok?
    ensures SignalAt(m, [p], at, halfLife, maxAge).value.Some? <==>
      0 <= at - p.ts && (maxAge.Some? ==> at - p.ts <= maxAge.value)
  {
    var rate := SignalAtRate(m, [p], at, halfLife, maxAge);
    SumsOfOne(m, p, at, rate, maxAge);
    ShareCounts(m, p, at, rate, maxAge);
    ReadingCounts(Collect(m, [p], at, rate, maxAge), halfLife);
  }

  lemma SumsOfOne(m: Math, p: Post, at: int, rate: real, maxAge: Option<int>)
    ensures Collect(m, [p], at, rate, maxAge) == ShareOf(m, p, at, rate, maxAge)
  {
    assert [] + [p] == [p];
    CollectAppend(m, [], p, at, rate, maxAge);
    PlusNothing(ShareOf(m, p, at, rate, maxAge));
  }

  // --------------------------------------------------------------------------------- two posts

  /** A scored post of some reach, in the window. */
  predicate Speaks(p: Post, at: int, maxAge: Option<int>) {
    && p.value.weightOverride.None? && p.value.followers > 0 && p.value.engagements >= 0
    && -1.0 <= p.value.stance <= 1.0
    && p.ts <= at && (maxAge.Some? ==> at - p.ts <= maxAge.value)
  }

  /** The log of its audience, once and once per engagement. */
  function Audience(m: Math, p: Post): real {
    Times(m.Ln(1.0 + p.value.followers as real), 1.0 + p.value.engagements as real)
  }

  /** What an age leaves: seconds are microseconds over a million, and a half-life leaves a half. */
  function Fade(m: Math, halfLife: real, age: int): real
    requires halfLife > 0.0
  {
    m.Exp(-Times(m.Ln(2.0) / halfLife, age as real / 1000000.0))
  }

  /** Its weight at the evaluation. */
  function Pull(m: Math, p: Post, at: int, halfLife: real): real
    requires halfLife > 0.0
  {
    Times(Audience(m, p), Fade(m, halfLife, at - p.ts))
  }

  lemma {:induction false} AudienceIsWeight(m: Math, p: Post, at: int, maxAge: Option<int>)
    requires m.Lawful() && Speaks(p, at, maxAge)
    ensures WeightOf(m, p.value).Ok? && WeightOf(m, p.value).value == Audience(m, p) > 0.0
  {
    WeightIsReach(m, p.value.followers, p.value.engagements);
    WeightOfReach(m, p.value.followers, p.value.engagements, m.Ln(1.0 + p.value.followers as real),
      1.0 + p.value.engagements as real);
  }

  lemma ShareOfWeight(m: Math, p: Post, at: int, rate: real, maxAge: Option<int>, w: real)
    requires Speaks(p, at, maxAge) && WeightOf(m, p.value).Ok? && WeightOf(m, p.value).value == w > 0.0
    ensures var mass := Times(w, m.Exp(-Times(rate, AgeSeconds(at, p.ts))));
      ShareOf(m, p, at, rate, maxAge) == Sums(Times(p.value.stance, mass), mass, 1, false)
  {
  }

  lemma {:induction false} ShareIsPull(m: Math, p: Post, at: int, halfLife: real, maxAge: Option<int>)
    requires m.Lawful() && halfLife > 0.0 && Speaks(p, at, maxAge)
    ensures Pull(m, p, at, halfLife) > 0.0
    ensures ShareOf(m, p, at, m.Ln(2.0) / halfLife, maxAge) ==
      Sums(Times(p.value.stance, Pull(m, p, at, halfLife)), Pull(m, p, at, halfLife), 1, false)
  {
    AudienceIsWeight(m, p, at, maxAge);
    m.Positive(-Times(m.Ln(2.0) / halfLife, (at - p.ts) as real / 1000000.0));
    SameSign(Audience(m, p), Fade(m, halfLife, at - p.ts));
    ShareOfWeight(m, p, at, m.Ln(2.0) / halfLife, maxAge, Audience(m, p));
  }

  lemma SumsOfTwo(m: Math, p: Post, q: Post, at: int, rate: real, maxAge: Option<int>)
    ensures Collect(m, [p] + [q], at, rate, maxAge) ==
      ShareOf(m, p, at, rate, maxAge).Plus(ShareOf(m, q, at, rate, maxAge))
  {
    SumsOfOne(m, p, at, rate, maxAge);
    CollectAppend(m, [p], q, at, rate, maxAge);
  }

  lemma RatioIs(x: real, y: real, r: real)
    requires y > 0.0 && r == Ratio(x, y)
    ensures Times(r, y) == x
  {
  }

  /** Two posts: their stances averaged by reach and age, with nothing left unsaid. */
  lemma {:induction false} TwoPostsAverage(m: Math, p: Post, q: Post, at: int, halfLife: real, maxAge: Option<int>)
    requires m.Lawful() && halfLife > 0.0 && Speaks(p, at, maxAge) && Speaks(q, at, maxAge)
    ensures var r, u, v := SignalAt(m, [p] + [q], at, halfLife, maxAge), Pull(m, p, at, halfLife),
        Pull(m, q, at, halfLife);
      && r.Ok? && r.value.Some? && r.value.value.nPosts == 2 && r.value.value.halfLife == halfLife
      && u > 0.0 && v > 0.0 && r.value.value.weightSum == u + v
      && Times(r.value.value.sT, u + v) == Times(p.value.stance, u) + Times(q.value.stance, v)
  {
    var rate, u, v := m.Ln(2.0) / halfLife, Pull(m, p, at, halfLife), Pull(m, q, at, halfLife);
    ShareIsPull(m, p, at, halfLife, maxAge);
    ShareIsPull(m, q, at, halfLife, maxAge);
    SumsOfTwo(m, p, q, at, rate, maxAge);
    var x := Times(p.value.stance, u) + Times(q.value.stance, v);
    assert Collect(m, [p] + [q], at, rate, maxAge) == Sums(x, u + v, 2, false);
    RatioIs(x, u + v, Ratio(x, u + v));
  }

  // ------------------------------------------------------------------------ any number of posts

  function TotalPull(m: Math, posts: seq<Post>, at: int, halfLife: real): real
    requires halfLife > 0.0
  {
    if posts == [] then 0.0
    else
      var n := |posts| - 1;
      TotalPull(m, posts[..n], at, halfLife) + Pull(m, posts[n], at, halfLife)
  }

  /** The stances, each times its pull. */
  function Leaning(m: Math, posts: seq<Post>, at: int, halfLife: real): real
    requires halfLife > 0.0
  {
    if posts == [] then 0.0
    else
      var n := |posts| - 1;
      Leaning(m, posts[..n], at, halfLife) + Times(posts[n].value.stance, Pull(m, posts[n], at, halfLife))
  }

  lemma {:induction false} SumsArePulls(m: Math, posts: seq<Post>, at: int, halfLife: real, maxAge: Option<int>)
    requires m.Lawful() && halfLife > 0.0 && forall i :: 0 <= i < |posts| ==> Speaks(posts[i], at, maxAge)
    ensures Collect(m, posts, at, m.Ln(2.0) / halfLife, maxAge) ==
      Sums(Leaning(m, posts, at, halfLife), TotalPull(m, posts, at, halfLife), |posts|, false)
    ensures TotalPull(m, posts, at, halfLife) >= 0.0 && (posts != [] ==> TotalPull(m, posts, at, halfLife) > 0.0)
  {
    if posts != [] {
      var n := |posts| - 1;
      SumsArePulls(m, posts[..n], at, halfLife, maxAge);
      ShareIsPull(m, posts[n], at, halfLife, maxAge);
      CollectAppend(m, posts[..n], posts[n], at, m.Ln(2.0) / halfLife, maxAge);
      assert posts == posts[..n] + [posts[n]];
    }
  }

  /** The signal of any posts is the mean of their stances by pull, and the weight is all they pull. */
  lemma {:induction false} EveryPostPulls(m: Math, posts: seq<Post>, at: int, halfLife: real, maxAge: Option<int>)
    requires m.Lawful() && halfLife > 0.0 && posts != []
    requires forall i :: 0 <= i < |posts| ==> Speaks(posts[i], at, maxAge)
    ensures var r := SignalAt(m, posts, at, halfLife, maxAge);
      && r.Ok? && r.value.Some? && r.value.value.nPosts == |posts| && r.value.value.halfLife == halfLife
      && r.value.value.weightSum == TotalPull(m, posts, at, halfLife) > 0.0
      && Times(r.value.value.sT, r.value.value.weightSum) == Leaning(m, posts, at, halfLife)
  {
    SumsArePulls(m, posts, at, halfLife, maxAge);
    var x, y := Leaning(m, posts, at, halfLife), TotalPull(m, posts, at, halfLife);
    RatioIs(x, y, Ratio(x, y));
  }

  lemma DropFactor(s: real, t: real, u: real, v: real, k: real, r: real)
    requires u > 0.0 && v > 0.0 && k > 0.0
    requires Times(r, Times(u, k) + Times(v, k)) == Times(s, Times(u, k)) + Times(t, Times(v, k))
    ensures Times(r, u + v) == Times(s, u) + Times(t, v)
  {
    var gap := r * (u + v) - (s * u + t * v);
    assert gap * k == r * (u * k + v * k) - (s * (u * k) + t * (v * k));
  }

  lemma DivideOut(r: real, x: real, y: real)
    requires y > 0.0 && Times(r, y) == x
    ensures r == x / y
  {
  }

  /** Posts of one instant are averaged by reach alone. */
  lemma {:induction false} SameInstantAveragesByReach(m: Math, p: Post, q: Post, at: int, halfLife: real,
      maxAge: Option<int>)
    requires m.Lawful() && halfLife > 0.0 && Speaks(p, at, maxAge) && Speaks(q, at, maxAge) && p.ts == q.ts
    ensures var r, u, v := SignalAt(m, [p] + [q], at, halfLife, maxAge), Audience(m, p), Audience(m, q);
      && r.Ok? && r.value.Some? && u > 0.0 && v > 0.0
      && r.value.value.sT == (Times(p.value.stance, u) + Times(q.value.stance, v)) / (u + v)
  {
    var u, v, k := Audience(m, p), Audience(m, q), Fade(m, halfLife, at - p.ts);
    TwoPostsAverage(m, p, q, at, halfLife, maxAge);
    AudienceIsWeight(m, p, at, maxAge);
    AudienceIsWeight(m, q, at, maxAge);
    m.Positive(-Times(m.Ln(2.0) / halfLife, (at - p.ts) as real / 1000000.0));
    var sT := SignalAt(m, [p] + [q], at, halfLife, maxAge).value.value.sT;
    DropFactor(p.value.stance, q.value.stance, u, v, k, sT);
    DivideOut(sT, Times(p.value.stance, u) + Times(q.value.stance, v), u + v);
  }

  lemma OneMoreLife(l: real, halfLife: real, x: real)
    requires halfLife > 0.0
    ensures -Times(l / halfLife, x + halfLife) == -Times(l / halfLife, x) + -l
  {
    var rate := l / halfLife;
    assert rate * halfLife == l;
    assert rate * (x + halfLife) == rate * x + rate * halfLife;
  }

  /** An age greater by one half-life, in microseconds, leaves half as much. */
  lemma {:induction false} HalfLifeHalvesTheFade(m: Math, halfLife: real, age: int, later: int)
    requires m.Lawful() && halfLife > 0.0 && (later - age) as real == 1000000.0 * halfLife
    ensures Fade(m, halfLife, later) == 0.5 * Fade(m, halfLife, age)
  {
    var l, x := m.Ln(2.0), age as real / 1000000.0;
    assert later as real == age as real + 1000000.0 * halfLife;
    assert later as real / 1000000.0 == x + halfLife;
    OneMoreLife(l, halfLife, x);
    m.Adds(-Times(l / halfLife, x), -l);
    m.Negates(l);
    m.Restores(2.0);
  }

  /** A post alone, one half-life on: the same stance at half the weight. */
  lemma {:induction false} HalfLifeHalvesTheWeight(m: Math, p: Post, at: int, later: int, halfLife: real)
    requires m.Lawful() && halfLife > 0.0 && Speaks(p, at, None)
    requires (later - at) as real == 1000000.0 * halfLife
    ensures var now, next := SignalAt(m, [p], at, halfLife, None), SignalAt(m, [p], later, halfLife, None);
      && now.Ok? && now.value.Some? && next.Ok? && next.value.Some?
      && next.value.value.weightSum == 0.5 * now.value.value.weightSum
  {
    var rate := m.Ln(2.0) / halfLife;
    SumsOfOne(m, p, at, rate, None);
    SumsOfOne(m, p, later, rate, None);
    ShareIsPull(m, p, at, halfLife, None);
    ShareIsPull(m, p, later, halfLife, None);
    HalfLifeHalvesTheFade(m, halfLife, at - p.ts, later - p.ts);
    HalfTimes(Audience(m, p), Fade(m, halfLife, at - p.ts), Fade(m, halfLife, later - p.ts));
  }

  lemma HalfTimes(w: real, k: real, j: real)
    requires j == 0.5 * k
    ensures Times(w, j) == 0.5 * Times(w, k)
  {
  }
}
