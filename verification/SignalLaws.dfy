/** What the decayed signal means: a mean, in any order, that ageing alone does not move. */
module SignalLaws {
  import opened Wrappers
  import opened Transcendental
  import opened Timeline
  import opened Decay

  predicate Contributes(m: Math, p: Post, at: int, maxAge: Option<int>) {
    InWindow(at, maxAge, p.ts) && !Faulty(m, p.value) && Weighs(m, p.value)
  }

  lemma {:induction false} MassIsPositive(m: Math, w: real, rate: real, age: real)
    requires m.Lawful() && w > 0.0
    ensures Mass(m, w, rate, age) > 0.0
  {
    m.Positive(-Times(rate, age));
  }

  // ------------------------------------------------------------------------------ convexity

  ghost predicate StancesWithin(m: Math, posts: seq<Post>, at: int, maxAge: Option<int>, lo: real, hi: real) {
    forall i :: 0 <= i < |posts| && Contributes(m, posts[i], at, maxAge) ==> lo <= posts[i].value.stance <= hi
  }

  /** Every contributing stance is `s`. */
  ghost predicate Unanimous(m: Math, posts: seq<Post>, at: int, maxAge: Option<int>, s: real) {
    forall i :: 0 <= i < |posts| && Contributes(m, posts[i], at, maxAge) ==> posts[i].value.stance == s
  }

  /** How far the numerator exceeds `k` times the denominator. */
  function Excess(sums: Sums, k: real): real {
    sums.numerator - Times(k, sums.denominator)
  }

  lemma ExcessAdds(a: Sums, b: Sums, k: real)
    ensures Excess(a.Plus(b), k) == Excess(a, k) + Excess(b, k)
  {
  }

  lemma {:induction false} ShareExcess(m: Math, p: Post, at: int, rate: real, maxAge: Option<int>, k: real)
    requires m.Lawful()
    ensures var share := ShareOf(m, p, at, rate, maxAge);
      && share.denominator >= 0.0 && (share.denominator > 0.0 <==> share.count > 0)
      && (!Contributes(m, p, at, maxAge) ==> Excess(share, k) == 0.0)
      && (Contributes(m, p, at, maxAge) && p.value.stance < k ==> Excess(share, k) < 0.0)
      && (Contributes(m, p, at, maxAge) && p.value.stance > k ==> Excess(share, k) > 0.0)
      && (p.value.stance == k ==> Excess(share, k) == 0.0)
  {
    if Contributes(m, p, at, maxAge) {
      var mass := Mass(m, WeightOf(m, p.value).value, rate, AgeSeconds(at, p.ts));
      MassIsPositive(m, WeightOf(m, p.value).value, rate, AgeSeconds(at, p.ts));
      SignOfProduct(p.value.stance, k, mass);
    }
  }

  lemma SignOfProduct(x: real, y: real, k: real)
    requires k > 0.0
    ensures x < y ==> Times(x, k) < Times(y, k)
    ensures x > y ==> Times(x, k) > Times(y, k)
  {
  }

  lemma {:induction false} DenominatorCounts(m: Math, posts: seq<Post>, at: int, rate: real, maxAge: Option<int>)
    requires m.Lawful()
    ensures var sums := Collect(m, posts, at, rate, maxAge);
      sums.denominator >= 0.0 && (sums.denominator > 0.0 <==> sums.count > 0)
  {
    if posts != [] {
      DenominatorCounts(m, posts[..|posts| - 1], at, rate, maxAge);
      ShareExcess(m, posts[|posts| - 1], at, rate, maxAge, 0.0);
    }
  }

  lemma {:induction false} NotAbove(m: Math, posts: seq<Post>, at: int, rate: real, maxAge: Option<int>, lo: real,
      hi: real)
    requires m.Lawful() && StancesWithin(m, posts, at, maxAge, lo, hi)
    ensures Excess(Collect(m, posts, at, rate, maxAge), hi) <= 0.0
    ensures Excess(Collect(m, posts, at, rate, maxAge), hi) == 0.0 <==> Unanimous(m, posts, at, maxAge, hi)
  {
    if posts != [] {
      var front, last := posts[..|posts| - 1], posts[|posts| - 1];
      NotAbove(m, front, at, rate, maxAge, lo, hi);
      ShareExcess(m, last, at, rate, maxAge, hi);
      UnanimousSnoc(m, posts, at, maxAge, hi);
      ExcessAdds(Collect(m, front, at, rate, maxAge), ShareOf(m, last, at, rate, maxAge), hi);
    }
  }

  lemma {:induction false} NotBelow(m: Math, posts: seq<Post>, at: int, rate: real, maxAge: Option<int>, lo: real,
      hi: real)
    requires m.Lawful() && StancesWithin(m, posts, at, maxAge, lo, hi)
    ensures Excess(Collect(m, posts, at, rate, maxAge), lo) >= 0.0
    ensures Excess(Collect(m, posts, at, rate, maxAge), lo) == 0.0 <==> Unanimous(m, posts, at, maxAge, lo)
  {
    if posts != [] {
      var front, last := posts[..|posts| - 1], posts[|posts| - 1];
      NotBelow(m, front, at, rate, maxAge, lo, hi);
      ShareExcess(m, last, at, rate, maxAge, lo);
      UnanimousSnoc(m, posts, at, maxAge, lo);
      ExcessAdds(Collect(m, front, at, rate, maxAge), ShareOf(m, last, at, rate, maxAge), lo);
    }
  }

  lemma {:induction false} UnanimousSnoc(m: Math, posts: seq<Post>, at: int, maxAge: Option<int>, s: real)
    requires posts != []
    ensures Unanimous(m, posts, at, maxAge, s) <==>
      Unanimous(m, posts[..|posts| - 1], at, maxAge, s)
      && (Contributes(m, posts[|posts| - 1], at, maxAge) ==> posts[|posts| - 1].value.stance == s)
  {
    var front := posts[..|posts| - 1];
    var last := posts[|posts| - 1];
    if Unanimous(m, front, at, maxAge, s) && (Contributes(m, last, at, maxAge) ==> last.value.stance == s) {
      forall i | 0 <= i < |posts| && Contributes(m, posts[i], at, maxAge)
        ensures posts[i].value.stance == s
      {
        if i < |front| {
          assert front[i] == posts[i];
        }
      }
    }
    if Unanimous(m, posts, at, maxAge, s) {
      forall i | 0 <= i < |front| && Contributes(m, front[i], at, maxAge)
        ensures front[i].value.stance == s
      {
        assert front[i] == posts[i];
      }
    }
  }

  /** Between `lo` and `hi`, reaching either only when everyone is there. */
  predicate IsMean(s: real, lo: real, hi: real, allLo: bool, allHi: bool) {
    lo <= s <= hi && (s == lo <==> allLo) && (s == hi <==> allHi)
  }

  lemma {:induction false} MeanBetween(sums: Sums, lo: real, hi: real)
    requires sums.denominator > 0.0 && Excess(sums, lo) >= 0.0 && Excess(sums, hi) <= 0.0
    ensures IsMean(Ratio(sums.numerator, sums.denominator), lo, hi, Excess(sums, lo) == 0.0, Excess(sums, hi) == 0.0)
  {
    QuotientBetween(sums.numerator, sums.denominator, lo, hi);
  }

  lemma {:induction false} SumsAreAMean(m: Math, posts: seq<Post>, at: int, rate: real, maxAge: Option<int>,
      lo: real, hi: real, sums: Sums)
    requires m.Lawful() && StancesWithin(m, posts, at, maxAge, lo, hi)
    requires sums == Collect(m, posts, at, rate, maxAge) && sums.count > 0
    ensures sums.denominator > 0.0
    ensures IsMean(Ratio(sums.numerator, sums.denominator), lo, hi,
      Unanimous(m, posts, at, maxAge, lo), Unanimous(m, posts, at, maxAge, hi))
  {
    NotAbove(m, posts, at, rate, maxAge, lo, hi);
    NotBelow(m, posts, at, rate, maxAge, lo, hi);
    DenominatorCounts(m, posts, at, rate, maxAge);
    MeanBetween(sums, lo, hi);
  }

  lemma ReadingOfSums(m: Math, posts: seq<Post>, at: int, halfLife: real, maxAge: Option<int>) returns (sums: Sums)
    requires SignalAt(m, posts, at, halfLife, maxAge).Ok? && SignalAt(m, posts, at, halfLife, maxAge).value.Some?
    ensures DecayLambda(m, halfLife).Ok? && sums == Collect(m, posts, at, DecayLambda(m, halfLife).value, maxAge)
    ensures sums.count > 0
    ensures SignalAt(m, posts, at, halfLife, maxAge).value.value ==
      Reading(Ratio(sums.numerator, sums.denominator), sums.count, sums.denominator, halfLife)
  {
    sums := Collect(m, posts, at, DecayLambda(m, halfLife).value, maxAge);
  }

  /**
   * `S(t)` lies between the extreme contributing stances, reaches one only when everyone holds
   * it, and its weight is never zero: the clamp to `[-1, 1]` and the zero guard have nothing to do.
   */
  lemma {:induction false} SignalIsAMean(m: Math, posts: seq<Post>, at: int, halfLife: real, maxAge: Option<int>,
      lo: real, hi: real)
    requires m.Lawful() && StancesWithin(m, posts, at, maxAge, lo, hi)
    requires SignalAt(m, posts, at, halfLife, maxAge).Ok? && SignalAt(m, posts, at, halfLife, maxAge).value.Some?
    ensures var reading := SignalAt(m, posts, at, halfLife, maxAge).value.value;
      && reading.weightSum > 0.0 && reading.nPosts > 0
      && IsMean(reading.sT, lo, hi, Unanimous(m, posts, at, maxAge, lo), Unanimous(m, posts, at, maxAge, hi))
  {
    var sums := ReadingOfSums(m, posts, at, halfLife, maxAge);
    SumsAreAMean(m, posts, at, DecayLambda(m, halfLife).value, maxAge, lo, hi, sums);
  }

  // ----------------------------------------------------------------------------------- order

  lemma PlusSwaps(whole: Sums, front: Sums, rest: Sums, x: Sums, y: Sums)
    requires whole == front.Plus(y) && front == rest.Plus(x)
    ensures whole == rest.Plus(y).Plus(x)
  {
  }

  lemma {:induction false} PullOut(m: Math, posts: seq<Post>, at: int, rate: real, maxAge: Option<int>, i: nat)
    requires i < |posts|
    ensures Collect(m, posts, at, rate, maxAge)
      == Collect(m, posts[..i] + posts[i + 1..], at, rate, maxAge).Plus(ShareOf(m, posts[i], at, rate, maxAge))
  {
    var front, last := posts[..|posts| - 1], posts[|posts| - 1];
    assert posts == front + [last];
    if i == |front| {
      CollectAppend(m, front, last, at, rate, maxAge);
      assert posts[..i] + posts[i + 1..] == front;
    } else {
      PullOut(m, front, at, rate, maxAge, i);
      PullOutSnoc(m, posts, front, front[..i] + front[i + 1..], at, rate, maxAge, i);
    }
  }

  lemma {:induction false} PullOutSnoc(m: Math, posts: seq<Post>, front: seq<Post>, rest: seq<Post>, at: int,
      rate: real,
      maxAge: Option<int>, i: nat)
    requires i < |front| && |posts| == |front| + 1 && posts == front + [posts[|front|]] &&
      rest == front[..i] + front[i + 1..]
    requires Collect(m, front, at, rate, maxAge) ==
      Collect(m, rest, at, rate, maxAge).Plus(ShareOf(m, front[i], at, rate, maxAge))
    ensures Collect(m, posts, at, rate, maxAge)
      == Collect(m, posts[..i] + posts[i + 1..], at, rate, maxAge).Plus(ShareOf(m, posts[i], at, rate, maxAge))
  {
    var last := posts[|front|];
    assert posts[..i] + posts[i + 1..] == rest + [last];
    CollectAppend(m, front, last, at, rate, maxAge);
    CollectAppend(m, rest, last, at, rate, maxAge);
    PlusSwaps(Collect(m, posts, at, rate, maxAge), Collect(m, front, at, rate, maxAge),
      Collect(m, rest, at, rate, maxAge),
      ShareOf(m, posts[i], at, rate, maxAge), ShareOf(m, last, at, rate, maxAge));
  }

  lemma {:induction false} OrderDoesNotMatter(m: Math, posts: seq<Post>, others: seq<Post>, at: int, rate: real,
      maxAge: Option<int>)
    requires multiset(posts) == multiset(others)
    ensures Collect(m, posts, at, rate, maxAge) == Collect(m, others, at, rate, maxAge)
  {
    if posts == [] {
      assert |multiset(others)| == 0;
    } else {
      var front, last := posts[..|posts| - 1], posts[|posts| - 1];
      var i := Counterpart(posts, others);
      var rest := others[..i] + others[i + 1..];
      OrderDoesNotMatter(m, front, rest, at, rate, maxAge);
      PullOut(m, others, at, rate, maxAge, i);
    }
  }

  /** Posts may arrive in any order. */
  lemma {:induction false} SignalIgnoresOrder(m: Math, posts: seq<Post>, others: seq<Post>, at: int, halfLife: real,
      maxAge: Option<int>)
    requires multiset(posts) == multiset(others)
    ensures SignalAt(m, posts, at, halfLife, maxAge) == SignalAt(m, others, at, halfLife, maxAge)
  {
    if halfLife > 0.0 {
      OrderDoesNotMatter(m, posts, others, at, DecayLambda(m, halfLife).value, maxAge);
    }
  }

  // ---------------------------------------------------------------------------------- ageing

  function Scaled(sums: Sums, k: real): Sums {
    Sums(Times(sums.numerator, k), Times(sums.denominator, k), sums.count, sums.faulty)
  }

  lemma ScaledAdds(a: Sums, b: Sums, k: real)
    ensures Scaled(a.Plus(b), k) == Scaled(a, k).Plus(Scaled(b, k))
  {
    Distributes(k, a.numerator, b.numerator);
    Distributes(k, a.denominator, b.denominator);
  }

  ghost predicate SameWindow(posts: seq<Post>, at: int, later: int, maxAge: Option<int>) {
    forall i :: 0 <= i < |posts| ==> (InWindow(at, maxAge, posts[i].ts) <==> InWindow(later, maxAge, posts[i].ts))
  }

  lemma {:induction false} MassAges(m: Math, w: real, rate: real, ts: int, at: int, later: int)
    requires m.Lawful()
    ensures Mass(m, w, rate, AgeSeconds(later, ts))
      == Times(Mass(m, w, rate, AgeSeconds(at, ts)), m.Exp(-Times(rate, AgeSeconds(later, at))))
  {
    var x, d := AgeSeconds(at, ts), AgeSeconds(later, at);
    assert (later - ts) as real == (at - ts) as real + (later - at) as real;
    assert AgeSeconds(later, ts) == x + d;
    Distributes(rate, x, d);
    var y, z := -Times(rate, x), -Times(rate, d);
    assert -Times(rate, x + d) == y + z;
    m.Adds(y, z);
    Associates(w, m.Exp(y), m.Exp(z));
  }

  lemma Associates(x: real, y: real, z: real)
    ensures Times(x, y * z) == Times(Times(x, y), z)
  {
  }

  lemma {:induction false} SumsAge(m: Math, posts: seq<Post>, at: int, later: int, rate: real, maxAge: Option<int>)
    requires m.Lawful() && SameWindow(posts, at, later, maxAge)
    ensures Collect(m, posts, later, rate, maxAge)
      == Scaled(Collect(m, posts, at, rate, maxAge), m.Exp(-Times(rate, AgeSeconds(later, at))))
  {
    var k := m.Exp(-Times(rate, AgeSeconds(later, at)));
    if posts != [] {
      var front, p := posts[..|posts| - 1], posts[|posts| - 1];
      SumsAge(m, front, at, later, rate, maxAge);
      assert InWindow(at, maxAge, p.ts) <==> InWindow(later, maxAge, p.ts);
      ShareAges(m, p, at, later, rate, maxAge);
      var rest, share := Collect(m, front, at, rate, maxAge), ShareOf(m, p, at, rate, maxAge);
      ScaledAdds(rest, share, k);
    }
  }

  lemma {:induction false} ShareAges(m: Math, p: Post, at: int, later: int, rate: real, maxAge: Option<int>)
    requires m.Lawful() && (InWindow(at, maxAge, p.ts) <==> InWindow(later, maxAge, p.ts))
    ensures ShareOf(m, p, later, rate, maxAge)
      == Scaled(ShareOf(m, p, at, rate, maxAge), m.Exp(-Times(rate, AgeSeconds(later, at))))
  {
    var k := m.Exp(-Times(rate, AgeSeconds(later, at)));
    assert Times(0.0, k) == 0.0;
    if Contributes(m, p, at, maxAge) {
      var w := WeightOf(m, p.value).value;
      MassAges(m, w, rate, p.ts, at, later);
      var mass := Mass(m, w, rate, AgeSeconds(at, p.ts));
      assert Times(p.value.stance, mass * k) == Times(Times(p.value.stance, mass), k);
    }
  }

  /** The same outcome, value and count, and `k` times the weight. */
  predicate Faded(now: Result<Option<Reading>, string>, next: Result<Option<Reading>, string>, k: real) {
    && now.Ok? == next.Ok?
    && (now.Ok? ==> now.value.Some? == next.value.Some?)
    && (now.Ok? && now.value.Some? ==>
          && next.value.value.sT == now.value.value.sT
          && next.value.value.nPosts == now.value.value.nPosts
          && next.value.value.weightSum == Times(now.value.value.weightSum, k))
  }

  /**
   * Time alone is not news: while the same posts are in the window and the half-life holds, the
   * signal stays put and only its weight decays, by exactly `exp(-rate * elapsed)`.
   */
  lemma {:induction false} AgeingKeepsTheSignal(m: Math, posts: seq<Post>, at: int, later: int, halfLife: real,
      maxAge: Option<int>)
    requires m.Lawful() && SameWindow(posts, at, later, maxAge) && halfLife > 0.0
    ensures Faded(SignalAt(m, posts, at, halfLife, maxAge), SignalAt(m, posts, later, halfLife, maxAge),
      m.Exp(-Times(m.Ln(2.0) / halfLife, AgeSeconds(later, at))))
  {
    AgesBy(m, posts, at, later, halfLife, maxAge, m.Ln(2.0) / halfLife,
      m.Exp(-Times(m.Ln(2.0) / halfLife, AgeSeconds(later, at))));
  }

  lemma {:induction false} AgesBy(m: Math, posts: seq<Post>, at: int, later: int, halfLife: real, maxAge: Option<int>,
      rate: real, k: real)
    requires m.Lawful() && SameWindow(posts, at, later, maxAge)
    requires DecayLambda(m, halfLife) == Ok(rate) && k == m.Exp(-Times(rate, AgeSeconds(later, at)))
    ensures Faded(SignalAt(m, posts, at, halfLife, maxAge), SignalAt(m, posts, later, halfLife, maxAge), k)
  {
    SumsAge(m, posts, at, later, rate, maxAge);
    m.Positive(-Times(rate, AgeSeconds(later, at)));
    ReadingScales(Collect(m, posts, at, rate, maxAge), Collect(m, posts, later, rate, maxAge), k, halfLife);
  }

  lemma ReadingScales(sums: Sums, scaled: Sums, k: real, halfLife: real)
    requires k > 0.0 && scaled == Scaled(sums, k)
    ensures Faded(ReadingOf(sums, halfLife), ReadingOf(scaled, halfLife), k)
  {
    RatioScales(sums.numerator, sums.denominator, k);
  }

  lemma RatioScales(x: real, y: real, k: real)
    requires k > 0.0
    ensures Ratio(Times(x, k), Times(y, k)) == Ratio(x, y)
  {
    if y > 0.0 {
      CommonFactor(k, x, y);
    } else if y < 0.0 {
      CommonFactor(k, -x, -y);
      assert Times(y, k) == -(k * -y) && Times(x, k) == -(k * -x);
      assert k * -y > 0.0;
      NegatedRatio(k * -x, k * -y);
      NegatedRatio(-x, -y);
    }
  }

  lemma NegatedRatio(x: real, y: real)
    requires y > 0.0
    ensures Ratio(-x, -y) == Ratio(x, y)
  {
    var q := x / y;
    assert q * y == x;
    assert q * -y == -x;
  }

  /** One half-life on, half the weight is left. */
  lemma {:induction false} HalfLifeHalves(m: Math, halfLife: real)
    requires m.Lawful() && halfLife > 0.0
    ensures m.Exp(-Times(m.Ln(2.0) / halfLife, halfLife)) == 0.5
  {
    assert Times(m.Ln(2.0) / halfLife, halfLife) == m.Ln(2.0);
    m.Negates(m.Ln(2.0));
    m.Restores(2.0);
  }
}
