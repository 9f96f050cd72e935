/** The stance-weighted, time-decayed signal, and the adaptive half-life that drives it. */
module Decay {
  import opened Wrappers
  import opened Transcendental
  import opened Lmsr
  import opened Timeline

  // Timestamps are whole microseconds.
  const HOUR: int := 3600000000

  datatype Contribution = Contribution(stance: real, followers: int, engagements: int, weightOverride: Option<real>)

  type Post = Timed<Contribution>

  datatype Reading = Reading(sT: real, nPosts: nat, weightSum: real, halfLife: real)

  function DecayLambda(m: Math, halfLife: real): Result<real, string> {
    if halfLife <= 0.0 then Err("half_life_seconds must be positive") else Ok(m.Ln(2.0) / halfLife)
  }

  function PostWeight(m: Math, followers: int, engagements: int): Result<real, string> {
    if followers < 0 then Err("followers must be non-negative")
    else if engagements < 0 then Err("engagements must be non-negative")
    else Ok(m.Ln(1.0 + followers as real) * (1.0 + engagements as real))
  }

  function WeightOf(m: Math, c: Contribution): Result<real, string> {
    if c.weightOverride.Some? then Ok(c.weightOverride.value) else PostWeight(m, c.followers, c.engagements)
  }

  /** A post with no followers weighs nothing, whatever its engagement; any other weighs something. */
  lemma {:induction false} WeightIsReach(m: Math, followers: nat, engagements: nat)
    requires m.Lawful()
    ensures PostWeight(m, followers, engagements).Ok?
    ensures PostWeight(m, followers, engagements).value >= 0.0
    ensures PostWeight(m, followers, engagements).value > 0.0 <==> followers > 0
  {
    m.AtZero();
    m.LnCompares(1.0, 1.0 + followers as real);
    MulMonotone(0.0, m.Ln(1.0 + followers as real), 1.0 + engagements as real);
  }

  // --------------------------------------------------------------------- the naive sums

  function AgeSeconds(at: int, ts: int): real {
    (at - ts) as real / 1000000.0
  }

  predicate InWindow(at: int, maxAge: Option<int>, ts: int) {
    ts <= at && (maxAge.Some? ==> at - maxAge.value <= ts)
  }

  /** The post makes the evaluation raise; one of no weight is never asked for its stance. */
  predicate Faulty(m: Math, c: Contribution) {
    var w := WeightOf(m, c);
    w.Err? || (w.value > 0.0 && !(-1.0 <= c.stance <= 1.0))
  }

  predicate Weighs(m: Math, c: Contribution) {
    WeightOf(m, c).Ok? && WeightOf(m, c).value > 0.0
  }

  /** `w * exp(-rate * age)` */
  function Mass(m: Math, w: real, rate: real, age: real): real {
    Times(w, m.Exp(-Times(rate, age)))
  }

  datatype Sums = Sums(numerator: real, denominator: real, count: nat, faulty: bool)
  {
    function Plus(other: Sums): Sums {
      Sums(numerator + other.numerator, denominator + other.denominator, count + other.count, faulty || other.faulty)
    }
  }

  const NOTHING := Sums(0.0, 0.0, 0, false)

  /** One post's share of the defining sums. */
  function ShareOf(m: Math, p: Post, at: int, rate: real, maxAge: Option<int>): Sums {
    if !InWindow(at, maxAge, p.ts) then NOTHING
    else if Faulty(m, p.value) then NOTHING.(faulty := true)
    else if !Weighs(m, p.value) then NOTHING
    else
      var mass := Mass(m, WeightOf(m, p.value).value, rate, AgeSeconds(at, p.ts));
      Sums(Times(p.value.stance, mass), mass, 1, false)
  }

  /** The sums of the definition, over the whole corpus in any order. */
  function Collect(m: Math, posts: seq<Post>, at: int, rate: real, maxAge: Option<int>): Sums {
    if posts == [] then NOTHING
    else Collect(m, posts[..|posts| - 1], at, rate, maxAge).Plus(ShareOf(m, posts[|posts| - 1], at, rate, maxAge))
  }

  lemma CollectAppend(m: Math, posts: seq<Post>, p: Post, at: int, rate: real, maxAge: Option<int>)
    ensures Collect(m, posts + [p], at, rate, maxAge)
      == Collect(m, posts, at, rate, maxAge).Plus(ShareOf(m, p, at, rate, maxAge))
  {
    assert (posts + [p])[..|posts|] == posts;
  }

  lemma PlusNothing(a: Sums)
    ensures NOTHING.Plus(a) == a && a.Plus(NOTHING) == a
  {
  }

  lemma PlusAssociates(a: Sums, b: Sums, c: Sums)
    ensures a.Plus(b).Plus(c) == a.Plus(b.Plus(c))
  {
  }

  function Ratio(x: real, y: real): real {
    if y == 0.0 then 0.0 else x / y
  }

  /** `S(t)` as defined: no logarithms, no peak, no clamp. */
  function ReadingOf(sums: Sums, halfLife: real): Result<Option<Reading>, string> {
    if sums.faulty then Err("a contribution is out of range")
    else if sums.count == 0 then Ok(None)
    else Ok(Some(Reading(Ratio(sums.numerator, sums.denominator), sums.count, sums.denominator, halfLife)))
  }

  function SignalAt(m: Math, posts: seq<Post>, at: int, halfLife: real,
      maxAge: Option<int>): Result<Option<Reading>, string>
  {
    var rate := DecayLambda(m, halfLife);
    if rate.Err? then Err(rate.error)
    else
      ReadingOf(Collect(m, posts, at, rate.value, maxAge), halfLife)
  }

  // ------------------------------------------------------------------ the code's evaluation

  /** `ln(w) - rate * age` */
  function LogTerm(m: Math, w: real, rate: real, age: real): real {
    m.Ln(w) - Times(rate, age)
  }

  lemma {:induction false} ExpOfLogTerm(m: Math, w: real, rate: real, age: real)
    requires m.Lawful() && w > 0.0
    ensures m.Exp(LogTerm(m, w, rate, age)) == Mass(m, w, rate, age) > 0.0
  {
    var x := -Times(rate, age);
    m.Adds(m.Ln(w), x);
    m.Restores(w);
    m.Positive(m.Ln(w) + x);
  }

  /** `sum s_i * exp(l_i - shift)` */
  function StanceSum(m: Math, stances: seq<real>, logs: seq<real>, shift: real): real
    requires |stances| == |logs|
  {
    if logs == [] then 0.0
    else
      var n := |logs| - 1;
      StanceSum(m, stances[..n], logs[..n], shift) + Times(stances[n], m.Exp(logs[n] - shift))
  }

  lemma {:induction false} StanceSumFactors(m: Math, stances: seq<real>, logs: seq<real>, c: real)
    requires m.Lawful() && |stances| == |logs|
    ensures StanceSum(m, stances, logs, 0.0) == m.Exp(c) * StanceSum(m, stances, logs, c)
  {
    if logs != [] {
      var n := |logs| - 1;
      StanceSumFactors(m, stances[..n], logs[..n], c);
      m.Adds(c, logs[n] - c);
      assert c + (logs[n] - c) == logs[n] - 0.0;
      FactorTerm(m.Exp(c), m.Exp(logs[n] - c), stances[n], m.Exp(logs[n] - 0.0),
        StanceSum(m, stances[..n], logs[..n], c));
    }
  }

  lemma FactorTerm(c: real, e: real, s: real, ce: real, rest: real)
    requires ce == c * e
    ensures c * rest + Times(s, ce) == c * (rest + Times(s, e))
  {
    assert s * (c * e) == c * (s * e);
  }

  /** A weighted mean lies where the values do. */
  lemma {:induction false} StanceSumBetween(m: Math, stances: seq<real>, logs: seq<real>, shift: real, lo: real,
      hi: real)
    requires m.Lawful() && |stances| == |logs|
    requires forall i :: 0 <= i < |stances| ==> lo <= stances[i] <= hi
    ensures lo * SumExp(m, logs, shift) <= StanceSum(m, stances, logs, shift) <= hi * SumExp(m, logs, shift)
  {
    if logs != [] {
      var n := |logs| - 1;
      StanceSumBetween(m, stances[..n], logs[..n], shift, lo, hi);
      var e := m.Exp(logs[n] - shift);
      m.Positive(logs[n] - shift);
      MulMonotone(lo, stances[n], e);
      MulMonotone(stances[n], hi, e);
      Distributes(lo, SumExp(m, logs[..n], shift), e);
      Distributes(hi, SumExp(m, logs[..n], shift), e);
    }
  }

  lemma Distributes(k: real, x: real, y: real)
    ensures k * (x + y) == k * x + k * y
  {
  }

  lemma CollectSnoc(m: Math, posts: seq<Post>, at: int, rate: real, maxAge: Option<int>, i: nat)
    requires i < |posts|
    ensures Collect(m, posts[..i + 1], at, rate, maxAge)
      == Collect(m, posts[..i], at, rate, maxAge).Plus(ShareOf(m, posts[i], at, rate, maxAge))
  {
    assert posts[..i + 1][..i] == posts[..i];
  }

  lemma StanceSumSnoc(m: Math, stances: seq<real>, logs: seq<real>, s: real, l: real)
    requires |stances| == |logs|
    ensures StanceSum(m, stances + [s], logs + [l], 0.0) == StanceSum(m, stances, logs, 0.0) + Times(s, m.Exp(l))
    ensures SumExp(m, logs + [l], 0.0) == SumExp(m, logs, 0.0) + m.Exp(l)
  {
    assert (stances + [s])[..|logs|] == stances && (logs + [l])[..|logs|] == logs;
    assert l - 0.0 == l;
  }

  /** What the two parallel lists stand for. */
  ghost predicate Stands(m: Math, stances: seq<real>, logs: seq<real>, sums: Sums) {
    && |stances| == |logs| == sums.count
    && !sums.faulty
    && SumExp(m, logs, 0.0) == sums.denominator
    && StanceSum(m, stances, logs, 0.0) == sums.numerator
    && forall i :: 0 <= i < |stances| ==> -1.0 <= stances[i] <= 1.0
  }

  method LogTerms(m: Math, posts: seq<Post>, at: int, rate: real, maxAge: Option<int>)
    returns (r: Result<(seq<real>, seq<real>), string>)
    requires m.Lawful()
    ensures r.Err? <==> Collect(m, posts, at, rate, maxAge).faulty
    ensures r.Ok? ==> Stands(m, r.value.0, r.value.1, Collect(m, posts, at, rate, maxAge))
  {
    var stances: seq<real>, logs: seq<real> := [], [];
    for i := 0 to |posts|
      invariant Stands(m, stances, logs, Collect(m, posts[..i], at, rate, maxAge))
    {
      CollectSnoc(m, posts, at, rate, maxAge, i);
      var step := TermOf(m, posts[i], at, rate, maxAge);
      if step.Err? {
        FaultsStay(m, posts, at, rate, maxAge, i + 1);
        return Err(step.error);
      }
      if step.value.Some? {
        var (s, l) := step.value.value;
        StanceSumSnoc(m, stances, logs, s, l);
        stances := stances + [s];
        logs := logs + [l];
      }
    }
    assert posts[..|posts|] == posts;
    r := Ok((stances, logs));
  }

  /** One pass of the gathering loop: raise, skip, or a stance and its log term. */
  method TermOf(m: Math, p: Post, at: int, rate: real, maxAge: Option<int>)
    returns (r: Result<Option<(real, real)>, string>)
    requires m.Lawful()
    ensures r.Err? <==> ShareOf(m, p, at, rate, maxAge).faulty
    ensures r.Ok? && r.value.None? ==> ShareOf(m, p, at, rate, maxAge) == NOTHING
    ensures r.Ok? && r.value.Some? ==>
      var (s, l) := r.value.value;
      -1.0 <= s <= 1.0 && ShareOf(m, p, at, rate, maxAge) == Sums(Times(s, m.Exp(l)), m.Exp(l), 1, false)
  {
    if p.ts > at {
      return Ok(None);
    }
    if maxAge.Some? && p.ts < at - maxAge.value {
      return Ok(None);
    }
    var weight := WeightOf(m, p.value);
    if weight.Err? {
      return Err(weight.error);
    }
    if weight.value <= 0.0 {
      return Ok(None);
    }
    if !(-1.0 <= p.value.stance <= 1.0) {
      return Err("stance outside [-1, 1]");
    }
    ExpOfLogTerm(m, weight.value, rate, AgeSeconds(at, p.ts));
    r := Ok(Some((p.value.stance, m.Ln(weight.value) - rate * AgeSeconds(at, p.ts))));
  }

  lemma {:induction false} FaultsStay(m: Math, posts: seq<Post>, at: int, rate: real, maxAge: Option<int>, n: nat)
    requires n <= |posts| && Collect(m, posts[..n], at, rate, maxAge).faulty
    ensures Collect(m, posts, at, rate, maxAge).faulty
  {
    if n < |posts| {
      FaultsStay(m, posts[..|posts| - 1], at, rate, maxAge, n) by {
        assert posts[..|posts| - 1][..n] == posts[..n];
      }
    } else {
      assert posts[..n] == posts;
    }
  }

  method SumStances(m: Math, stances: seq<real>, logs: seq<real>, shift: real) returns (total: real)
    requires |stances| == |logs|
    ensures total == StanceSum(m, stances, logs, shift)
  {
    total := 0.0;
    for i := 0 to |logs|
      invariant total == StanceSum(m, stances[..i], logs[..i], shift)
    {
      assert stances[..i + 1][..i] == stances[..i] && logs[..i + 1][..i] == logs[..i];
      total := total + stances[i] * m.Exp(logs[i] - shift);
    }
    assert stances[..|stances|] == stances && logs[..|logs|] == logs;
  }

  lemma {:induction false} ScaledQuotient(c: real, x: real, y: real, xs: real, ys: real)
    requires c > 0.0 && y >= 1.0 && -1.0 * y <= x <= 1.0 * y
    requires xs == c * x && ys == c * y
    ensures -1.0 <= x / y <= 1.0 && ys > 0.0 && x / y == Ratio(xs, ys) && c * y == ys
  {
    CommonFactor(c, x, y);
    QuotientBetween(x, y, -1.0, 1.0);
  }

  /** Factoring the peak out changes neither the ratio nor the absolute weight. */
  lemma {:induction false} PeakFactorsOut(m: Math, stances: seq<real>, logs: seq<real>, peak: real)
    requires m.Lawful() && |stances| == |logs| && logs != []
    requires forall i :: 0 <= i < |stances| ==> -1.0 <= stances[i] <= 1.0
    requires peak in logs && forall i :: 0 <= i < |logs| ==> logs[i] <= peak
    ensures var numerator, denominator := StanceSum(m, stances, logs, peak), SumExp(m, logs, peak);
      && denominator >= 1.0
      && -1.0 <= numerator / denominator <= 1.0
      && SumExp(m, logs, 0.0) > 0.0
      && numerator / denominator == Ratio(StanceSum(m, stances, logs, 0.0), SumExp(m, logs, 0.0))
      && m.Exp(peak) * denominator == SumExp(m, logs, 0.0)
  {
    var c, x, y, xs, ys := PeakParts(m, stances, logs, peak);
    ScaledQuotient(c, x, y, xs, ys);
  }

  lemma {:induction false} PeakParts(m: Math, stances: seq<real>, logs: seq<real>, peak: real)
    returns (c: real, x: real, y: real, xs: real, ys: real)
    requires m.Lawful() && |stances| == |logs| && logs != []
    requires forall i :: 0 <= i < |stances| ==> -1.0 <= stances[i] <= 1.0
    requires peak in logs && forall i :: 0 <= i < |logs| ==> logs[i] <= peak
    ensures c == m.Exp(peak) && x == StanceSum(m, stances, logs, peak) && y == SumExp(m, logs, peak)
    ensures xs == StanceSum(m, stances, logs, 0.0) && ys == SumExp(m, logs, 0.0)
    ensures c > 0.0 && y >= 1.0 && -1.0 * y <= x <= 1.0 * y && xs == c * x && ys == c * y
  {
    c, x, y := m.Exp(peak), StanceSum(m, stances, logs, peak), SumExp(m, logs, peak);
    xs, ys := StanceSum(m, stances, logs, 0.0), SumExp(m, logs, 0.0);
    SumExpAtPeak(m, logs, peak);
    SumExpFactors(m, logs, peak);
    StanceSumFactors(m, stances, logs, peak);
    StanceSumBetween(m, stances, logs, peak, -1.0, 1.0);
    m.Positive(peak);
  }

  lemma CommonFactor(c: real, x: real, y: real)
    requires c > 0.0 && y > 0.0
    ensures c * y > 0.0 && Ratio(c * x, c * y) == x / y
  {
    assert (c * x) * y == x * (c * y);
    CrossMultiply(c * x, c * y, x, y);
  }

  lemma QuotientBetween(x: real, y: real, lo: real, hi: real)
    requires y > 0.0 && lo * y <= x <= hi * y
    ensures lo <= x / y <= hi
    ensures x / y == lo <==> x == lo * y
    ensures x / y == hi <==> x == hi * y
  {
    var q := x / y;
    assert q * y == x;
    if q < lo { MulMonotone(q, lo, y); }
    if q > hi { MulMonotone(hi, q, y); }
  }

  /** The ratio relative to the peak, its clamp, and the weight restored to scale. */
  method Evaluate(m: Math, stances: seq<real>, logs: seq<real>, halfLife: real, ghost sums: Sums)
    returns (reading: Reading)
    requires m.Lawful() && Stands(m, stances, logs, sums) && logs != []
    ensures reading == Reading(Ratio(sums.numerator, sums.denominator), sums.count, sums.denominator, halfLife)
  {
    var peak := Peak(logs);
    var denominator := SumShifted(m, logs, peak);
    var numerator := SumStances(m, stances, logs, peak);
    PeakFactorsOut(m, stances, logs, peak);
    // The guard on a zero denominator is dead: it is at least one.
    if denominator == 0.0 {
      assert false;
    }
    var sT := numerator / denominator;
    sT := Min(1.0, Max(-1.0, sT));
    reading := Reading(sT, |logs|, m.Exp(peak) * denominator, halfLife);
  }

  method ComputeSignal(m: Math, posts: seq<Post>, at: int, halfLife: real, maxAge: Option<int>)
    returns (r: Result<Option<Reading>, string>)
    requires m.Lawful()
    ensures r.Ok? <==> SignalAt(m, posts, at, halfLife, maxAge).Ok?
    ensures r.Ok? ==> r == SignalAt(m, posts, at, halfLife, maxAge)
  {
    var rate := DecayLambda(m, halfLife);
    if rate.Err? {
      return Err(rate.error);
    }
    var terms := LogTerms(m, posts, at, rate.value, maxAge);
    if terms.Err? {
      return Err(terms.error);
    }
    var (stances, logs) := terms.value;
    if logs == [] {
      return Ok(None);
    }
    var reading := Evaluate(m, stances, logs, halfLife, Collect(m, posts, at, rate.value, maxAge));
    r := Ok(Some(reading));
  }
}
