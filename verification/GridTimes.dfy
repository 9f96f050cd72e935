/** The alignment in timestamps: which observations make a row, and where rows end. */
module GridTimes {
  import opened Wrappers
  import opened Timeline
  import opened GridAlign
  import Primes

  /** Within the bar that starts at `start`. */
  predicate InBar(ts: int, start: int, step: Step) {
    start <= ts < start + step
  }

  lemma BarIsAnInterval(ts: int, step: Step, bar: int)
    ensures BarOf(ts, step) == bar <==> InBar(ts, bar * step, step)
  {
    var q, r := ts / step, ts % step;
    assert ts == q * step + r;
    if InBar(ts, bar * step, step) {
      Primes.ModUnique(step, ts, bar, ts - bar * step);
    }
  }

  lemma Multiples(a: int, b: int, step: Step)
    ensures a <= b ==> a * step <= b * step
    ensures a < b ==> a * step + step <= b * step
  {
    if a <= b {
      Primes.MulAtMost(0, b - a, step);
      assert (b - a) * step == b * step - a * step;
    }
    if a < b {
      Primes.MulAtLeast(b - a, step);
    }
  }

  lemma AtOrAfter(ts: int, step: Step, bar: int)
    ensures BarOf(ts, step) >= bar <==> ts >= bar * step
  {
    var q := BarOf(ts, step);
    BarIsAnInterval(ts, step, q);
    Multiples(bar, q, step);
    Multiples(q, bar, step);
  }

  /** An observed value in the bar, the last one listed there. */
  ghost predicate IsLastListed(obs: seq<Obs>, start: int, step: Step, i: int) {
    && 0 <= i < |obs| && obs[i].value.Some? && InBar(obs[i].ts, start, step)
    && forall j :: i < j < |obs| && obs[j].value.Some? ==> !InBar(obs[j].ts, start, step)
  }

  ghost predicate NothingIn(obs: seq<Obs>, start: int, step: Step) {
    forall j :: 0 <= j < |obs| && obs[j].value.Some? ==> !InBar(obs[j].ts, start, step)
  }

  /** The value `last` is that of the last listed observation of the bar. */
  ghost predicate IsLast(obs: seq<Obs>, start: int, step: Step, last: Option<real>) {
    if last.None? then NothingIn(obs, start, step)
    else exists i :: IsLastListed(obs, start, step, i) && obs[i].value == last
  }

  lemma {:induction false} LastAtIsLast(obs: seq<Obs>, step: Step, bar: int, start: int)
    requires start == bar * step
    ensures IsLast(obs, start, step, LastAt(obs, step, bar))
  {
    if obs != [] {
      var n := |obs| - 1;
      LastAtIsLast(obs[..n], step, bar, start);
      BarIsAnInterval(obs[n].ts, step, bar);
      if obs[n].value.Some? && BarOf(obs[n].ts, step) == bar {
        assert IsLastListed(obs, start, step, n);
      } else {
        LastOfFront(obs, start, step, LastAt(obs[..n], step, bar));
      }
    }
  }

  lemma {:induction false} LastOfFront(obs: seq<Obs>, start: int, step: Step, last: Option<real>)
    requires obs != [] && IsLast(obs[..|obs| - 1], start, step, last)
    requires obs[|obs| - 1].value.Some? ==> !InBar(obs[|obs| - 1].ts, start, step)
    ensures IsLast(obs, start, step, last)
  {
    var n := |obs| - 1;
    var front := obs[..n];
    if last.Some? {
      var i :| IsLastListed(front, start, step, i) && front[i].value == last;
      forall j | i < j < |obs| && obs[j].value.Some?
        ensures !InBar(obs[j].ts, start, step)
      {
        if j < n {
          assert front[j] == obs[j];
        }
      }
      assert IsLastListed(obs, start, step, i);
    } else {
      forall j | 0 <= j < |obs| && obs[j].value.Some?
        ensures !InBar(obs[j].ts, start, step)
      {
        if j < n {
          assert front[j] == obs[j];
        }
      }
    }
  }

  lemma {:induction false} LastIsUnique(obs: seq<Obs>, start: int, step: Step, last: Option<real>, i: int)
    requires IsLast(obs, start, step, last) && IsLastListed(obs, start, step, i)
    ensures last == obs[i].value
  {
    if last.Some? {
      var j :| IsLastListed(obs, start, step, j) && obs[j].value == last;
      assert i == j;
    }
  }

  /**
   * The value carried to a bar: the last listed observation of a bar `from`, at most `limit` bars
   * back, with nothing observed in the bars between.
   */
  ghost predicate IsCarried(obs: seq<Obs>, step: Step, bar: int, limit: int, value: real, from: int, i: int) {
    && (from == bar || bar - limit <= from < bar)
    && IsLastListed(obs, from * step, step, i) && obs[i].value == Some(value)
    && forall b :: from < b <= bar ==> NothingIn(obs, b * step, step)
  }

  ghost predicate Carries(obs: seq<Obs>, step: Step, bar: int, limit: int, value: real) {
    exists from, i :: IsCarried(obs, step, bar, limit, value, from, i)
  }

  lemma {:induction false} LastAtOfBar(obs: seq<Obs>, step: Step, bar: int, value: real)
    ensures LastAt(obs, step, bar).None? <==> NothingIn(obs, bar * step, step)
    ensures LastAt(obs, step, bar) == Some(value) <==>
      exists i :: IsLastListed(obs, bar * step, step, i) && obs[i].value == Some(value)
  {
    LastAtIsLast(obs, step, bar, bar * step);
    forall i | IsLastListed(obs, bar * step, step, i)
      ensures LastAt(obs, step, bar) == obs[i].value
    {
      LastIsUnique(obs, bar * step, step, LastAt(obs, step, bar), i);
    }
  }

  lemma {:induction false} NearestIsCarried(obs: seq<Obs>, step: Step, bar: int, limit: int, value: real)
    ensures IsNearest(obs, step, bar, limit, value) <==> Carries(obs, step, bar, limit, value)
  {
    forall b
      ensures LastAt(obs, step, b).None? <==> NothingIn(obs, b * step, step)
    {
      LastAtOfBar(obs, step, b, value);
    }
    if IsNearest(obs, step, bar, limit, value) {
      var from :| (from == bar || bar - limit <= from < bar) && LastAt(obs, step, from) == Some(value) &&
        forall c :: from < c <= bar ==> LastAt(obs, step, c).None?;
      LastAtOfBar(obs, step, from, value);
      var i :| IsLastListed(obs, from * step, step, i) && obs[i].value == Some(value);
      assert IsCarried(obs, step, bar, limit, value, from, i);
    }
    if Carries(obs, step, bar, limit, value) {
      var from, i :| IsCarried(obs, step, bar, limit, value, from, i);
      LastAtOfBar(obs, step, from, value);
    }
  }

  /** Something is observed at or after `start`. */
  ghost predicate SeenFrom(obs: seq<Obs>, start: int) {
    exists i :: 0 <= i < |obs| && obs[i].value.Some? && obs[i].ts >= start
  }

  ghost predicate Reaches(xs: seq<Timed<real>>, bar: int) {
    exists k :: 0 <= k < |xs| && xs[k].ts >= bar
  }

  lemma ReachesAppend(xs: seq<Timed<real>>, ys: seq<Timed<real>>, bar: int)
    ensures Reaches(xs + ys, bar) <==> Reaches(xs, bar) || Reaches(ys, bar)
  {
    if Reaches(xs, bar) {
      var k :| 0 <= k < |xs| && xs[k].ts >= bar;
      assert (xs + ys)[k] == xs[k];
    }
    if Reaches(ys, bar) {
      var k :| 0 <= k < |ys| && ys[k].ts >= bar;
      assert (xs + ys)[|xs| + k] == ys[k];
    }
  }

  lemma SeenAppend(obs: seq<Obs>, start: int)
    requires obs != []
    ensures SeenFrom(obs, start) <==>
      SeenFrom(obs[..|obs| - 1], start) || (obs[|obs| - 1].value.Some? && obs[|obs| - 1].ts >= start)
  {
    var front := obs[..|obs| - 1];
    if SeenFrom(front, start) {
      var i :| 0 <= i < |front| && front[i].value.Some? && front[i].ts >= start;
      assert obs[i] == front[i];
    }
    if SeenFrom(obs, start) {
      var i :| 0 <= i < |obs| && obs[i].value.Some? && obs[i].ts >= start;
      if i < |front| {
        assert obs[i] == front[i];
      }
    }
  }

  lemma {:induction false} ObservedReaches(obs: seq<Obs>, step: Step, bar: int, start: int)
    requires start == bar * step
    ensures Reaches(Observed(obs, step), bar) <==> SeenFrom(obs, start)
  {
    if obs != [] {
      var n := |obs| - 1;
      var more := if obs[n].value.Some? then [Timed(BarOf(obs[n].ts, step), obs[n].value.value)] else [];
      ObservedReaches(obs[..n], step, bar, start);
      AtOrAfter(obs[n].ts, step, bar);
      ReachesAppend(Observed(obs[..n], step), more, bar);
      SeenAppend(obs, start);
      assert obs[n].value.Some? ==> more[0].ts == BarOf(obs[n].ts, step);
    }
  }

  lemma {:induction false} ObservedFromIsSeen(obs: seq<Obs>, step: Step, bar: int)
    ensures ObservedFrom(obs, step, bar) <==> SeenFrom(obs, bar * step)
  {
    ObservedReaches(obs, step, bar, bar * step);
    LastReaches(Observed(obs, step), bar);
  }

  lemma {:induction false} LastReaches(xs: seq<Timed<real>>, bar: int)
    ensures Reaches(xs, bar) <==> xs != [] && bar <= LastTs(xs)
  {
  }

  /**
   * The alignment in timestamps: a row stands at `bar * step` exactly when each series carries its
   * value there, and one of them is still observed at or after it.
   */
  lemma {:induction false} AlignmentInTime(signals: seq<Obs>, prices: seq<Obs>, step: Step, limit: int, row: Row)
    ensures HasRow(Aligned(signals, prices, step, limit), row) <==>
      && Carries(signals, step, row.bar, limit, row.signal)
      && Carries(prices, step, row.bar, limit, row.price)
      && (SeenFrom(signals, row.bar * step) || SeenFrom(prices, row.bar * step))
  {
    AlignmentIsExact(signals, prices, step, limit, row);
    NearestIsCarried(signals, step, row.bar, limit, row.signal);
    NearestIsCarried(prices, step, row.bar, limit, row.price);
    ObservedFromIsSeen(signals, step, row.bar);
    ObservedFromIsSeen(prices, step, row.bar);
  }
}
