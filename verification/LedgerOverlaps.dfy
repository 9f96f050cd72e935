/** Calls on the paper ledger run in turn, and overlapping: what serialising them buys. */
module LedgerOverlaps {
  import opened Wrappers
  import opened Transcendental
  import opened PaperLedger
  import opened LedgerRaces

  // --------------------------------------------------------------------- whole calls, in turn

  lemma {:induction false} RunConcatenates(s: State, steps: seq<Step>, more: seq<Step>)
    ensures Interleaved(s, steps + more) == Interleaved(Interleaved(s, steps), more)
  {
    if more == [] {
      assert steps + more == steps;
    } else {
      RunConcatenates(s, steps, more[..|more| - 1]);
      assert (steps + more)[..|steps + more| - 1] == steps + more[..|more| - 1];
    }
  }

  lemma RunStep(s: State, step: Step)
    ensures Interleaved(s, [step]) == After(s, step)
  {
    assert [step][..0] == [];
  }

  /** All writes of the first call under way. */
  function Writes(n: nat): (steps: seq<Step>)
    ensures |steps| == n
  {
    seq(n, _ => Write(0))
  }

  /** The books once the whole call is written. */
  function Completed(books: Books, call: Call): Books {
    Posted(books.(fills := books.fills + call.owed), call.(owed := []))
  }

  lemma {:induction false} CallCompletes(s: State, call: Call, rest: seq<Call>)
    requires s.calls == [call] + rest
    ensures Interleaved(s, Writes(|call.owed| + 1)) == State(Completed(s.books, call), rest)
    decreases |call.owed|
  {
    var n := |call.owed|;
    assert Writes(n + 1) == [Write(0)] + Writes(n);
    RunConcatenates(s, [Write(0)], Writes(n));
    RunStep(s, Write(0));
    var t := After(s, Write(0));
    if n == 0 {
      assert t.calls == rest && s.books.fills + [] == s.books.fills;
    } else {
      var next := call.(owed := call.owed[1..]);
      assert t == State(s.books.Recorded(call.owed[0]), [next] + rest);
      CallCompletes(t, next, rest);
      assert s.books.fills + [call.owed[0]] + call.owed[1..] == s.books.fills + call.owed;
    }
  }

  /** Each event read and written out before the next. */
  function InTurn(events: seq<Event>): seq<Step> {
    if events == [] then []
    else
      var front, event := events[..|events| - 1], events[|events| - 1];
      var calls := Planned(Run(front), event);
      InTurn(front) + [Read(event)] + if calls == [] then [] else Writes(|calls[0].owed| + 1)
  }

  lemma {:induction false} CompletedIsNext(books: Books, event: Event)
    ensures var calls := Planned(books, event);
      Next(books, event) == if calls == [] then books else Completed(books, calls[0])
  {
  }

  /** Calls run in turn are the sequential ledger. */
  lemma {:induction false} InTurnIsSequential(events: seq<Event>)
    ensures Interleaved(START, InTurn(events)) == State(Run(events), [])
  {
    if events != [] {
      var front, event := events[..|events| - 1], events[|events| - 1];
      var books := Run(front);
      InTurnIsSequential(front);
      EventInTurn(books, event, InTurn(front));
    }
  }

  lemma {:induction false} EventInTurn(books: Books, event: Event, before: seq<Step>)
    requires Interleaved(START, before) == State(books, [])
    ensures var calls := Planned(books, event);
      Interleaved(START, before + [Read(event)] + if calls == [] then [] else Writes(|calls[0].owed| + 1))
        == State(Next(books, event), [])
  {
    var calls := Planned(books, event);
    var writes := if calls == [] then [] else Writes(|calls[0].owed| + 1);
    RunConcatenates(START, before, [Read(event)]);
    RunStep(State(books, []), Read(event));
    RunConcatenates(START, before + [Read(event)], writes);
    CompletedIsNext(books, event);
    assert [] + calls == calls;
    if calls != [] {
      assert calls == [calls[0]] + [];
      CallCompletes(State(books, calls), calls[0], []);
    }
  }

  // ------------------------------------------------------------------------- overlapping calls

  /** Two calls on one event, both reading before either writes. */
  function Twice(event: Event, n: nat): seq<Step> {
    [Read(event)] + [Read(event)] + Writes(n) + Writes(n)
  }

  lemma {:induction false} BothLand(books: Books, event: Event, call: Call)
    requires Planned(books, event) == [call]
    ensures Interleaved(State(books, []), Twice(event, |call.owed| + 1)) ==
      State(Completed(Completed(books, call), call), [])
  {
    var s, n := State(books, []), |call.owed| + 1;
    var both := [Read(event)] + [Read(event)];
    BothRead(books, event, call);
    RunConcatenates(s, both + Writes(n), Writes(n));
    RunConcatenates(s, both, Writes(n));
    CallCompletes(State(books, [call] + [call]), call, [call]);
    assert [call] == [call] + [];
    CallCompletes(State(Completed(books, call), [call]), call, []);
  }

  lemma {:induction false} BothRead(books: Books, event: Event, call: Call)
    requires Planned(books, event) == [call]
    ensures Interleaved(State(books, []), [Read(event)] + [Read(event)]) == State(books, [call] + [call])
  {
    var s := State(books, []);
    RunConcatenates(s, [Read(event)], [Read(event)]);
    RunStep(s, Read(event));
    assert [] + [call] == [call];
    RunStep(State(books, [call]), Read(event));
  }

  lemma PlanOfSignal(books: Books, key: Key, target: real, mark: real) returns (call: Call)
    requires Abs(target - books.At(key).Net()) >= TINY
    ensures Planned(books, Signal(key, Some(target), mark)) == [call]
    ensures |call.owed| == 1 && call.key == key && call.Delta() == target - books.At(key).Net()
  {
    call := Planned(books, Signal(key, Some(target), mark))[0];
  }

  lemma {:induction false} SignalTwice(books: Books, key: Key, target: real, mark: real) returns (call: Call)
    requires Abs(target - books.At(key).Net()) >= TINY
    ensures call.key == key && call.Delta() == target - books.At(key).Net()
    ensures Interleaved(State(books, []), Twice(Signal(key, Some(target), mark), 2)) ==
      State(Completed(Completed(books, call), call), [])
  {
    call := PlanOfSignal(books, key, target, mark);
    BothLand(books, Signal(key, Some(target), mark), call);
  }

  lemma CompletedAt(books: Books, call: Call)
    ensures Completed(books, call).At(call.key).Net() == books.At(call.key).Net() + call.Delta()
    ensures Completed(books, call).At(call.key).cash == books.At(call.key).cash + call.dCash
    ensures Completed(books, call).At(call.key).realizedPnl == books.At(call.key).realizedPnl + call.dRealized
  {
  }

  lemma CompletedTwice(books: Books, call: Call, after: Books)
    requires after == Completed(Completed(books, call), call)
    ensures after.At(call.key).Net() == books.At(call.key).Net() + 2.0 * call.Delta()
    ensures after.At(call.key).cash == books.At(call.key).cash + 2.0 * call.dCash
    ensures after.At(call.key).realizedPnl == books.At(call.key).realizedPnl + 2.0 * call.dRealized
  {
    CompletedAt(books, call);
    CompletedAt(Completed(books, call), call);
  }

  /** Two overlapping rebalances to one target land as far beyond it as the row was short of it. */
  lemma {:induction false} OverlapOvershoots(books: Books, key: Key, target: real, mark: real)
    requires Abs(target - books.At(key).Net()) >= TINY
    ensures var s := Interleaved(State(books, []), Twice(Signal(key, Some(target), mark), 2));
      s.calls == [] && s.books.At(key).Net() == 2.0 * target - books.At(key).Net()
  {
    var call := SignalTwice(books, key, target, mark);
    CompletedTwice(books, call, Completed(Completed(books, call), call));
  }

  /** Two overlapping settlements pay twice, and leave the position reversed. */
  lemma {:induction false} OverlapSettlesTwice(books: Books, key: Key, outcome: real)
    requires Settleable(books.At(key))
    ensures var p := books.At(key);
      var n := |SettleFills(key, p, outcome)| + 1;
      var q := Interleaved(State(books, []), Twice(Resolution(key, outcome), n)).books.At(key);
      && q.Net() == -p.Net()
      && q.cash == p.cash + 2.0 * Payout(p, outcome)
      && q.realizedPnl == p.realizedPnl + 2.0 * Payout(p, outcome)
  {
    var event := Resolution(key, outcome);
    var call := Planned(books, event)[0];
    BothLand(books, event, call);
    CompletedTwice(books, call, Completed(Completed(books, call), call));
  }

  lemma TwiceIsCapped(cap: real, event: Event, n: nat)
    requires CappedEvent(cap, event)
    ensures CappedSteps(cap, Twice(event, n))
  {
  }

  /** The target of swing `k`, and where it lands. */
  function SwingTarget(cap: real, k: nat): real {
    if k % 2 == 1 then cap else -cap
  }

  function Landing(cap: real, k: nat): real {
    if k == 0 then 0.0 else 2.0 * SwingTarget(cap, k) - Landing(cap, k - 1)
  }

  lemma {:induction false} LandingsWiden(cap: real, k: nat)
    ensures Landing(cap, k) == Times(2.0 * k as real, -SwingTarget(cap, k + 1))
  {
    if k == 0 {
      assert Times(0.0, -cap) == 0.0;
    } else {
      LandingsWiden(cap, k - 1);
      WidenOnce(cap, k, SwingTarget(cap, k));
    }
  }

  lemma WidenOnce(cap: real, k: nat, target: real)
    requires k > 0
    ensures 2.0 * target - Times(2.0 * (k - 1) as real, -target) == Times(2.0 * k as real, target)
  {
    assert k as real == (k - 1) as real + 1.0;
  }

  lemma {:induction false} FarFromTarget(cap: real, k: nat)
    requires cap >= TINY && k > 0
    ensures Abs(SwingTarget(cap, k) - Landing(cap, k - 1)) >= TINY
  {
    LandingsWiden(cap, k - 1);
    BeyondTarget(cap, (k - 1) as real, SwingTarget(cap, k));
  }

  lemma BeyondTarget(cap: real, n: real, target: real)
    requires cap >= TINY && n >= 0.0 && (target == cap || target == -cap)
    ensures Abs(target - Times(2.0 * n, -target)) >= TINY
  {
    MulMonotone(0.0, 2.0 * n, cap);
    assert Times(2.0 * n, -cap) == -(2.0 * n * cap) && Times(2.0 * n, -(-cap)) == 2.0 * n * cap;
  }

  /** Alternating full targets, each taken by two overlapping calls, swing ever wider. */
  lemma {:induction false} SwingsLand(cap: real, key: Key, mark: real, k: nat)
    returns (steps: seq<Step>, landed: Books)
    requires cap >= TINY
    ensures CappedSteps(cap, steps) && Interleaved(START, steps) == State(landed, [])
    ensures landed.At(key).Net() == Landing(cap, k)
  {
    if k == 0 {
      steps, landed := [], EMPTY;
    } else {
      var before, books := SwingsLand(cap, key, mark, k - 1);
      FarFromTarget(cap, k);
      steps, landed := SwingLands(cap, key, SwingTarget(cap, k), mark, before, books);
    }
  }

  lemma {:induction false} SwingLands(cap: real, key: Key, target: real, mark: real, before: seq<Step>, books: Books)
    returns (steps: seq<Step>, landed: Books)
    requires -cap <= target <= cap && Abs(target - books.At(key).Net()) >= TINY
    requires CappedSteps(cap, before) && Interleaved(START, before) == State(books, [])
    ensures CappedSteps(cap, steps) && Interleaved(START, steps) == State(landed, [])
    ensures landed.At(key).Net() == 2.0 * target - books.At(key).Net()
  {
    var both;
    both, landed := Overshoot(cap, books, key, target, mark);
    steps := before + both;
    CappedConcat(cap, before, both);
    ThenRuns(before, State(books, []), both, State(landed, []));
  }

  lemma ThenRuns(before: seq<Step>, middle: State, more: seq<Step>, end: State)
    requires Interleaved(START, before) == middle && Interleaved(middle, more) == end
    ensures Interleaved(START, before + more) == end
  {
    RunConcatenates(START, before, more);
  }

  lemma {:induction false} Overshoot(cap: real, books: Books, key: Key, target: real, mark: real)
    returns (both: seq<Step>, landed: Books)
    requires -cap <= target <= cap && Abs(target - books.At(key).Net()) >= TINY
    ensures CappedSteps(cap, both) && Interleaved(State(books, []), both) == State(landed, [])
    ensures landed.At(key).Net() == 2.0 * target - books.At(key).Net()
  {
    both := Twice(Signal(key, Some(target), mark), 2);
    landed := Interleaved(State(books, []), both).books;
    TwiceIsCapped(cap, Signal(key, Some(target), mark), 2);
    OverlapOvershoots(books, key, target, mark);
  }

  lemma CappedConcat(cap: real, steps: seq<Step>, more: seq<Step>)
    requires CappedSteps(cap, steps) && CappedSteps(cap, more)
    ensures CappedSteps(cap, steps + more)
  {
  }

  lemma OddEnough(step: real, bound: real) returns (k: nat)
    requires step > 0.0
    ensures k % 2 == 1 && Times(k as real, step) > bound
  {
    var q := bound / step;
    assert q * step == bound;
    k := if q < 0.0 then 1 else 2 * q.Floor + 3;
    assert q < k as real;
    MulMonotone(q, k as real, step);
  }

  lemma {:induction false} LandsBeyond(cap: real, k: nat, bound: real, net: real)
    requires k % 2 == 1 && Times(k as real, 2.0 * cap) > bound && net == Landing(cap, k)
    ensures net > bound
  {
    LandingsWiden(cap, k);
    assert SwingTarget(cap, k + 1) == -cap;
    assert Times(2.0 * k as real, cap) == Times(k as real, 2.0 * cap);
  }

  lemma {:induction false} SwingsBeyond(cap: real, key: Key, mark: real, k: nat, bound: real)
    returns (steps: seq<Step>, landed: Books)
    requires cap >= TINY && Landing(cap, k) > bound
    ensures CappedSteps(cap, steps) && Interleaved(START, steps) == State(landed, [])
    ensures landed.At(key).Net() > bound
  {
    steps, landed := SwingsLand(cap, key, mark, k);
  }

  lemma {:induction false} LandingBeyond(cap: real, bound: real) returns (k: nat)
    requires cap > 0.0
    ensures Landing(cap, k) > bound
  {
    k := OddEnough(2.0 * cap, bound);
    LandsBeyond(cap, k, bound, Landing(cap, k));
  }

  /** With two calls overlapping, capped decisions bound nothing. */
  lemma {:induction false} OverlapHasNoBound(cap: real, key: Key, mark: real, bound: real)
    returns (steps: seq<Step>, landed: Books)
    requires cap >= TINY
    ensures CappedSteps(cap, steps) && Interleaved(START, steps) == State(landed, [])
    ensures landed.At(key).Net() > bound
  {
    var k := LandingBeyond(cap, bound);
    steps, landed := SwingsBeyond(cap, key, mark, k, bound);
  }
}
