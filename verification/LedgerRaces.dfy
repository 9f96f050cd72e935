/** The paper ledger under every interleaving: a call reads once, then writes its fills and its upsert in turn. */
module LedgerRaces {
  import opened Wrappers
  import opened Transcendental
  import opened PaperLedger

  /** A call between its read and its last write: the fills it has yet to insert, and the deltas it will upsert. */
  datatype Call = Call(
    key: Key, owed: seq<Fill>, dYes: real, dNo: real, dCash: real, dRealized: real, settles: bool)
  {
    /** What the upsert adds to the net position. */
    function Delta(): real {
      dYes - dNo
    }
  }

  datatype State = State(books: Books, calls: seq<Call>)

  /** A call starts by reading, and goes on with one write at a time. */
  datatype Step = Read(event: Event) | Write(i: nat)

  /** What a call decides on the books it reads: perhaps nothing. */
  function Planned(books: Books, event: Event): (calls: seq<Call>)
    ensures |calls| <= 1
  {
    match event
    case Signal(key, target, mark) =>
      var delta := Trade(books, key, target);
      if delta == 0.0 then []
      else
        var fill := FillOf(key, delta, mark);
        [Call(key, [fill], delta, 0.0, fill.cashFlow, 0.0, false)]
    case Resolution(key, outcome) =>
      var p := books.At(key);
      if !Settleable(p) then []
      else
        [Call(key, SettleFills(key, p, outcome), -p.qtyYes, -p.qtyNo, Payout(p, outcome), Payout(p, outcome), true)]
  }

  function Posted(books: Books, call: Call): Books {
    books.Applied(call.key, call.dYes, call.dNo, call.dCash, call.dRealized, call.settles)
  }

  /** `subs` in the place of call `i`. */
  function Replaced(calls: seq<Call>, i: nat, subs: seq<Call>): seq<Call>
    requires i < |calls|
  {
    calls[..i] + subs + calls[i + 1..]
  }

  /** The next statement of call `i`. */
  function Advanced(s: State, i: nat): State
    requires i < |s.calls|
  {
    var call := s.calls[i];
    if call.owed != [] then
      State(s.books.Recorded(call.owed[0]), Replaced(s.calls, i, [call.(owed := call.owed[1..])]))
    else State(Posted(s.books, call), Replaced(s.calls, i, []))
  }

  function After(s: State, step: Step): State {
    match step
    case Read(event) => State(s.books, s.calls + Planned(s.books, event))
    case Write(i) => if i < |s.calls| then Advanced(s, i) else s
  }

  function Interleaved(s: State, steps: seq<Step>): State {
    if steps == [] then s else After(Interleaved(s, steps[..|steps| - 1]), steps[|steps| - 1])
  }

  const START := State(EMPTY, [])

  // -------------------------------------------------------------------------- cash reconciles

  /** What a call has put in the ledger and not yet in its row. */
  function Unposted(call: Call, key: Key): real {
    if call.key == key then call.dCash - CashFlows(call.owed, key) else 0.0
  }

  function AllUnposted(calls: seq<Call>, key: Key): real {
    if calls == [] then 0.0
    else AllUnposted(calls[..|calls| - 1], key) + Unposted(calls[|calls| - 1], key)
  }

  lemma {:induction false} UnpostedConcat(calls: seq<Call>, more: seq<Call>, key: Key)
    ensures AllUnposted(calls + more, key) == AllUnposted(calls, key) + AllUnposted(more, key)
  {
    if more == [] {
      assert calls + more == calls;
    } else {
      UnpostedConcat(calls, more[..|more| - 1], key);
      assert (calls + more)[..|calls + more| - 1] == calls + more[..|more| - 1];
    }
  }

  lemma UnpostedOne(call: Call, key: Key)
    ensures AllUnposted([call], key) == Unposted(call, key)
  {
    assert [call][..0] == [];
  }

  lemma {:induction false} UnpostedReplaced(calls: seq<Call>, i: nat, subs: seq<Call>, key: Key)
    requires i < |calls|
    ensures AllUnposted(Replaced(calls, i, subs), key) ==
      AllUnposted(calls, key) - Unposted(calls[i], key) + AllUnposted(subs, key)
  {
    var before, call, after := calls[..i], calls[i], calls[i + 1..];
    assert calls == before + [call] + after;
    UnpostedConcat(before + [call], after, key);
    UnpostedConcat(before, [call], key);
    UnpostedOne(call, key);
    UnpostedConcat(before + subs, after, key);
    UnpostedConcat(before, subs, key);
  }

  lemma {:induction false} CashFlowsFirst(fills: seq<Fill>, key: Key)
    requires fills != []
    ensures CashFlows(fills, key) ==
      (if fills[0].key == key then fills[0].cashFlow else 0.0) + CashFlows(fills[1..], key)
  {
    var n := |fills| - 1;
    if n == 0 {
      assert fills[..0] == [] && fills[1..] == [];
    } else {
      CashFlowsFirst(fills[..n], key);
      assert fills[..n][1..] == fills[1..][..n - 1];
    }
  }

  /** A call writes fills of its own key only. */
  predicate OwnFills(call: Call) {
    forall i :: 0 <= i < |call.owed| ==> call.owed[i].key == call.key
  }

  predicate AllOwnFills(calls: seq<Call>) {
    forall i :: 0 <= i < |calls| ==> OwnFills(calls[i])
  }

  lemma PlanNeedsTarget(books: Books, event: Event)
    ensures event.Signal? && Planned(books, event) != [] ==> event.target.Some?
  {
  }

  lemma SignalPlan(books: Books, key: Key, target: real, mark: real, call: Call)
    requires Planned(books, Signal(key, Some(target), mark)) == [call]
    ensures call.key == key && call.dNo == 0.0 && call.dYes == target - books.At(key).Net()
    ensures |call.owed| == 1 && call.owed[0].key == key && call.owed[0].cashFlow == call.dCash
  {
  }

  lemma ResolutionPlan(books: Books, key: Key, outcome: real, call: Call)
    requires Planned(books, Resolution(key, outcome)) == [call]
    ensures call.key == key && call.dYes == -books.At(key).qtyYes && call.dNo == -books.At(key).qtyNo
    ensures call.owed == SettleFills(key, books.At(key), outcome) && call.dCash == Payout(books.At(key), outcome)
  {
  }

  lemma {:induction false} SettlementBalances(call: Call, p: Position, outcome: real, key: Key)
    requires call.owed == SettleFills(call.key, p, outcome) && call.dCash == Payout(p, outcome)
    ensures Unposted(call, key) == 0.0 && OwnFills(call)
  {
    SettlementFlows([], call.key, p, outcome, key);
    assert [] + call.owed == call.owed;
  }

  lemma {:induction false} PlanBalances(books: Books, event: Event, call: Call, key: Key)
    requires Planned(books, event) == [call]
    ensures Unposted(call, key) == 0.0 && OwnFills(call)
  {
    match event {
      case Signal(at, target, mark) =>
        PlanNeedsTarget(books, event);
        SignalPlan(books, at, target.value, mark, call);
        TradeBalances(call, key);
      case Resolution(at, outcome) =>
        ResolutionPlan(books, at, outcome, call);
        SettlementBalances(call, books.At(at), outcome, key);
    }
  }

  lemma {:induction false} PlannedIsBalanced(books: Books, event: Event, key: Key)
    ensures AllUnposted(Planned(books, event), key) == 0.0 && AllOwnFills(Planned(books, event))
  {
    if Planned(books, event) != [] {
      var call := Planned(books, event)[0];
      UnpostedOne(call, key);
      assert Planned(books, event) == [call];
      PlanBalances(books, event, call, key);
    }
  }

  lemma TradeBalances(call: Call, key: Key)
    requires |call.owed| == 1 && call.owed[0].key == call.key && call.owed[0].cashFlow == call.dCash
    ensures Unposted(call, key) == 0.0
  {
    CashAppend([], call.owed[0], key);
    assert [] + [call.owed[0]] == call.owed;
  }

  /** What row and ledger owe each other. */
  ghost predicate Reconciled(s: State, key: Key) {
    s.books.At(key).cash + AllUnposted(s.calls, key) == CashFlows(s.books.fills, key)
  }

  lemma {:induction false} RecordingReconciles(s: State, i: nat, key: Key)
    requires i < |s.calls| && s.calls[i].owed != [] && OwnFills(s.calls[i]) && Reconciled(s, key)
    ensures Reconciled(Advanced(s, i), key)
  {
    var call := s.calls[i];
    var next := call.(owed := call.owed[1..]);
    UnpostedReplaced(s.calls, i, [next], key);
    UnpostedOne(next, key);
    CashFlowsFirst(call.owed, key);
    CashAppend(s.books.fills, call.owed[0], key);
  }

  lemma {:induction false} PostingReconciles(s: State, i: nat, key: Key)
    requires i < |s.calls| && s.calls[i].owed == [] && Reconciled(s, key)
    ensures Reconciled(Advanced(s, i), key)
  {
    var call := s.calls[i];
    UnpostedReplaced(s.calls, i, [], key);
    AppliedAt(s.books, call.key, call.dYes, call.dNo, call.dCash, call.dRealized, call.settles, key);
  }

  lemma OwnFillsReplaced(calls: seq<Call>, i: nat, subs: seq<Call>)
    requires i < |calls| && AllOwnFills(calls) && AllOwnFills(subs)
    ensures AllOwnFills(Replaced(calls, i, subs))
  {
  }

  lemma OwnFillsAdvance(s: State, i: nat)
    requires i < |s.calls| && AllOwnFills(s.calls)
    ensures AllOwnFills(Advanced(s, i).calls)
  {
    var call := s.calls[i];
    assert OwnFills(call);
    if call.owed != [] {
      OwnFillsReplaced(s.calls, i, [call.(owed := call.owed[1..])]);
    } else {
      OwnFillsReplaced(s.calls, i, []);
    }
  }

  lemma {:induction false} NextReconciles(s: State, step: Step, key: Key)
    requires AllOwnFills(s.calls) && Reconciled(s, key)
    ensures AllOwnFills(After(s, step).calls) && Reconciled(After(s, step), key)
  {
    match step {
      case Read(event) =>
        PlannedIsBalanced(s.books, event, key);
        UnpostedConcat(s.calls, Planned(s.books, event), key);
      case Write(i) =>
        if i < |s.calls| {
          assert OwnFills(s.calls[i]);
          OwnFillsAdvance(s, i);
          if s.calls[i].owed != [] {
            RecordingReconciles(s, i, key);
          } else {
            PostingReconciles(s, i, key);
          }
        }
    }
  }

  lemma {:induction false} RunReconciles(steps: seq<Step>, key: Key)
    ensures AllOwnFills(Interleaved(START, steps).calls) && Reconciled(Interleaved(START, steps), key)
  {
    if steps != [] {
      RunReconciles(steps[..|steps| - 1], key);
      NextReconciles(Interleaved(START, steps[..|steps| - 1]), steps[|steps| - 1], key);
    }
  }

  /**
   * However calls interleave, a row's cash is the ledger's but for what calls under way have
   * recorded and not yet posted; once none is, it is exactly the ledger's.
   */
  lemma {:induction false} CashReconciles(steps: seq<Step>, key: Key)
    ensures var s := Interleaved(START, steps);
      && s.books.At(key).cash == CashFlows(s.books.fills, key) - AllUnposted(s.calls, key)
      && (s.calls == [] ==> s.books.At(key).cash == CashFlows(s.books.fills, key))
  {
    RunReconciles(steps, key);
  }

  // ------------------------------------------------------------- serialised calls keep the cap

  /** The calls under way on one row. */
  function On(calls: seq<Call>, key: Key): (some: seq<Call>)
    ensures |some| <= |calls|
  {
    if calls == [] then []
    else
      var last := calls[|calls| - 1];
      On(calls[..|calls| - 1], key) + if last.key == key then [last] else []
  }

  lemma {:induction false} OnConcat(calls: seq<Call>, more: seq<Call>, key: Key)
    ensures On(calls + more, key) == On(calls, key) + On(more, key)
  {
    if more == [] {
      assert calls + more == calls;
    } else {
      OnConcat(calls, more[..|more| - 1], key);
      assert (calls + more)[..|calls + more| - 1] == calls + more[..|more| - 1];
    }
  }

  lemma OnOne(call: Call, key: Key)
    ensures On([call], key) == if call.key == key then [call] else []
  {
    assert [call][..0] == [];
  }

  /** Replacing a call changes its place among those on its row. */
  lemma {:induction false} OnReplaced(calls: seq<Call>, i: nat, subs: seq<Call>, key: Key)
    returns (before: seq<Call>, after: seq<Call>)
    requires i < |calls|
    ensures On(calls, key) == before + (if calls[i].key == key then [calls[i]] else []) + after
    ensures On(Replaced(calls, i, subs), key) == before + On(subs, key) + after
  {
    var call := calls[i];
    before, after := On(calls[..i], key), On(calls[i + 1..], key);
    assert calls == calls[..i] + [call] + calls[i + 1..];
    OnConcat(calls[..i] + [call], calls[i + 1..], key);
    OnConcat(calls[..i], [call], key);
    OnOne(call, key);
    OnConcat(calls[..i] + subs, calls[i + 1..], key);
    OnConcat(calls[..i], subs, key);
  }

  /** No call reads a row while another on it is under way. */
  ghost predicate SerialisedOn(key: Key, steps: seq<Step>) {
    forall n :: 0 <= n < |steps| ==> StartsAlone(key, Interleaved(START, steps[..n]), steps[n])
  }

  predicate StartsAlone(key: Key, s: State, step: Step) {
    step.Read? && step.event.key == key ==> On(s.calls, key) == []
  }

  predicate CappedStep(cap: real, step: Step) {
    step.Read? ==> CappedEvent(cap, step.event)
  }

  predicate CappedSteps(cap: real, steps: seq<Step>) {
    forall i :: 0 <= i < |steps| ==> CappedStep(cap, steps[i])
  }

  /** The call keeps the row within the cap, in YES shares. */
  predicate Lands(cap: real, p: Position, call: Call) {
    call.dNo == 0.0 && -cap <= p.Net() + call.Delta() <= cap
  }

  /** The row is within the cap, and the one call under way on it will keep it there. */
  predicate Held(cap: real, p: Position, calls: seq<Call>) {
    && p.qtyNo == 0.0 && -cap <= p.Net() <= cap
    && |calls| <= 1 && (calls != [] ==> Lands(cap, p, calls[0]))
  }

  predicate WithinCap(cap: real, s: State, key: Key) {
    Held(cap, s.books.At(key), On(s.calls, key))
  }

  lemma SignalLands(cap: real, p: Position, call: Call, target: real)
    requires -cap <= target <= cap && call.dNo == 0.0 && call.dYes == target - p.Net()
    ensures Lands(cap, p, call)
  {
  }

  lemma SettlementLands(cap: real, p: Position, call: Call)
    requires cap >= 0.0 && p.qtyNo == 0.0 && call.dYes == -p.qtyYes && call.dNo == -p.qtyNo
    ensures Lands(cap, p, call)
  {
  }

  lemma {:induction false} TradeLands(cap: real, books: Books, key: Key, target: real, mark: real, call: Call)
    requires books.At(key).qtyNo == 0.0 && -cap <= target <= cap
    requires Planned(books, Signal(key, Some(target), mark)) == [call]
    ensures call.key == key && Lands(cap, books.At(key), call)
  {
    SignalPlan(books, key, target, mark, call);
    SignalLands(cap, books.At(key), call, target);
  }

  lemma {:induction false} PlanLands(cap: real, books: Books, event: Event, call: Call)
    requires cap >= 0.0 && books.At(event.key).qtyNo == 0.0 && CappedEvent(cap, event)
    requires Planned(books, event) == [call]
    ensures call.key == event.key && Lands(cap, books.At(event.key), call)
  {
    match event {
      case Signal(key, target, mark) =>
        PlanNeedsTarget(books, event);
        TradeLands(cap, books, key, target.value, mark, call);
      case Resolution(key, outcome) =>
        ResolutionPlan(books, key, outcome, call);
        SettlementLands(cap, books.At(key), call);
    }
  }

  lemma {:induction false} PlansAreOn(books: Books, event: Event, key: Key)
    ensures On(Planned(books, event), key) == if event.key == key then Planned(books, event) else []
  {
    var calls := Planned(books, event);
    if calls != [] {
      assert calls == [calls[0]];
      OnOne(calls[0], key);
    }
  }

  lemma {:induction false} ReadKeepsTheCap(cap: real, s: State, event: Event, key: Key)
    requires cap >= 0.0 && WithinCap(cap, s, key) && CappedEvent(cap, event)
    requires StartsAlone(key, s, Read(event))
    ensures WithinCap(cap, After(s, Read(event)), key)
  {
    var calls := Planned(s.books, event);
    OnConcat(s.calls, calls, key);
    PlansAreOn(s.books, event, key);
    if event.key == key && calls != [] {
      assert calls == [calls[0]];
      PlanLands(cap, s.books, event, calls[0]);
    }
  }

  lemma HeldBesides(cap: real, p: Position, before: seq<Call>, call: Call, after: seq<Call>)
    requires Held(cap, p, before + [call] + after)
    ensures before == [] && after == [] && Lands(cap, p, call)
  {
    assert |before + [call] + after| == |before| + 1 + |after|;
    assert (before + [call] + after)[|before|] == call;
  }

  lemma {:induction false} RecordKeepsTheCap(cap: real, s: State, i: nat, key: Key)
    requires WithinCap(cap, s, key) && i < |s.calls| && s.calls[i].owed != []
    ensures WithinCap(cap, Advanced(s, i), key)
  {
    var call := s.calls[i];
    var next := call.(owed := call.owed[1..]);
    var before, after := OnReplaced(s.calls, i, [next], key);
    OnOne(next, key);
    if call.key == key {
      HeldBesides(cap, s.books.At(key), before, call, after);
      assert [] + [next] + [] == [next];
    }
  }

  lemma {:induction false} PostKeepsTheCap(cap: real, s: State, i: nat, key: Key)
    requires WithinCap(cap, s, key) && i < |s.calls| && s.calls[i].owed == []
    ensures WithinCap(cap, Advanced(s, i), key)
  {
    var call := s.calls[i];
    var before, after := OnReplaced(s.calls, i, [], key);
    AppliedAt(s.books, call.key, call.dYes, call.dNo, call.dCash, call.dRealized, call.settles, key);
    if call.key == key {
      HeldBesides(cap, s.books.At(key), before, call, after);
      LandedWithin(cap, s.books.At(key), call, Advanced(s, i).books.At(key));
    }
  }

  lemma LandedWithin(cap: real, p: Position, call: Call, q: Position)
    requires p.qtyNo == 0.0 && Lands(cap, p, call)
    requires q.qtyYes == p.qtyYes + call.dYes && q.qtyNo == p.qtyNo + call.dNo
    ensures Held(cap, q, [])
  {
  }

  lemma {:induction false} WriteKeepsTheCap(cap: real, s: State, i: nat, key: Key)
    requires WithinCap(cap, s, key)
    ensures WithinCap(cap, After(s, Write(i)), key)
  {
    if i < |s.calls| {
      if s.calls[i].owed != [] {
        RecordKeepsTheCap(cap, s, i, key);
      } else {
        PostKeepsTheCap(cap, s, i, key);
      }
    }
  }

  lemma {:induction false} NextKeepsTheCap(cap: real, s: State, step: Step, key: Key)
    requires cap >= 0.0 && WithinCap(cap, s, key) && CappedStep(cap, step) && StartsAlone(key, s, step)
    ensures WithinCap(cap, After(s, step), key)
  {
    if step.Read? {
      ReadKeepsTheCap(cap, s, step.event, key);
    } else {
      WriteKeepsTheCap(cap, s, step.i, key);
    }
  }

  lemma {:induction false} RunKeepsTheCap(cap: real, steps: seq<Step>, key: Key)
    requires cap >= 0.0 && CappedSteps(cap, steps) && SerialisedOn(key, steps)
    ensures WithinCap(cap, Interleaved(START, steps), key)
  {
    if steps != [] {
      var n := |steps| - 1;
      var front := steps[..n];
      forall k | 0 <= k < n
        ensures StartsAlone(key, Interleaved(START, front[..k]), front[k])
      {
        assert front[..k] == steps[..k] && StartsAlone(key, Interleaved(START, steps[..k]), steps[k]);
      }
      RunKeepsTheCap(cap, front, key);
      assert StartsAlone(key, Interleaved(START, steps[..n]), steps[n]) && CappedStep(cap, steps[n]);
      NextKeepsTheCap(cap, Interleaved(START, front), steps[n], key);
    }
  }

  /** While no two calls on a row overlap it stays within the cap, whatever else runs beside them. */
  lemma {:induction false} SerialisedCallsKeepTheCap(cap: real, steps: seq<Step>, key: Key)
    requires cap >= 0.0 && CappedSteps(cap, steps) && SerialisedOn(key, steps)
    ensures -cap <= Interleaved(START, steps).books.At(key).Net() <= cap
    ensures Interleaved(START, steps).books.At(key).qtyNo == 0.0
  {
    RunKeepsTheCap(cap, steps, key);
  }
}
