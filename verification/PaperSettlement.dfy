/** Which runs a settlement leaves flat, and which it leaves stranded. */
module PaperSettlement {
  import opened Wrappers
  import opened Transcendental
  import opened PaperLedger

  lemma RunExtends(events: seq<Event>, event: Event)
    ensures Run(events + [event]) == Next(Run(events), event)
  {
    assert (events + [event])[..|events|] == events;
  }

  /** A settlement closes the position exactly when it is the first, or nothing was reopened since. */
  lemma {:induction false} SettlementClosesExactlyWhen(events: seq<Event>, key: Key, outcome: real)
    ensures Run(events + [Resolution(key, outcome)]).At(key).Net() == 0.0
      <==> !Run(events).At(key).settled || Run(events).At(key).Net() == 0.0
  {
    RunExtends(events, Resolution(key, outcome));
    RowsHoldTheTarget(events, key);
    ResolutionHolds(Run(events), key, outcome, HoldingAfter(events, key));
  }

  // ------------------------------------------------------------------------- in terms of events

  /** What `more` makes of a holding. */
  function HoldingFrom(h: Holding, more: seq<Event>, key: Key): Holding {
    if more == [] then h
    else HoldingNext(HoldingFrom(h, more[..|more| - 1], key), more[|more| - 1], key)
  }

  lemma {:induction false} HoldingContinues(events: seq<Event>, more: seq<Event>, key: Key)
    ensures HoldingAfter(events + more, key) == HoldingFrom(HoldingAfter(events, key), more, key)
  {
    if more == [] {
      assert events + more == events;
    } else {
      HoldingContinues(events, more[..|more| - 1], key);
      assert (events + more)[..|events + more| - 1] == events + more[..|more| - 1];
    }
  }

  /** The target of the last signal for `key`, 0 without one. */
  function LastTarget(events: seq<Event>, key: Key): real {
    if events == [] then 0.0
    else
      var last := events[|events| - 1];
      if last.Signal? && last.key == key && last.target.Some? then last.target.value
      else LastTarget(events[..|events| - 1], key)
  }

  /** Nothing, or more than a sliver. */
  predicate Coarse(x: real) {
    x == 0.0 || Abs(x) >= TINY
  }

  predicate CoarseTargets(events: seq<Event>) {
    forall i :: 0 <= i < |events| ==> CoarseEvent(events[i])
  }

  predicate CoarseEvent(event: Event) {
    event.Signal? && event.target.Some? ==> Coarse(event.target.value)
  }

  /** Every target of a cap that is not itself a sliver is coarse, and is 0 exactly within the minimum edge. */
  lemma {:induction false} DecisionsAreCoarse(cap: real, key: Key, pHat: real, mark: real)
    requires Times(MIN_EDGE, cap) >= TINY
    ensures CoarseEvent(Decision(cap, key, Some(pHat), Some(mark)))
    ensures TargetPosition(cap, pHat, mark) == 0.0 <==> Abs(pHat - mark) < MIN_EDGE
  {
    TargetFollowsTheEdge(cap, pHat, mark);
    TargetIsCoarse(cap, pHat - mark, TargetPosition(cap, pHat, mark));
  }

  lemma TargetIsCoarse(cap: real, edge: real, target: real)
    requires Times(MIN_EDGE, cap) >= TINY
    requires target == if Abs(edge) < MIN_EDGE then 0.0 else Max(-cap, Min(cap, Times(edge, cap)))
    ensures Coarse(target)
  {
    MulMonotone(MIN_EDGE, 1.0, cap);
    if edge >= MIN_EDGE {
      MulMonotone(MIN_EDGE, edge, cap);
      assert target >= Times(MIN_EDGE, cap);
    } else if edge <= -MIN_EDGE {
      MulMonotone(MIN_EDGE, -edge, cap);
      assert Times(edge, cap) == -(-edge * cap);
      assert target <= -Times(MIN_EDGE, cap);
    }
  }

  /** Once settled only signals move the holding, onto the last target. */
  lemma {:induction false} SettledHoldingFollows(more: seq<Event>, key: Key)
    requires CoarseTargets(more)
    ensures var h := HoldingFrom(Holding(0.0, true), more, key);
      h.settled && Coarse(h.net) && (h.net == 0.0 <==> LastTarget(more, key) == 0.0)
  {
    if more != [] {
      var front, last := more[..|more| - 1], more[|more| - 1];
      assert CoarseEvent(last);
      assert forall i :: 0 <= i < |front| ==> CoarseEvent(more[i]);
      SettledHoldingFollows(front, key);
      SettledHoldingMoves(HoldingFrom(Holding(0.0, true), front, key), last, key);
    }
  }

  lemma SettledHoldingMoves(h: Holding, event: Event, key: Key)
    requires h.settled && Coarse(h.net) && CoarseEvent(event)
    ensures var t := HoldingNext(h, event, key);
      && t.settled && Coarse(t.net)
      && (t.net == 0.0 <==>
            if event.Signal? && event.key == key && event.target.Some? then event.target.value == 0.0
            else h.net == 0.0)
  {
  }

  lemma {:induction false} FirstSettlement(before: seq<Event>, key: Key, outcome: real)
    requires Settleable(Run(before).At(key))
    ensures HoldingAfter(before + [Resolution(key, outcome)], key) == Holding(0.0, true)
  {
    RowsHoldTheTarget(before, key);
    assert (before + [Resolution(key, outcome)])[..|before|] == before;
  }

  /**
   * After a position was settled, a later settlement leaves it flat exactly when the last signal in
   * between asked for no position; any other stays stranded.
   */
  lemma {:induction false} LaterSettlementClosesExactlyWhen(before: seq<Event>, key: Key, outcome: real,
      more: seq<Event>, again: real)
    requires Settleable(Run(before).At(key)) && CoarseTargets(more)
    ensures Run(before + [Resolution(key, outcome)] + more + [Resolution(key, again)]).At(key).Net() == 0.0
      <==> LastTarget(more, key) == 0.0
  {
    var settled := before + [Resolution(key, outcome)];
    FirstSettlement(before, key, outcome);
    HoldingContinues(settled, more, key);
    SettledHoldingFollows(more, key);
    RowsHoldTheTarget(settled + more, key);
    SettlementClosesExactlyWhen(settled + more, key, again);
  }

  predicate OnlyResolutions(events: seq<Event>) {
    forall i :: 0 <= i < |events| ==> events[i].Resolution?
  }

  lemma {:induction false} ResolutionsLeaveSettled(h: Holding, more: seq<Event>, key: Key)
    requires h.settled && OnlyResolutions(more)
    ensures HoldingFrom(h, more, key) == h
  {
    if more != [] {
      ResolutionsLeaveSettled(h, more[..|more| - 1], key);
    }
  }

  /** A signal after settlement reopens a position that no settlement will ever close. */
  lemma {:induction false} TradingAfterSettlementStrands(events: seq<Event>, key: Key, target: real, mark: real,
      more: seq<Event>)
    requires Run(events).At(key).settled && Abs(target) >= TINY && OnlyResolutions(more)
    ensures Run(events + [Signal(key, Some(target), mark)] + more).At(key).Net() != 0.0
  {
    var reopened := events + [Signal(key, Some(target), mark)];
    RowsHoldTheTarget(events, key);
    assert reopened[..|events|] == events;
    HoldingContinues(reopened, more, key);
    ResolutionsLeaveSettled(HoldingAfter(reopened, key), more, key);
    RowsHoldTheTarget(reopened + more, key);
  }

  /** And there is such a run: open, settle, reopen, settle again. */
  lemma {:induction false} StrandedRun(key: Key, first: real, target: real, mark: real, outcome: real, again: real)
    requires Abs(first) >= TINY && Abs(target) >= TINY
    ensures var opening := [Signal(key, Some(first), mark)];
      Run(opening + [Resolution(key, outcome)] + [Signal(key, Some(target), mark)] + [Resolution(key, again)])
        .At(key).Net() != 0.0
  {
    var opening, reopening := [Signal(key, Some(first), mark)], [Signal(key, Some(target), mark)];
    assert opening[..0] == [] && reopening[..0] == [];
    RowsHoldTheTarget(opening, key);
    LaterSettlementClosesExactlyWhen(opening, key, outcome, reopening, again);
  }
}
