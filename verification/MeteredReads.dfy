/** What the upstream meters against a day's budget, and how much midnight can add to it. */
module MeteredReads {
  import opened ReadBudget

  /** Reads the upstream metered against reservations of `day`. */
  function Metered(closed: seq<Closed>, day: int): nat {
    if closed == [] then 0
    else Metered(closed[..|closed| - 1], day) + MeteredOf(closed[|closed| - 1], day)
  }

  function MeteredOf(c: Closed, day: int): nat {
    if c.day == day then c.actual else 0
  }

  /** Refunds that `day`'s row received for reservations of other days. */
  function ForeignRefunds(closed: seq<Closed>, day: int): nat {
    if closed == [] then 0
    else ForeignRefunds(closed[..|closed| - 1], day) + ForeignOf(closed[|closed| - 1], day)
  }

  function ForeignOf(c: Closed, day: int): nat {
    if c.closedOn == day && c.day != day then c.refunded else 0
  }

  /** Reservations of `day` that were neither metered nor refunded to its row. */
  function Unspent(closed: seq<Closed>, day: int): int {
    if closed == [] then 0
    else Unspent(closed[..|closed| - 1], day) + UnspentOf(closed[|closed| - 1], day)
  }

  function UnspentOf(c: Closed, day: int): int {
    if c.day != day then 0 else c.reserved - c.actual - if c.closedOn == day then c.refunded else 0
  }

  lemma {:induction false} MeteredAppend(closed: seq<Closed>, c: Closed, day: int)
    ensures Metered(closed + [c], day) == Metered(closed, day) + MeteredOf(c, day)
    ensures ForeignRefunds(closed + [c], day) == ForeignRefunds(closed, day) + ForeignOf(c, day)
    ensures Unspent(closed + [c], day) == Unspent(closed, day) + UnspentOf(c, day)
  {
    assert (closed + [c])[..|closed|] == closed;
  }

  lemma {:induction false} KeptSplits(closed: seq<Closed>, day: int)
    ensures Kept(closed, day) == Metered(closed, day) + Unspent(closed, day) - ForeignRefunds(closed, day)
  {
    if closed != [] {
      KeptSplits(closed[..|closed| - 1], day);
    }
  }

  /**
   * The metered reads of a day, to the read: what its row holds, plus foreign refunds, less what
   * is outstanding or was left unspent. On every run, for every day.
   */
  lemma {:induction false} MeteredExactly(today: int, actions: seq<Action>, service: string, limit: int, day: int)
    ensures var s := Run(Start(today), actions, service, limit);
      Metered(s.closed, day) ==
        Row(s, service, day) + ForeignRefunds(s.closed, day) - Outstanding(s.pending, day) - Unspent(s.closed, day)
  {
    RowsReconcile(today, actions, service, limit, day);
    KeptSplits(Run(Start(today), actions, service, limit).closed, day);
  }

  // ----------------------------------------------------------------------- the most it can be

  /** Upstream never meters more for a request than it reserved. */
  ghost predicate WithinReservations(closed: seq<Closed>) {
    forall i :: 0 <= i < |closed| ==> closed[i].actual <= closed[i].reserved
  }

  /** A refund never exceeds the unused part of its reservation. */
  ghost predicate RefundsUnused(closed: seq<Closed>) {
    forall i :: 0 <= i < |closed| && closed[i].actual <= closed[i].reserved ==>
      closed[i].refunded <= closed[i].reserved - closed[i].actual
  }

  lemma {:induction false} RunRefundsUnused(s: State, actions: seq<Action>, service: string, limit: int)
    requires RefundsUnused(s.closed)
    ensures RefundsUnused(Run(s, actions, service, limit).closed)
    ensures s.closed <= Run(s, actions, service, limit).closed
  {
    if actions != [] {
      RunRefundsUnused(s, actions[..|actions| - 1], service, limit);
    }
  }

  lemma {:induction false} UnspentGrows(closed: seq<Closed>, later: seq<Closed>, day: int)
    requires WithinReservations(later) && RefundsUnused(later) && closed <= later
    ensures Unspent(closed, day) <= Unspent(later, day)
    decreases |later|
  {
    if |closed| < |later| {
      UnspentGrows(closed, later[..|later| - 1], day);
    } else {
      assert closed == later;
    }
  }

  /**
   * The metered reads of a day exceed the limit by no more than the refunds that reached its row
   * from other days; without any, they stay within it.
   */
  lemma {:induction false} MeteredReadsStayWithinTheLimit(today: int, actions: seq<Action>,
      service: string, limit: nat, day: int)
    requires WithinReservations(Run(Start(today), actions, service, limit).closed)
    ensures var s := Run(Start(today), actions, service, limit);
      && Metered(s.closed, day) <= limit + ForeignRefunds(s.closed, day)
      && (ForeignRefunds(s.closed, day) == 0 ==> Metered(s.closed, day) <= limit)
  {
    var s := Run(Start(today), actions, service, limit);
    MeteredExactly(today, actions, service, limit, day);
    RunRefundsUnused(Start(today), actions, service, limit);
    UnspentGrows([], s.closed, day);
    CeilingHolds(today, actions, service, limit);
  }

  lemma {:induction false} CleanStepAddsNone(s: State, action: Action, service: string, limit: int, day: int)
    requires CleanResponse(s, action)
    ensures ForeignRefunds(Next(s, action, service, limit).closed, day) == ForeignRefunds(s.closed, day)
  {
    match action {
      case Respond(who, actual) =>
        if who < |s.pending| {
          MeteredAppend(s.closed, ClosedBy(s, s.pending[who], actual, service), day);
        }
      case Fail(who, actual) =>
        if who < |s.pending| {
          var p := s.pending[who];
          MeteredAppend(s.closed, Closed(p.day, p.reserved, false, actual, s.today, 0), day);
        }
      case _ =>
    }
  }

  lemma {:induction false} CleanHasNoForeignRefunds(today: int, actions: seq<Action>, service: string, limit: int,
      n: nat, day: int)
    requires n <= |actions| && AllClean(today, actions, service, limit, n)
    ensures ForeignRefunds(After(today, actions, service, limit, n).closed, day) == 0
  {
    if n > 0 {
      CleanHasNoForeignRefunds(today, actions, service, limit, n - 1, day);
      AfterNext(today, actions, service, limit, n - 1);
      CleanStepAddsNone(After(today, actions, service, limit, n - 1), actions[n - 1], service, limit, day);
    }
  }

  /** On clean runs the metered reads of every day, failed requests included, stay within the limit. */
  lemma {:induction false} CleanRunsStayWithinTheLimit(today: int, actions: seq<Action>,
      service: string, limit: nat, day: int)
    requires AllClean(today, actions, service, limit, |actions|)
    requires WithinReservations(Run(Start(today), actions, service, limit).closed)
    ensures Metered(Run(Start(today), actions, service, limit).closed, day) <= limit
  {
    assert actions[..|actions|] == actions;
    CleanHasNoForeignRefunds(today, actions, service, limit, |actions|, day);
    MeteredReadsStayWithinTheLimit(today, actions, service, limit, day);
  }

  // ------------------------------------------------------------------ and that it can be as much

  lemma {:induction false} RunContinues(s: State, actions: seq<Action>, more: seq<Action>, service: string, limit: int)
    ensures Run(s, actions + more, service, limit) == Run(Run(s, actions, service, limit), more, service, limit)
  {
    if more == [] {
      assert actions + more == actions;
    } else {
      RunContinues(s, actions, more[..|more| - 1], service, limit);
      assert (actions + more)[..|actions + more| - 1] == actions + more[..|more| - 1];
    }
  }

  lemma RunOne(s: State, action: Action, service: string, limit: int)
    ensures Run(s, [action], service, limit) == Next(s, action, service, limit)
  {
    assert [action][..0] == [];
  }

  /** `later` closes more requests, all metered in full: nothing refunded, nothing unspent. */
  ghost predicate SpendsOn(closed: seq<Closed>, later: seq<Closed>, day: int) {
    && (WithinReservations(closed) ==> WithinReservations(later))
    && ForeignRefunds(later, day) == ForeignRefunds(closed, day)
    && Unspent(later, day) == Unspent(closed, day)
  }

  /** One request answered in full. */
  lemma {:induction false} AnswerInFull(s: State, service: string, limit: int, day: int)
    requires s.pending != []
    ensures var t := Next(s, Respond(0, s.pending[0].reserved), service, limit);
      && t.today == s.today && t.rows == s.rows && t.pending == s.pending[1..]
      && SpendsOn(s.closed, t.closed, day)
  {
    var p := s.pending[0];
    var c := ClosedBy(s, p, p.reserved, service);
    MeteredAppend(s.closed, c, day);
    assert Without(s.pending, 0) == s.pending[1..];
    assert Released(s.rows, Key(s.today, service), p.reserved, p.reserved) == s.rows;
  }

  /** Every request that is out comes back in full. */
  lemma {:induction false} Drain(s: State, service: string, limit: int, day: int) returns (more: seq<Action>)
    ensures var t := Run(s, more, service, limit);
      && t.today == s.today && t.rows == s.rows && t.pending == []
      && SpendsOn(s.closed, t.closed, day)
    decreases |s.pending|
  {
    if s.pending == [] {
      more := [];
    } else {
      var answer := Respond(0, s.pending[0].reserved);
      AnswerInFull(s, service, limit, day);
      var rest := Drain(Next(s, answer, service, limit), service, limit, day);
      more := [answer] + rest;
      RunOne(s, answer, service, limit);
      RunContinues(s, [answer], rest, service, limit);
    }
  }

  /** A drained day is reserved to the limit, and that answered in full. */
  lemma {:induction false} FillUp(s: State, service: string, limit: int) returns (more: seq<Action>)
    requires s.pending == [] && Row(s, service, s.today) <= limit
    ensures var t := Run(s, more, service, limit);
      && t.pending == [] && Row(t, service, s.today) == limit
      && SpendsOn(s.closed, t.closed, s.today)
  {
    var reserve := Reserve(limit - Row(s, service, s.today));
    var full := Next(s, reserve, service, limit);
    var answer := Respond(0, full.pending[0].reserved);
    AnswerInFull(full, service, limit, s.today);
    more := [reserve] + [answer];
    RunOne(s, reserve, service, limit);
    RunOne(full, answer, service, limit);
    RunContinues(s, [reserve], [answer], service, limit);
  }

  /**
   * The room a foreign refund frees can all be used: from any reachable state the day can go on
   * to meter the limit plus its foreign refunds, less what its requests have left unspent.
   */
  lemma {:induction false} FreedRoomIsUsable(today: int, actions: seq<Action>, service: string, limit: nat)
    returns (more: seq<Action>)
    ensures var s, t := Run(Start(today), actions, service, limit), Run(Start(today), actions + more, service, limit);
      && SpendsOn(s.closed, t.closed, s.today)
      && Metered(t.closed, s.today) == limit + ForeignRefunds(s.closed, s.today) - Unspent(s.closed, s.today)
  {
    var s := Run(Start(today), actions, service, limit);
    var drain := Drain(s, service, limit, s.today);
    var drained := Run(s, drain, service, limit);
    CeilingHolds(today, actions, service, limit);
    var fill := FillUp(drained, service, limit);
    more := drain + fill;
    RunContinues(s, drain, fill, service, limit);
    RunContinues(Start(today), actions, more, service, limit);
    MeteredExactly(today, actions + more, service, limit, s.today);
  }

  /** `more` meters today past the limit, with no further foreign refund. */
  ghost predicate Overspends(s: State, more: seq<Action>, service: string, limit: nat) {
    var t := Run(s, more, service, limit);
    && WithinReservations(t.closed)
    && ForeignRefunds(t.closed, s.today) == ForeignRefunds(s.closed, s.today)
    && Metered(t.closed, s.today) > limit
  }

  /**
   * Exactly when a day can be overspent: when more was refunded to its row from other days than
   * its own requests have left unspent.
   */
  lemma {:induction false} OverspendableExactlyWhen(today: int, actions: seq<Action>, service: string, limit: nat)
    requires WithinReservations(Run(Start(today), actions, service, limit).closed)
    ensures var s := Run(Start(today), actions, service, limit);
      (exists more :: Overspends(s, more, service, limit)) <==>
        ForeignRefunds(s.closed, s.today) > Unspent(s.closed, s.today)
  {
    var s := Run(Start(today), actions, service, limit);
    if more :| Overspends(s, more, service, limit) {
      OverspendingNeedsRefunds(today, actions, more, service, limit);
    }
    if ForeignRefunds(s.closed, s.today) > Unspent(s.closed, s.today) {
      var more := FreedRoomIsUsable(today, actions, service, limit);
      RunContinues(Start(today), actions, more, service, limit);
      assert Overspends(s, more, service, limit);
    }
  }

  lemma {:induction false} OverspendingNeedsRefunds(today: int, actions: seq<Action>, more: seq<Action>,
      service: string, limit: nat)
    requires Overspends(Run(Start(today), actions, service, limit), more, service, limit)
    ensures var s := Run(Start(today), actions, service, limit);
      ForeignRefunds(s.closed, s.today) > Unspent(s.closed, s.today)
  {
    var s := Run(Start(today), actions, service, limit);
    var t := Run(s, more, service, limit);
    RunContinues(Start(today), actions, more, service, limit);
    MeteredExactly(today, actions + more, service, limit, s.today);
    CeilingHolds(today, actions + more, service, limit);
    RunRefundsUnused(Start(today), actions, service, limit);
    RunRefundsUnused(s, more, service, limit);
    UnspentGrows(s.closed, t.closed, s.today);
  }

  /** One caller reserves before midnight and answers after it, while others use the new day. */
  function Straddle(limit: nat, refund: nat): seq<Action> {
    [Reserve(refund)] + [Rollover] + [Reserve(limit)] + [Respond(0, 0)]
      + [Reserve(refund)] + [Respond(0, limit)] + [Respond(0, refund)]
  }

  lemma RunAppend(s: State, actions: seq<Action>, action: Action, service: string, limit: int)
    ensures Run(s, actions + [action], service, limit) == Next(Run(s, actions, service, limit), action, service, limit)
  {
    assert (actions + [action])[..|actions|] == actions;
  }

  /** The straddling reservation's refund empties that much of the new day's full row. */
  lemma {:induction false} StraddleRefunds(today: int, service: string, limit: nat, refund: nat)
    requires refund <= limit
    ensures Run(Start(today), [Reserve(refund)] + [Rollover] + [Reserve(limit)] + [Respond(0, 0)], service, limit) ==
      State(today + 1, map[Key(today, service) := refund, Key(today + 1, service) := limit - refund],
        [Pending(today + 1, limit)], [Closed(today, refund, true, 0, today + 1, refund)])
  {
    var first := [Reserve(refund)];
    RunOne(Start(today), Reserve(refund), service, limit);
    RunAppend(Start(today), first, Rollover, service, limit);
    RunAppend(Start(today), first + [Rollover], Reserve(limit), service, limit);
    RunAppend(Start(today), first + [Rollover] + [Reserve(limit)], Respond(0, 0), service, limit);
    var s3 := State(today + 1, map[Key(today, service) := refund, Key(today + 1, service) := limit],
      [Pending(today, refund), Pending(today + 1, limit)], []);
    assert Run(Start(today), first + [Rollover] + [Reserve(limit)], service, limit) == s3;
    assert Without(s3.pending, 0) == [Pending(today + 1, limit)];
  }

  /** That room is reserved again, and everything reserved on the new day is metered. */
  lemma {:induction false} StraddleSpends(today: int, service: string, limit: nat, refund: nat, s: State, c: Closed)
    requires refund <= limit
    requires s == State(today + 1, map[Key(today, service) := refund, Key(today + 1, service) := limit - refund],
        [Pending(today + 1, limit)], [c])
    ensures Next(Next(Next(s, Reserve(refund), service, limit), Respond(0, limit), service, limit),
        Respond(0, refund), service, limit) ==
      State(today + 1, map[Key(today, service) := refund, Key(today + 1, service) := limit], [],
        [c, Closed(today + 1, limit, true, limit, today + 1, 0), Closed(today + 1, refund, true, refund, today + 1, 0)])
  {
    var rows := map[Key(today, service) := refund, Key(today + 1, service) := limit];
    var spent := Closed(today + 1, limit, true, limit, today + 1, 0);
    var s5 := State(today + 1, rows, [Pending(today + 1, limit), Pending(today + 1, refund)], [c]);
    var s6 := State(today + 1, rows, [Pending(today + 1, refund)], [c, spent]);
    assert Next(s, Reserve(refund), service, limit) == s5;
    assert Next(s5, Respond(0, limit), service, limit) == s6;
  }

  lemma MeteredOfThree(c: Closed, d: Closed, e: Closed, day: int)
    ensures Metered([c, d, e], day) == MeteredOf(c, day) + MeteredOf(d, day) + MeteredOf(e, day)
  {
    MeteredAppend([], c, day);
    MeteredAppend([c], d, day);
    MeteredAppend([c, d], e, day);
    assert [] + [c] == [c] && [c] + [d] == [c, d] && [c, d] + [e] == [c, d, e];
  }

  /**
   * Every refund up to the limit can be turned into that much overspending: a refund carried over
   * midnight frees room on the wrong day, and no request meters beyond its reservation.
   */
  lemma {:induction false} StraddlingRefundOverspends(today: int, service: string, limit: nat, refund: nat)
    requires refund <= limit
    ensures var s := Run(Start(today), Straddle(limit, refund), service, limit);
      && WithinReservations(s.closed)
      && Row(s, service, today + 1) == limit
      && Metered(s.closed, today + 1) == limit + refund
  {
    var c := Closed(today, refund, true, 0, today + 1, refund);
    var actions := [Reserve(refund)] + [Rollover] + [Reserve(limit)] + [Respond(0, 0)];
    StraddleRefunds(today, service, limit, refund);
    StraddleSpends(today, service, limit, refund, Run(Start(today), actions, service, limit), c);
    RunAppend(Start(today), actions, Reserve(refund), service, limit);
    RunAppend(Start(today), actions + [Reserve(refund)], Respond(0, limit), service, limit);
    RunAppend(Start(today), actions + [Reserve(refund)] + [Respond(0, limit)], Respond(0, refund), service, limit);
    MeteredOfThree(c, Closed(today + 1, limit, true, limit, today + 1, 0),
      Closed(today + 1, refund, true, refund, today + 1, 0), today + 1);
  }
}
