/** One search against the budget in numbers. */
module BudgetNumbers {
  import opened ReadBudget

  /** The row of a service today, nothing when there is none. */
  function RowOf(s: State, service: string): int {
    if Key(s.today, service) in s.rows then s.rows[Key(s.today, service)] else 0
  }

  /** Nothing in `t` differs from `s` but today's row of the service, which is `used`. */
  predicate OnlyRow(s: State, t: State, service: string, used: int) {
    t.today == s.today && t.rows == s.rows[Key(s.today, service) := used]
  }

  /** A search asks for the nearest page size the upstream serves, from 10 to 100. */
  lemma {:induction false} PagesAreServed(maxResults: int)
    ensures 10 <= PageSize(maxResults) <= 100
    ensures maxResults <= 10 ==> PageSize(maxResults) == 10
    ensures 10 <= maxResults <= 100 ==> PageSize(maxResults) == maxResults
    ensures 100 <= maxResults ==> PageSize(maxResults) == 100
  {
  }

  /** A reservation is taken exactly when the row can rise by it without passing the limit; else nothing changes. */
  lemma {:induction false} ReservationInNumbers(s: State, requested: int, service: string, limit: int)
    ensures var t := Next(s, Action.Reserve(requested), service, limit);
      if requested >= 0 && RowOf(s, service) + requested <= limit
      then
        && OnlyRow(s, t, service, RowOf(s, service) + requested)
        && t.closed == s.closed && t.pending == s.pending + [Pending(s.today, requested)]
      else t == s
  {
  }

  /** The reservation just made is the last one pending. */
  function Latest(s: State): nat
    requires s.pending != []
  {
    |s.pending| - 1
  }

  lemma DropLast<T>(xs: seq<T>, x: T)
    ensures Without(xs + [x], |xs|) == xs
  {
  }

  /** Answered the same day, a search costs what its page held, and at most its reservation. */
  lemma {:induction false} AnsweredSearchCosts(s: State, requested: nat, actual: nat, service: string, limit: int)
    requires NonNegative(s.rows) && RowOf(s, service) + requested <= limit
    ensures var reserved := Next(s, Action.Reserve(requested), service, limit);
      && reserved.pending != []
      && var t := Next(reserved, Respond(Latest(reserved), actual), service, limit);
        && OnlyRow(s, t, service, RowOf(s, service) + if actual < requested then actual else requested)
        && t.pending == s.pending
        && |t.closed| == |s.closed| + 1 && t.closed[..|s.closed|] == s.closed
        && t.closed[|s.closed|].actual == actual && t.closed[|s.closed|].reserved == requested
  {
    ReservationInNumbers(s, requested, service, limit);
    DropLast(s.pending, Pending(s.today, requested));
    var used := RowOf(s, service);
    var reserved := Next(s, Action.Reserve(requested), service, limit);
    var key := Key(s.today, service);
    assert reserved.rows[key] == used + requested && used >= 0;
    assert Refundable(reserved.rows, key, requested, actual) == if actual < requested then requested - actual else 0;
    var t := Next(reserved, Respond(Latest(reserved), actual), service, limit);
    assert t.rows == reserved.rows[key := used + if actual < requested then actual else requested];
  }

  /** A failed one costs its whole reservation. */
  lemma {:induction false} FailedSearchCosts(s: State, requested: nat, actual: nat, service: string, limit: int)
    requires RowOf(s, service) + requested <= limit
    ensures var reserved := Next(s, Action.Reserve(requested), service, limit);
      && reserved.pending != []
      && var t := Next(reserved, Fail(Latest(reserved), actual), service, limit);
        OnlyRow(s, t, service, RowOf(s, service) + requested) && t.pending == s.pending
  {
    ReservationInNumbers(s, requested, service, limit);
    DropLast(s.pending, Pending(s.today, requested));
  }

  /** A response that arrives on a later day lowers that day's row, never below zero, and leaves its own standing. */
  lemma {:induction false} LateAnswerRefundsToday(s: State, who: nat, actual: nat, service: string, limit: int)
    requires NonNegative(s.rows) && who < |s.pending| && s.pending[who].day < s.today
    ensures var t, refund := Next(s, Respond(who, actual), service, limit), s.pending[who].reserved - actual;
      && RowOf(t, service) ==
           (if refund <= 0 then RowOf(s, service)
            else if refund <= RowOf(s, service) then RowOf(s, service) - refund else 0)
      && forall key :: key != Key(s.today, service) ==>
        (key in t.rows <==> key in s.rows) && (key in s.rows ==> t.rows[key] == s.rows[key])
  {
  }
}
