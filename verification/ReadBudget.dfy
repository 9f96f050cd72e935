/** The persisted daily read budget: two atomic statements, and every interleaving of their callers. */
module ReadBudget {
  import opened Wrappers

  datatype Key = Key(day: int, service: string)

  type Rows = map<Key, int>

  /** Reads on the books; a missing row is none. */
  function Used(rows: Rows, key: Key): int {
    if key in rows then rows[key] else 0
  }

  predicate NonNegative(rows: Rows) {
    forall key :: key in rows ==> rows[key] >= 0
  }

  predicate Admits(rows: Rows, key: Key, requested: int, limit: int) {
    requested >= 0 && Used(rows, key) + requested <= limit
  }

  function Reserved(rows: Rows, key: Key, requested: int, limit: int): Rows {
    if Admits(rows, key, requested, limit) then rows[key := Used(rows, key) + requested] else rows
  }

  /** What a refund takes off the row: never below zero. */
  function Refundable(rows: Rows, key: Key, reserved: int, actual: int): (refunded: nat) {
    var refund := reserved - actual;
    if refund <= 0 then 0
    else if refund <= Used(rows, key) then refund
    else if Used(rows, key) > 0 then Used(rows, key)
    else 0
  }

  function Released(rows: Rows, key: Key, reserved: int, actual: int): Rows {
    if key in rows then rows[key := rows[key] - Refundable(rows, key, reserved, actual)] else rows
  }

  /** The table, behind one connection per caller; each method body is one statement. */
  class Budget {
    const limit: int
    const service: string
    var rows: Rows

    ghost predicate Valid()
      reads this
    {
      NonNegative(rows)
    }

    constructor (limit: int, service: string)
      ensures Valid() && this.limit == limit && this.service == service && rows == map[]
    {
      this.limit := limit;
      this.service := service;
      rows := map[];
    }

    function UsedToday(today: int): int
      reads this
    {
      Used(rows, Key(today, service))
    }

    method Remaining(today: int) returns (left: int)
      requires Valid()
      ensures left >= 0
      ensures forall requested: nat :: requested > 0 ==>
        (Admits(rows, Key(today, service), requested, limit) <==> requested <= left)
    {
      var headroom := limit - UsedToday(today);
      left := if headroom > 0 then headroom else 0;
    }

    /**
     * The conditional upsert. A first reservation of the day meets no conflict, so the guard on
     * the insert has to refuse what the guard on the update would.
     */
    method Reserve(requested: int, today: int) returns (r: Result<int, string>)
      requires Valid()
      modifies this`rows
      ensures Valid()
      ensures rows == Reserved(old(rows), Key(today, service), requested, limit)
      ensures r.Ok? <==> Admits(old(rows), Key(today, service), requested, limit)
      ensures r.Ok? ==> r.value == UsedToday(today) <= limit
    {
      if requested < 0 {
        return Err("requested must be non-negative");
      }
      var key := Key(today, service);
      if requested <= limit {
        if key !in rows {
          rows := rows[key := requested];
          return Ok(requested);
        }
        if rows[key] + requested <= limit {
          rows := rows[key := rows[key] + requested];
          return Ok(rows[key]);
        }
      }
      r := Err("reads used today; more would exceed the budget");
    }

    method ReleaseUnused(reserved: int, actual: int, today: int)
      requires Valid()
      modifies this`rows
      ensures Valid()
      ensures rows == Released(old(rows), Key(today, service), reserved, actual)
    {
      var refund := reserved - actual;
      if refund <= 0 {
        assert Released(rows, Key(today, service), reserved, actual) == rows;
        return;
      }
      var key := Key(today, service);
      if key in rows {
        var left := rows[key] - refund;
        rows := rows[key := if left > 0 then left else 0];
      }
    }
  }

  /** How the request ended: a failure at any stage, or a decoded page. */
  datatype Outcome = Failed(error: string) | Page(returned: nat)

  const MAX_PAGE_SIZE: int := 100

  function PageSize(maxResults: int): (size: int)
    ensures 10 <= size <= MAX_PAGE_SIZE
    ensures 10 <= maxResults <= MAX_PAGE_SIZE ==> size == maxResults
  {
    if maxResults < 10 then 10 else if maxResults > MAX_PAGE_SIZE then MAX_PAGE_SIZE else maxResults
  }

  /**
   * One search with no other caller in between: reserve, request, refund. A page answered on
   * the day of its request costs exactly its posts, a failed request its whole reservation, and
   * a refused reservation nothing.
   */
  method Search(budget: Budget, maxResults: int, outcome: Outcome, today: int, answeredOn: int)
    returns (r: Result<nat, string>)
    requires budget.Valid()
    modifies budget`rows
    ensures budget.Valid()
    ensures var admitted := Admits(old(budget.rows), Key(today, budget.service), PageSize(maxResults), budget.limit);
      && (r.Ok? <==> admitted && outcome.Page?)
      && (!admitted ==> budget.rows == old(budget.rows))
      && (admitted && outcome.Failed? ==>
        budget.UsedToday(today) == old(budget.UsedToday(today)) + PageSize(maxResults))
      && (admitted && outcome.Page? && answeredOn == today && outcome.returned <= PageSize(maxResults) ==>
            budget.UsedToday(today) == old(budget.UsedToday(today)) + outcome.returned)
  {
    var pageSize := PageSize(maxResults);
    var reservation := budget.Reserve(pageSize, today);
    if reservation.Err? {
      return Err(reservation.error);
    }
    if outcome.Failed? {
      return Err(outcome.error);
    }
    budget.ReleaseUnused(pageSize, outcome.returned, answeredOn);
    r := Ok(outcome.returned);
  }

  // ------------------------------------------------------------------- the callers' protocol

  /** A reservation whose request is out. */
  datatype Pending = Pending(day: int, reserved: nat)

  /** A request that is over: `actual` reads were metered, `refunded` came off the row of `closedOn`. */
  datatype Closed = Closed(day: int, reserved: nat, responded: bool, actual: nat, closedOn: int, refunded: nat)

  datatype State = State(today: int, rows: Rows, pending: seq<Pending>, closed: seq<Closed>)

  datatype Action =
    | Rollover
    | Reserve(requested: int)
    | Fail(who: nat, actual: nat)
    | Respond(who: nat, actual: nat)

  function Start(today: int): State {
    State(today, map[], [], [])
  }

  function Without<T>(xs: seq<T>, i: nat): (ys: seq<T>)
    requires i < |xs|
  {
    xs[..i] + xs[i + 1..]
  }

  /** A response to `p`, with what it takes off today's row. */
  function ClosedBy(s: State, p: Pending, actual: nat, service: string): Closed {
    Closed(p.day, p.reserved, true, actual, s.today, Refundable(s.rows, Key(s.today, service), p.reserved, actual))
  }

  /**
   * One atomic step of one caller, or of the clock. A failed request leaves its reservation
   * standing; a response refunds to the row of the day it arrives on.
   */
  function Next(s: State, action: Action, service: string, limit: int): State {
    var key := Key(s.today, service);
    match action
    case Rollover => s.(today := s.today + 1)
    case Reserve(requested) =>
      if Admits(s.rows, key, requested, limit)
      then s.(rows := Reserved(s.rows, key, requested, limit), pending := s.pending + [Pending(s.today, requested)])
      else s
    case Fail(who, actual) =>
      if who < |s.pending|
      then
        var p := s.pending[who];
        s.(pending := Without(s.pending, who),
          closed := s.closed + [Closed(p.day, p.reserved, false, actual, s.today, 0)])
      else s
    case Respond(who, actual) =>
      if who < |s.pending|
      then
        var p := s.pending[who];
        s.(rows := Released(s.rows, key, p.reserved, actual),
          pending := Without(s.pending, who),
          closed := s.closed + [ClosedBy(s, p, actual, service)])
      else s
  }

  function Run(s: State, actions: seq<Action>, service: string, limit: int): State {
    if actions == [] then s
    else Next(Run(s, actions[..|actions| - 1], service, limit), actions[|actions| - 1], service, limit)
  }

  // ------------------------------------------------------------------------------ the ceiling

  predicate WithinLimit(rows: Rows, limit: int) {
    forall key :: key in rows ==> 0 <= rows[key] <= limit
  }

  /** Whatever the callers do, in whatever order, across however many midnights: no row leaves `[0, limit]`. */
  lemma {:induction false} CeilingHolds(today: int, actions: seq<Action>, service: string, limit: int)
    ensures WithinLimit(Run(Start(today), actions, service, limit).rows, limit)
  {
    if actions != [] {
      CeilingHolds(today, actions[..|actions| - 1], service, limit);
    }
  }

  /** One service's run never touches another's rows. */
  lemma {:induction false} ServicesAreIndependent(today: int, actions: seq<Action>, service: string, limit: int,
      key: Key)
    requires key.service != service
    ensures key !in Run(Start(today), actions, service, limit).rows
  {
    if actions != [] {
      ServicesAreIndependent(today, actions[..|actions| - 1], service, limit, key);
    }
  }

  // ------------------------------------------------------------------------------ the books

  function Outstanding(pending: seq<Pending>, day: int): nat {
    if pending == [] then 0
    else Outstanding(pending[..|pending| - 1], day) + OutstandingOf(pending[|pending| - 1], day)
  }

  function OutstandingOf(p: Pending, day: int): nat {
    if p.day == day then p.reserved else 0
  }

  /** Reservations of `day` whose requests are over, less the refunds its row received. */
  function Kept(closed: seq<Closed>, day: int): int {
    if closed == [] then 0
    else Kept(closed[..|closed| - 1], day) + KeptOf(closed[|closed| - 1], day)
  }

  function KeptOf(c: Closed, day: int): int {
    (if c.day == day then c.reserved else 0) - (if c.closedOn == day then c.refunded else 0)
  }

  /** What the row should hold for finished requests: failures in full, responses as used. */
  function Owed(closed: seq<Closed>, day: int): nat {
    if closed == [] then 0
    else Owed(closed[..|closed| - 1], day) + OwedOf(closed[|closed| - 1], day)
  }

  function OwedOf(c: Closed, day: int): nat {
    if c.day != day then 0 else if c.responded then c.actual else c.reserved
  }

  lemma {:induction false} OutstandingWithout(pending: seq<Pending>, i: nat, day: int)
    requires i < |pending|
    ensures Outstanding(pending, day) == Outstanding(Without(pending, i), day) + OutstandingOf(pending[i], day)
  {
    var n := |pending| - 1;
    if i == n {
      assert Without(pending, i) == pending[..n];
    } else {
      OutstandingWithout(pending[..n], i, day);
      var rest := Without(pending, i);
      assert rest[..n - 1] == Without(pending[..n], i) && rest[n - 1] == pending[n];
    }
  }

  lemma OutstandingAppend(pending: seq<Pending>, p: Pending, day: int)
    ensures Outstanding(pending + [p], day) == Outstanding(pending, day) + OutstandingOf(p, day)
  {
    assert (pending + [p])[..|pending|] == pending;
  }

  lemma ClosedAppend(closed: seq<Closed>, c: Closed, day: int)
    ensures Kept(closed + [c], day) == Kept(closed, day) + KeptOf(c, day)
    ensures Owed(closed + [c], day) == Owed(closed, day) + OwedOf(c, day)
  {
    assert (closed + [c])[..|closed|] == closed;
  }

  function Row(s: State, service: string, day: int): int {
    Used(s.rows, Key(day, service))
  }

  /** The row is reservations made less refunds received. */
  ghost predicate Reconciles(s: State, service: string, day: int) {
    Row(s, service, day) == Outstanding(s.pending, day) + Kept(s.closed, day)
  }

  lemma {:induction false} ReserveReconciles(s: State, requested: int, service: string, limit: int, day: int)
    requires Reconciles(s, service, day)
    ensures Reconciles(Next(s, Reserve(requested), service, limit), service, day)
  {
    if Admits(s.rows, Key(s.today, service), requested, limit) {
      OutstandingAppend(s.pending, Pending(s.today, requested), day);
    }
  }

  lemma {:induction false} FailReconciles(s: State, who: nat, actual: nat, service: string, limit: int, day: int)
    requires Reconciles(s, service, day) && who < |s.pending|
    ensures Reconciles(Next(s, Fail(who, actual), service, limit), service, day)
  {
    var p := s.pending[who];
    OutstandingWithout(s.pending, who, day);
    ClosedAppend(s.closed, Closed(p.day, p.reserved, false, actual, s.today, 0), day);
  }

  lemma {:induction false} RespondReconciles(s: State, who: nat, actual: nat, service: string, limit: int, day: int)
    requires Reconciles(s, service, day) && who < |s.pending|
    ensures Reconciles(Next(s, Respond(who, actual), service, limit), service, day)
  {
    var p := s.pending[who];
    RespondRow(s, who, actual, service, limit, day);
    OutstandingWithout(s.pending, who, day);
    ClosedAppend(s.closed, ClosedBy(s, p, actual, service), day);
  }

  lemma {:induction false} NextReconciles(s: State, action: Action, service: string, limit: int, day: int)
    requires Reconciles(s, service, day)
    ensures Reconciles(Next(s, action, service, limit), service, day)
  {
    match action {
      case Rollover =>
      case Reserve(requested) => ReserveReconciles(s, requested, service, limit, day);
      case Fail(who, actual) => if who < |s.pending| { FailReconciles(s, who, actual, service, limit, day); }
      case Respond(who, actual) => if who < |s.pending| { RespondReconciles(s, who, actual, service, limit, day); }
    }
  }

  /** The books of every day balance on every run. */
  lemma {:induction false} RowsReconcile(today: int, actions: seq<Action>, service: string, limit: int, day: int)
    ensures Reconciles(Run(Start(today), actions, service, limit), service, day)
  {
    if actions != [] {
      RowsReconcile(today, actions[..|actions| - 1], service, limit, day);
      NextReconciles(Run(Start(today), actions[..|actions| - 1], service, limit), actions[|actions| - 1], service,
        limit, day);
    }
  }

  // ---------------------------------------------------------------------- exact conservation

  /** The row is outstanding reservations, failures in full, and reads actually used. */
  ghost predicate Conserved(s: State, service: string, day: int) {
    Row(s, service, day) == Outstanding(s.pending, day) + Owed(s.closed, day)
  }

  /** A response within its reservation, with nothing to refund unless it came on the same day. */
  predicate CleanResponse(s: State, action: Action) {
    action.Respond? && action.who < |s.pending| ==>
      var p := s.pending[action.who];
      action.actual <= p.reserved && (p.day == s.today || action.actual == p.reserved)
  }

  lemma {:induction false} OutstandingAtLeast(pending: seq<Pending>, i: nat)
    requires i < |pending|
    ensures Outstanding(pending, pending[i].day) >= pending[i].reserved
  {
    OutstandingWithout(pending, i, pending[i].day);
  }

  /** A clean response refunds exactly the unused part: `GREATEST(0, ..)` has nothing to clamp. */
  lemma {:induction false} CleanNeverClamps(s: State, action: Action, service: string)
    requires action.Respond? && action.who < |s.pending| && CleanResponse(s, action)
    requires Conserved(s, service, s.today)
    ensures var p := s.pending[action.who];
      Refundable(s.rows, Key(s.today, service), p.reserved, action.actual) == p.reserved - action.actual
  {
    OutstandingAtLeast(s.pending, action.who);
  }

  /** Closing a request keeps the books if its row moves by what is owed less what was reserved. */
  lemma {:induction false} CloseOne(s: State, next: State, who: nat, c: Closed, service: string, day: int)
    requires who < |s.pending| && Conserved(s, service, day)
    requires next.pending == Without(s.pending, who) && next.closed == s.closed + [c]
    requires Row(next, service, day) ==
      Row(s, service, day) - OutstandingOf(s.pending[who], day) + OwedOf(c, day)
    ensures Conserved(next, service, day)
  {
    OutstandingWithout(s.pending, who, day);
    ClosedAppend(s.closed, c, day);
  }

  lemma {:induction false} CleanRespondConserves(s: State, who: nat, actual: nat, service: string, limit: int, day: int)
    requires Conserved(s, service, day) && Conserved(s, service, s.today)
    requires who < |s.pending| && CleanResponse(s, Respond(who, actual))
    ensures Conserved(Next(s, Respond(who, actual), service, limit), service, day)
  {
    var p := s.pending[who];
    CleanNeverClamps(s, Respond(who, actual), service);
    RespondRow(s, who, actual, service, limit, day);
    CloseOne(s, Next(s, Respond(who, actual), service, limit), who, ClosedBy(s, p, actual, service), service, day);
  }

  lemma {:induction false} FailConserves(s: State, who: nat, actual: nat, service: string, limit: int, day: int)
    requires Conserved(s, service, day) && who < |s.pending|
    ensures Conserved(Next(s, Fail(who, actual), service, limit), service, day)
  {
    var p := s.pending[who];
    var c := Closed(p.day, p.reserved, false, actual, s.today, 0);
    CloseOne(s, Next(s, Fail(who, actual), service, limit), who, c, service, day);
  }

  lemma {:induction false} CleanConserves(s: State, action: Action, service: string, limit: int, day: int)
    requires Conserved(s, service, day) && Conserved(s, service, s.today)
    requires CleanResponse(s, action)
    ensures Conserved(Next(s, action, service, limit), service, day)
  {
    match action {
      case Rollover =>
      case Reserve(requested) =>
        if Admits(s.rows, Key(s.today, service), requested, limit) {
          OutstandingAppend(s.pending, Pending(s.today, requested), day);
        }
      case Fail(who, actual) => if who < |s.pending| { FailConserves(s, who, actual, service, limit, day); }
      case Respond(who, actual) => if who < |s.pending| { CleanRespondConserves(s, who, actual, service, limit, day); }
    }
  }

  lemma {:induction false} RespondRow(s: State, who: nat, actual: nat, service: string, limit: int, day: int)
    requires who < |s.pending|
    ensures Row(Next(s, Respond(who, actual), service, limit), service, day)
      == Row(s, service, day) - if day == s.today then ClosedBy(s, s.pending[who], actual, service).refunded else 0
  {
  }

  /** Any other response breaks the books of the day it was reserved on. */
  lemma {:induction false} UncleanBreaks(s: State, who: nat, actual: nat, service: string, limit: int)
    requires who < |s.pending| && !CleanResponse(s, Respond(who, actual))
    requires Conserved(s, service, s.pending[who].day)
    ensures !Conserved(Next(s, Respond(who, actual), service, limit), service, s.pending[who].day)
  {
    var p := s.pending[who];
    var c := ClosedBy(s, p, actual, service);
    OutstandingWithout(s.pending, who, p.day);
    ClosedAppend(s.closed, c, p.day);
    RespondRow(s, who, actual, service, limit, p.day);
    var next := Next(s, Respond(who, actual), service, limit);
    assert Outstanding(next.pending, p.day) + Owed(next.closed, p.day) == Row(s, service, p.day) - p.reserved + actual;
  }

  function After(today: int, actions: seq<Action>, service: string, limit: int, n: nat): State
    requires n <= |actions|
  {
    Run(Start(today), actions[..n], service, limit)
  }

  lemma AfterNext(today: int, actions: seq<Action>, service: string, limit: int, n: nat)
    requires n < |actions|
    ensures After(today, actions, service, limit, n + 1) ==
      Next(After(today, actions, service, limit, n), actions[n], service, limit)
  {
    assert actions[..n + 1][..n] == actions[..n];
  }

  ghost predicate AllClean(today: int, actions: seq<Action>, service: string, limit: int, n: nat)
    requires n <= |actions|
  {
    forall i: nat :: i < n ==> CleanResponse(After(today, actions, service, limit, i), actions[i])
  }

  ghost predicate BooksExact(s: State, service: string) {
    forall day :: Conserved(s, service, day)
  }

  lemma {:induction false} CleanRunConserves(today: int, actions: seq<Action>, service: string, limit: int, n: nat)
    requires n <= |actions| && AllClean(today, actions, service, limit, n)
    ensures BooksExact(After(today, actions, service, limit, n), service)
  {
    if n > 0 {
      CleanRunConserves(today, actions, service, limit, n - 1);
      var before := After(today, actions, service, limit, n - 1);
      AfterNext(today, actions, service, limit, n - 1);
      ghost var next := Next(before, actions[n - 1], service, limit);
      forall day
        ensures Conserved(next, service, day)
      {
        assert Conserved(before, service, day) && Conserved(before, service, before.today);
        CleanConserves(before, actions[n - 1], service, limit, day);
      }
    }
  }

  /**
   * Exactly when the budget counts what was used: on every day and after every step of a run, the
   * row equals outstanding + failed + used if and only if no response overran its reservation
   * and none with anything to refund crossed midnight.
   */
  lemma {:induction false} ConservedExactlyWhenClean(today: int, actions: seq<Action>, service: string, limit: int)
    ensures (forall n: nat :: n <= |actions| ==> BooksExact(After(today, actions, service, limit, n), service))
      <==> AllClean(today, actions, service, limit, |actions|)
  {
    if AllClean(today, actions, service, limit, |actions|) {
      forall n: nat | n <= |actions|
        ensures BooksExact(After(today, actions, service, limit, n), service)
      {
        CleanRunConserves(today, actions, service, limit, n);
      }
    } else {
      var i: nat :| i < |actions| && !CleanResponse(After(today, actions, service, limit, i), actions[i]);
      var s := After(today, actions, service, limit, i);
      ghost var next := i + 1;
      if BooksExact(s, service) {
        AfterNext(today, actions, service, limit, i);
        UncleanBreaks(s, actions[i].who, actions[i].actual, service, limit);
        assert !BooksExact(After(today, actions, service, limit, next), service);
      }
    }
  }
}
