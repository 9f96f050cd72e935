/** Joining two observation series on one bar grid, with a bounded forward fill. */
module GridAlign {
  import opened Wrappers
  import opened Timeline
  import opened Primes

  /** A bar width. */
  type Step = s: int | s > 0 witness 1

  /** A timestamped observation; a missing value is `None`. */
  type Obs = Timed<Option<real>>

  /** One output row; its timestamp is `bar * step`. */
  datatype Row = Row(bar: int, signal: real, price: real)

  function BarOf(ts: int, step: Step): int
  {
    ts / step
  }

  // -------------------------------------------------------------------- what the join means

  /** The last value listed in a bar. */
  function LastAt(obs: seq<Obs>, step: Step, bar: int): Option<real>
  {
    if obs == [] then None
    else
      var last := obs[|obs| - 1];
      if last.value.Some? && BarOf(last.ts, step) == bar then last.value else LastAt(obs[..|obs| - 1], step, bar)
  }

  /** The value of the nearest observed bar among `bar` and the `limit` bars before it. */
  function Recent(obs: seq<Obs>, step: Step, bar: int, limit: int): Option<real>
    decreases if limit > 0 then limit else 0
  {
    if LastAt(obs, step, bar).Some? then LastAt(obs, step, bar)
    else if limit <= 0 then None
    else Recent(obs, step, bar - 1, limit - 1)
  }

  function RowsAt(signals: seq<Obs>, prices: seq<Obs>, step: Step, limit: int, bar: int): seq<Row>
  {
    var s, p := Recent(signals, step, bar, limit), Recent(prices, step, bar, limit);
    if s.Some? && p.Some? then [Row(bar, s.value, p.value)] else []
  }

  /** The rows of `n` bars from `first`. */
  function RowsFrom(signals: seq<Obs>, prices: seq<Obs>, step: Step, limit: int, first: int, n: nat): seq<Row>
  {
    if n == 0 then []
    else RowsFrom(signals, prices, step, limit, first, n - 1) + RowsAt(signals, prices, step, limit, first + n - 1)
  }

  /** The observed values with their bars, in input order. */
  function Observed(obs: seq<Obs>, step: Step): seq<Timed<real>>
  {
    if obs == [] then []
    else
      var last := obs[|obs| - 1];
      Observed(obs[..|obs| - 1], step)
        + if last.value.Some? then [Timed(BarOf(last.ts, step), last.value.value)] else []
  }

  function FirstBar(signals: seq<Obs>, prices: seq<Obs>, step: Step): int
    requires Observed(signals, step) != [] && Observed(prices, step) != []
  {
    var s, p := FirstTs(Observed(signals, step)), FirstTs(Observed(prices, step));
    if s < p then s else p
  }

  function LastBar(signals: seq<Obs>, prices: seq<Obs>, step: Step): int
    requires Observed(signals, step) != [] && Observed(prices, step) != []
  {
    var s, p := LastTs(Observed(signals, step)), LastTs(Observed(prices, step));
    if s > p then s else p
  }

  function GridSize(signals: seq<Obs>, prices: seq<Obs>, step: Step): (n: nat)
    requires Observed(signals, step) != [] && Observed(prices, step) != []
  {
    LastBar(signals, prices, step) - FirstBar(signals, prices, step) + 1
  }

  /** Alignment, bar by bar. */
  function Aligned(signals: seq<Obs>, prices: seq<Obs>, step: Step, limit: int): seq<Row>
  {
    if Observed(signals, step) == [] || Observed(prices, step) == [] then []
    else RowsFrom(signals, prices, step, limit, FirstBar(signals, prices, step), GridSize(signals, prices, step))
  }

  // ------------------------------------------------------------------------- the frames

  predicate Mentions(xs: seq<Timed<real>>, bar: int) {
    exists i :: 0 <= i < |xs| && xs[i].ts == bar
  }

  /** `!duplicated(ts, fromLast = TRUE)`: of equal keys the last survives. */
  function KeepLast(xs: seq<Timed<real>>): seq<Timed<real>> {
    if xs == [] then []
    else (if Mentions(xs[1..], xs[0].ts) then [] else [xs[0]]) + KeepLast(xs[1..])
  }

  /** Floor, drop missing, order by bar, keep the last of each. */
  function BarLast(obs: seq<Obs>, step: Step): seq<Timed<real>>
  {
    KeepLast(Sort(Observed(obs, step)))
  }

  /** One cell of a left join on the bar. */
  function Lookup(frame: seq<Timed<real>>, bar: int): Option<real> {
    if frame == [] then None
    else if frame[0].ts == bar then Some(frame[0].value)
    else Lookup(frame[1..], bar)
  }

  function Joined(frame: seq<Timed<real>>, first: int, n: nat): (cells: seq<Option<real>>)
  {
    seq(n, i => Lookup(frame, first + i))
  }

  /** The last value listed at a bar. */
  function LastValue(xs: seq<Timed<real>>, bar: int): Option<real> {
    if xs == [] then None
    else if xs[|xs| - 1].ts == bar then Some(xs[|xs| - 1].value)
    else LastValue(xs[..|xs| - 1], bar)
  }

  lemma {:induction false} LastOfAt(xs: seq<Timed<real>>, bar: int)
    ensures LastValue(xs, bar) == if At(xs, bar) == [] then None else Some(At(xs, bar)[|At(xs, bar)| - 1].value)
  {
    if xs != [] {
      LastOfAt(xs[..|xs| - 1], bar);
    }
  }

  lemma {:induction false} LastValueCons(x: Timed<real>, xs: seq<Timed<real>>, bar: int)
    ensures LastValue([x] + xs, bar) ==
      if LastValue(xs, bar).Some? then LastValue(xs, bar) else if x.ts == bar then Some(x.value) else None
    ensures LastValue(xs, bar).Some? <==> Mentions(xs, bar)
  {
    if xs == [] {
      assert [x] + xs == [x] && [x][..0] == [];
    } else {
      var n := |xs| - 1;
      LastValueCons(x, xs[..n], bar);
      assert ([x] + xs)[..n + 1] == [x] + xs[..n];
      assert xs == xs[..n] + [xs[n]];
      if Mentions(xs[..n], bar) {
        var i :| 0 <= i < n && xs[..n][i].ts == bar;
        assert xs[i].ts == bar;
      }
      if Mentions(xs, bar) && xs[n].ts != bar {
        var i :| 0 <= i < |xs| && xs[i].ts == bar;
        assert xs[..n][i].ts == bar;
      }
    }
  }

  lemma {:induction false} KeepLastLookup(xs: seq<Timed<real>>, bar: int)
    ensures Lookup(KeepLast(xs), bar) == LastValue(xs, bar)
  {
    if xs != [] {
      assert xs == [xs[0]] + xs[1..];
      KeepLastLookup(xs[1..], bar);
      LastValueCons(xs[0], xs[1..], bar);
      if !Mentions(xs[1..], xs[0].ts) {
        assert ([xs[0]] + KeepLast(xs[1..]))[1..] == KeepLast(xs[1..]);
      } else {
        assert [] + KeepLast(xs[1..]) == KeepLast(xs[1..]);
      }
    }
  }

  lemma {:induction false} LastValueIsLastAt(obs: seq<Obs>, step: Step, bar: int)
    ensures LastValue(Observed(obs, step), bar) == LastAt(obs, step, bar)
  {
    if obs != [] {
      var front, last := Observed(obs[..|obs| - 1], step), obs[|obs| - 1];
      LastValueIsLastAt(obs[..|obs| - 1], step, bar);
      if last.value.Some? {
        assert (front + [Timed(BarOf(last.ts, step), last.value.value)])[..|front|] == front;
      } else {
        assert front + [] == front;
      }
    }
  }

  /** A stable sort and a keep-last leave each bar its last listed value. */
  lemma {:induction false} FrameHoldsLast(obs: seq<Obs>, step: Step, bar: int)
    ensures Lookup(BarLast(obs, step), bar) == LastAt(obs, step, bar)
  {
    var xs := Observed(obs, step);
    KeepLastLookup(Sort(xs), bar);
    LastOfAt(Sort(xs), bar);
    LastOfAt(xs, bar);
    SortIsStable(xs, bar);
    LastValueIsLastAt(obs, step, bar);
  }

  lemma {:induction false} KeepLastFrom(xs: seq<Timed<real>>, i: nat)
    requires i < |KeepLast(xs)|
    ensures KeepLast(xs)[i] in xs
  {
    if Mentions(xs[1..], xs[0].ts) {
      KeepLastFrom(xs[1..], i);
    } else if i > 0 {
      KeepLastFrom(xs[1..], i - 1);
    }
  }

  lemma {:induction false} KeepLastIsStrict(xs: seq<Timed<real>>)
    requires Sorted(xs)
    ensures forall i, j :: 0 <= i < j < |KeepLast(xs)| ==> KeepLast(xs)[i].ts < KeepLast(xs)[j].ts
  {
    if xs != [] {
      var rest := xs[1..];
      KeepLastIsStrict(rest);
      if !Mentions(rest, xs[0].ts) {
        forall j | 0 <= j < |KeepLast(rest)|
          ensures xs[0].ts < KeepLast(rest)[j].ts
        {
          KeepLastFrom(rest, j);
          var k :| 0 <= k < |rest| && rest[k] == KeepLast(rest)[j];
          assert xs[k + 1] == rest[k] && xs[0].ts <= xs[k + 1].ts;
        }
      }
    }
  }

  /** Each bar is one frame row, so the joins neither repeat nor drop grid bars. */
  lemma {:induction false} FramesAreKeyed(obs: seq<Obs>, step: Step)
    ensures forall i, j :: 0 <= i < j < |BarLast(obs, step)| ==> BarLast(obs, step)[i].ts < BarLast(obs, step)[j].ts
  {
    SortSorts(Observed(obs, step));
    KeepLastIsStrict(Sort(Observed(obs, step)));
  }

  // ------------------------------------------------------------------------------- the fill

  /** The nearest value among cell `i` and the `limit` cells before it. */
  function Carried(cells: seq<Option<real>>, i: int, limit: int): Option<real>
    requires i < |cells|
    decreases if limit > 0 then limit else 0
  {
    if i < 0 then None
    else if cells[i].Some? then cells[i]
    else if limit <= 0 then None
    else Carried(cells, i - 1, limit - 1)
  }

  /** What the loop remembers: the last value seen, and how many cells ago. */
  ghost predicate Remembers(cells: seq<Option<real>>, i: int, last: Option<real>, gap: int)
    requires i < |cells|
  {
    forall limit :: Carried(cells, i, limit) == if gap == 0 || gap <= limit then last else None
  }

  lemma {:induction false} RemembersNext(cells: seq<Option<real>>, i: nat, last: Option<real>, gap: nat)
    requires i < |cells| && Remembers(cells, i - 1, last, gap)
    ensures cells[i].Some? ==> Remembers(cells, i, cells[i], 0)
    ensures cells[i].None? ==> Remembers(cells, i, last, gap + 1)
  {
    forall limit
      ensures cells[i].None? ==> Carried(cells, i, limit) == if gap + 1 <= limit then last else None
    {
      ghost var before := Carried(cells, i - 1, limit - 1);
    }
  }

  method CarryForward(cells: seq<Option<real>>, limit: int) returns (out: array<Option<real>>)
    ensures fresh(out) && out.Length == |cells|
    ensures forall i :: 0 <= i < |cells| ==> out[i] == Carried(cells, i, limit)
  {
    out := new Option<real>[|cells|](i requires 0 <= i < |cells| => cells[i]);
    var last: Option<real> := None;
    var gap := 0;
    for i := 0 to |cells|
      invariant fresh(out) && out.Length == |cells| && gap >= 0
      invariant forall j :: 0 <= j < i ==> out[j] == Carried(cells, j, limit)
      invariant forall j :: i <= j < |cells| ==> out[j] == cells[j]
      invariant Remembers(cells, i - 1, last, gap)
    {
      RemembersNext(cells, i, last, gap);
      if out[i].Some? {
        last := out[i];
        gap := 0;
      } else {
        gap := gap + 1;
        out[i] := if gap <= limit then last else None;
        assert out[i] == Carried(cells, i, limit);
      }
    }
  }

  lemma {:induction false} NothingBefore(obs: seq<Obs>, step: Step, bar: int)
    ensures LastAt(obs, step, bar).Some? ==>
      Observed(obs, step) != [] && FirstTs(Observed(obs, step)) <= bar <= LastTs(Observed(obs, step))
  {
    if LastAt(obs, step, bar).Some? {
      LastValueIsLastAt(obs, step, bar);
      var xs := Observed(obs, step);
      LastValueCons(Timed(bar, 0.0), xs, bar);
      var i :| 0 <= i < |xs| && xs[i].ts == bar;
      assert FirstTs(xs) <= xs[i].ts <= LastTs(xs);
    }
  }

  /** Filling along the grid finds what looking back over the bars would. */
  lemma {:induction false} CarriedIsRecent(obs: seq<Obs>, step: Step, cells: seq<Option<real>>, first: int, i: int,
      limit: int)
    requires i < |cells|
    requires forall j :: 0 <= j < |cells| ==> cells[j] == LastAt(obs, step, first + j)
    requires forall bar :: bar < first ==> LastAt(obs, step, bar).None?
    ensures Carried(cells, i, limit) == Recent(obs, step, first + i, limit)
    decreases if limit > 0 then limit else 0
  {
    if i < 0 {
      RecentBefore(obs, step, first, first + i, limit);
    } else {
      assert cells[i] == LastAt(obs, step, first + i);
      if cells[i].None? && limit > 0 {
        CarriedIsRecent(obs, step, cells, first, i - 1, limit - 1);
      }
    }
  }

  lemma {:induction false} RecentBefore(obs: seq<Obs>, step: Step, first: int, bar: int, limit: int)
    requires bar < first
    requires forall b :: b < first ==> LastAt(obs, step, b).None?
    ensures Recent(obs, step, bar, limit) == None
    decreases if limit > 0 then limit else 0
  {
    if limit > 0 {
      RecentBefore(obs, step, first, bar - 1, limit - 1);
    }
  }

  /** One column: join the frame to the grid and fill it. */
  method Column(obs: seq<Obs>, step: Step, limit: int, first: int, n: nat) returns (column: seq<Option<real>>)
    requires Observed(obs, step) != [] && first <= FirstTs(Observed(obs, step))
    ensures |column| == n
    ensures forall i :: 0 <= i < n ==> column[i] == Recent(obs, step, first + i, limit)
  {
    var cells := Joined(BarLast(obs, step), first, n);
    var filled := CarryForward(cells, limit);
    forall j | 0 <= j < n
      ensures cells[j] == LastAt(obs, step, first + j)
    {
      FrameHoldsLast(obs, step, first + j);
    }
    forall bar | bar < first
      ensures LastAt(obs, step, bar).None?
    {
      NothingBefore(obs, step, bar);
    }
    forall i | 0 <= i < n
      ensures filled[i] == Recent(obs, step, first + i, limit)
    {
      CarriedIsRecent(obs, step, cells, first, i, limit);
    }
    column := filled[..];
  }

  lemma {:induction false} FrameEnds(obs: seq<Obs>, step: Step)
    requires Observed(obs, step) != []
    ensures BarLast(obs, step) != []
    ensures FirstTs(BarLast(obs, step)) == FirstTs(Observed(obs, step))
    ensures LastTs(BarLast(obs, step)) == LastTs(Observed(obs, step))
  {
    var xs, frame := Observed(obs, step), BarLast(obs, step);
    FrameMentions(obs, step, FirstTs(xs));
    FrameMentions(obs, step, LastTs(xs));
    var i :| 0 <= i < |frame| && frame[i].ts == FirstTs(xs);
    var j :| 0 <= j < |frame| && frame[j].ts == LastTs(xs);
    FrameFrom(obs, step, FirstTs(frame));
    FrameFrom(obs, step, LastTs(frame));
  }

  lemma {:induction false} FrameMentions(obs: seq<Obs>, step: Step, bar: int)
    requires Mentions(Observed(obs, step), bar)
    ensures Mentions(BarLast(obs, step), bar)
  {
    var xs := Observed(obs, step);
    LastValueCons(Timed(bar, 0.0), xs, bar);
    LastValueIsLastAt(obs, step, bar);
    FrameHoldsLast(obs, step, bar);
    LookupFinds(BarLast(obs, step), bar);
  }

  lemma {:induction false} LookupFinds(frame: seq<Timed<real>>, bar: int)
    ensures Lookup(frame, bar).Some? ==> Mentions(frame, bar)
  {
    if frame != [] && frame[0].ts != bar {
      LookupFinds(frame[1..], bar);
      if Lookup(frame[1..], bar).Some? {
        var i :| 0 <= i < |frame| - 1 && frame[1..][i].ts == bar;
        assert frame[i + 1].ts == bar;
      }
    }
  }

  lemma {:induction false} FrameFrom(obs: seq<Obs>, step: Step, bar: int)
    requires Mentions(BarLast(obs, step), bar)
    ensures Mentions(Observed(obs, step), bar)
  {
    var xs := Observed(obs, step);
    var i :| 0 <= i < |BarLast(obs, step)| && BarLast(obs, step)[i].ts == bar;
    KeepLastFrom(Sort(xs), i);
    SortSorts(xs);
    assert BarLast(obs, step)[i] in multiset(xs);
    var k :| 0 <= k < |xs| && xs[k] == BarLast(obs, step)[i];
  }

  /** The frames, the grid, the joins, the fills and the filter give the alignment. */
  method AlignOnGrid(signals: seq<Obs>, prices: seq<Obs>, step: Step, limit: int) returns (rows: seq<Row>)
    ensures rows == Aligned(signals, prices, step, limit)
  {
    var sig, prc := BarLast(signals, step), BarLast(prices, step);
    EmptyFrames(signals, step);
    EmptyFrames(prices, step);
    if sig == [] || prc == [] {
      return [];
    }
    var first, n := GridOf(signals, prices, step, sig, prc);
    rows := AlignBars(signals, prices, step, limit, first, n);
  }

  method GridOf(signals: seq<Obs>, prices: seq<Obs>, step: Step, sig: seq<Timed<real>>, prc: seq<Timed<real>>)
    returns (first: int, n: nat)
    requires Observed(signals, step) != [] && Observed(prices, step) != []
    requires sig == BarLast(signals, step) && prc == BarLast(prices, step) && sig != [] && prc != []
    ensures first == FirstBar(signals, prices, step) && n == GridSize(signals, prices, step)
    ensures first <= FirstTs(Observed(signals, step)) && first <= FirstTs(Observed(prices, step))
  {
    FrameEnds(signals, step);
    FrameEnds(prices, step);
    first := if FirstTs(sig) < FirstTs(prc) then FirstTs(sig) else FirstTs(prc);
    var last := if LastTs(sig) > LastTs(prc) then LastTs(sig) else LastTs(prc);
    n := last - first + 1;
  }

  lemma EmptyFrames(obs: seq<Obs>, step: Step)
    ensures BarLast(obs, step) == [] <==> Observed(obs, step) == []
  {
    if Observed(obs, step) != [] {
      FrameEnds(obs, step);
    }
  }

  method AlignBars(signals: seq<Obs>, prices: seq<Obs>, step: Step, limit: int, first: int, n: nat)
    returns (rows: seq<Row>)
    requires Observed(signals, step) != [] && first <= FirstTs(Observed(signals, step))
    requires Observed(prices, step) != [] && first <= FirstTs(Observed(prices, step))
    ensures rows == RowsFrom(signals, prices, step, limit, first, n)
  {
    var signal := Column(signals, step, limit, first, n);
    var price := Column(prices, step, limit, first, n);
    rows := [];
    for i := 0 to n
      invariant rows == RowsFrom(signals, prices, step, limit, first, i)
    {
      if signal[i].Some? && price[i].Some? {
        rows := rows + [Row(first + i, signal[i].value, price[i].value)];
      } else {
        assert rows + [] == rows;
      }
    }
  }

  // --------------------------------------------------------------------- what the join gives

  ghost predicate HasRow(rows: seq<Row>, row: Row) {
    exists i :: 0 <= i < |rows| && rows[i] == row
  }

  ghost predicate Increasing(rows: seq<Row>) {
    forall i, j :: 0 <= i < j < |rows| ==> rows[i].bar < rows[j].bar
  }

  ghost predicate Within(rows: seq<Row>, first: int, end: int) {
    forall i :: 0 <= i < |rows| ==> first <= rows[i].bar < end
  }

  lemma {:induction false} RowsAreExact(signals: seq<Obs>, prices: seq<Obs>, step: Step, limit: int, first: int,
      n: nat, row: Row)
    ensures var rows := RowsFrom(signals, prices, step, limit, first, n);
      && Increasing(rows) && Within(rows, first, first + n)
      && (HasRow(rows, row) <==>
            && first <= row.bar < first + n
            && Recent(signals, step, row.bar, limit) == Some(row.signal)
            && Recent(prices, step, row.bar, limit) == Some(row.price))
  {
    if n > 0 {
      RowsAreExact(signals, prices, step, limit, first, n - 1, row);
      var front, last := RowsFrom(signals, prices, step, limit, first, n - 1),
        RowsAt(signals, prices, step, limit, first + n - 1);
      HasRowConcat(front, last, row);
      RowsAtHas(signals, prices, step, limit, first + n - 1, row);
    }
  }

  lemma RowsAtHas(signals: seq<Obs>, prices: seq<Obs>, step: Step, limit: int, bar: int, row: Row)
    ensures HasRow(RowsAt(signals, prices, step, limit, bar), row) <==>
      && row.bar == bar
      && Recent(signals, step, bar, limit) == Some(row.signal)
      && Recent(prices, step, bar, limit) == Some(row.price)
  {
    var rows := RowsAt(signals, prices, step, limit, bar);
    if rows != [] {
      assert HasRow(rows, rows[0]);
    }
  }

  lemma {:induction false} HasRowConcat(front: seq<Row>, back: seq<Row>, row: Row)
    ensures HasRow(front + back, row) <==> HasRow(front, row) || HasRow(back, row)
  {
    if HasRow(front, row) {
      var i :| 0 <= i < |front| && front[i] == row;
      assert (front + back)[i] == row;
    }
    if HasRow(back, row) {
      var i :| 0 <= i < |back| && back[i] == row;
      assert (front + back)[|front| + i] == row;
    }
    if HasRow(front + back, row) {
      var i :| 0 <= i < |front + back| && (front + back)[i] == row;
      if i < |front| {
        assert front[i] == row;
      } else {
        assert back[i - |front|] == row;
      }
    }
  }

  lemma {:induction false} RecentIsBounded(obs: seq<Obs>, step: Step, bar: int, limit: int)
    requires Recent(obs, step, bar, limit).Some?
    ensures Observed(obs, step) != [] && FirstTs(Observed(obs, step)) <= bar
    decreases if limit > 0 then limit else 0
  {
    NothingBefore(obs, step, bar);
    if LastAt(obs, step, bar).None? {
      RecentIsBounded(obs, step, bar - 1, limit - 1);
    }
  }

  /** Some bar among the last `limit` ones is observed, and this is the nearest one's value. */
  ghost predicate IsNearest(obs: seq<Obs>, step: Step, bar: int, limit: int, value: real)
  {
    exists b :: (b == bar || bar - limit <= b < bar) && LastAt(obs, step, b) == Some(value) &&
      forall c :: b < c <= bar ==> LastAt(obs, step, c).None?
  }

  lemma {:induction false} RecentIsNearest(obs: seq<Obs>, step: Step, bar: int, limit: int, value: real)
    ensures Recent(obs, step, bar, limit) == Some(value) <==> IsNearest(obs, step, bar, limit, value)
    decreases if limit > 0 then limit else 0
  {
    if LastAt(obs, step, bar).None? && limit > 0 {
      RecentIsNearest(obs, step, bar - 1, limit - 1, value);
      if IsNearest(obs, step, bar - 1, limit - 1, value) {
        var b :| (b == bar - 1 || bar - limit <= b < bar - 1) && LastAt(obs, step, b) == Some(value) &&
          forall c :: b < c <= bar - 1 ==> LastAt(obs, step, c).None?;
        assert IsNearest(obs, step, bar, limit, value);
      }
      if IsNearest(obs, step, bar, limit, value) {
        var b :| (b == bar || bar - limit <= b < bar) && LastAt(obs, step, b) == Some(value) &&
          forall c :: b < c <= bar ==> LastAt(obs, step, c).None?;
        assert IsNearest(obs, step, bar - 1, limit - 1, value);
      }
    }
  }

  /** Some value is observed in the bar or after it. */
  predicate ObservedFrom(obs: seq<Obs>, step: Step, bar: int)
  {
    Observed(obs, step) != [] && bar <= LastTs(Observed(obs, step))
  }

  lemma {:induction false} AlignedIsRecent(signals: seq<Obs>, prices: seq<Obs>, step: Step, limit: int, row: Row)
    ensures Increasing(Aligned(signals, prices, step, limit))
    ensures HasRow(Aligned(signals, prices, step, limit), row) <==>
      && Recent(signals, step, row.bar, limit) == Some(row.signal)
      && Recent(prices, step, row.bar, limit) == Some(row.price)
      && (ObservedFrom(signals, step, row.bar) || ObservedFrom(prices, step, row.bar))
  {
    if Recent(signals, step, row.bar, limit).Some? {
      RecentIsBounded(signals, step, row.bar, limit);
    }
    if Recent(prices, step, row.bar, limit).Some? {
      RecentIsBounded(prices, step, row.bar, limit);
    }
    if Observed(signals, step) != [] && Observed(prices, step) != [] {
      RowsAreExact(signals, prices, step, limit, FirstBar(signals, prices, step), GridSize(signals, prices, step), row);
    }
  }

  /**
   * The alignment, characterised: rows run in time order, and a row is there exactly when its bar
   * is no later than the last observed one and each of its values is the last one listed in the
   * nearest observed bar, at most `limit` bars back.
   */
  lemma {:induction false} AlignmentIsExact(signals: seq<Obs>, prices: seq<Obs>, step: Step, limit: int, row: Row)
    ensures Increasing(Aligned(signals, prices, step, limit))
    ensures HasRow(Aligned(signals, prices, step, limit), row) <==>
      && IsNearest(signals, step, row.bar, limit, row.signal)
      && IsNearest(prices, step, row.bar, limit, row.price)
      && (ObservedFrom(signals, step, row.bar) || ObservedFrom(prices, step, row.bar))
  {
    AlignedIsRecent(signals, prices, step, limit, row);
    RecentIsNearest(signals, step, row.bar, limit, row.signal);
    RecentIsNearest(prices, step, row.bar, limit, row.price);
  }

  // ------------------------------------------------------------------------- moving the clock

  function Shifted(obs: seq<Obs>, offset: int): (moved: seq<Obs>)
  {
    seq(|obs|, i requires 0 <= i < |obs| => Timed(obs[i].ts + offset, obs[i].value))
  }

  function Moved(rows: seq<Row>, bars: int): (moved: seq<Row>)
  {
    seq(|rows|, i requires 0 <= i < |rows| => rows[i].(bar := rows[i].bar + bars))
  }

  /** The offset is `bars` whole bars. */
  ghost predicate Shifts(step: Step, offset: int, bars: int)
  {
    forall ts :: BarOf(ts + offset, step) == BarOf(ts, step) + bars
  }

  lemma {:induction false} BarShifts(ts: int, step: Step, bars: int)
    ensures BarOf(ts + bars * step, step) == BarOf(ts, step) + bars
  {
    var q, r := ts / step, ts % step;
    assert (q + bars) * step == q * step + bars * step;
    ModUnique(step, ts + bars * step, q + bars, r);
  }

  lemma {:induction false} WholeBars(step: Step, bars: int)
    ensures Shifts(step, bars * step, bars)
  {
    forall ts
      ensures BarOf(ts + bars * step, step) == BarOf(ts, step) + bars
    {
      BarShifts(ts, step, bars);
    }
  }

  lemma {:induction false} LastAtShifts(obs: seq<Obs>, step: Step, bars: int, offset: int, bar: int)
    requires Shifts(step, offset, bars)
    ensures LastAt(Shifted(obs, offset), step, bar + bars) == LastAt(obs, step, bar)
  {
    if obs != [] {
      var n := |obs| - 1;
      LastAtShifts(obs[..n], step, bars, offset, bar);
      assert Shifted(obs, offset)[..n] == Shifted(obs[..n], offset);
      assert BarOf(obs[n].ts + offset, step) == BarOf(obs[n].ts, step) + bars;
    }
  }

  lemma {:induction false} RecentShifts(obs: seq<Obs>, step: Step, bars: int, offset: int, bar: int, limit: int)
    requires Shifts(step, offset, bars)
    ensures Recent(Shifted(obs, offset), step, bar + bars, limit) == Recent(obs, step, bar, limit)
    decreases if limit > 0 then limit else 0
  {
    LastAtShifts(obs, step, bars, offset, bar);
    if limit > 0 {
      RecentShifts(obs, step, bars, offset, bar - 1, limit - 1);
    }
  }

  function Later(xs: seq<Timed<real>>, bars: int): (moved: seq<Timed<real>>)
  {
    seq(|xs|, i requires 0 <= i < |xs| => Timed(xs[i].ts + bars, xs[i].value))
  }

  lemma LaterAppend(xs: seq<Timed<real>>, x: Timed<real>, bars: int)
    ensures Later(xs + [x], bars) == Later(xs, bars) + [Timed(x.ts + bars, x.value)]
  {
  }

  lemma {:induction false} LaterEnds(xs: seq<Timed<real>>, bars: int)
    requires xs != []
    ensures FirstTs(Later(xs, bars)) == FirstTs(xs) + bars && LastTs(Later(xs, bars)) == LastTs(xs) + bars
  {
    var front, x := xs[..|xs| - 1], xs[|xs| - 1];
    assert xs == front + [x];
    LaterAppend(front, x, bars);
    EndsAppend(front, x);
    EndsAppend(Later(front, bars), Timed(x.ts + bars, x.value));
    if front != [] {
      LaterEnds(front, bars);
    }
  }

  lemma EndsAppend(xs: seq<Timed<real>>, x: Timed<real>)
    ensures FirstTs(xs + [x]) == if xs == [] || x.ts < FirstTs(xs) then x.ts else FirstTs(xs)
    ensures LastTs(xs + [x]) == if xs == [] || x.ts > LastTs(xs) then x.ts else LastTs(xs)
  {
    assert (xs + [x])[..|xs|] == xs;
  }

  lemma {:induction false} ObservedShifts(obs: seq<Obs>, step: Step, bars: int, offset: int)
    requires Shifts(step, offset, bars)
    ensures Observed(Shifted(obs, offset), step) == Later(Observed(obs, step), bars)
  {
    if obs != [] {
      var n := |obs| - 1;
      var front := Observed(obs[..n], step);
      ObservedShifts(obs[..n], step, bars, offset);
      assert Shifted(obs, offset)[..n] == Shifted(obs[..n], offset);
      if obs[n].value.Some? {
        assert BarOf(obs[n].ts + offset, step) == BarOf(obs[n].ts, step) + bars;
        LaterAppend(front, Timed(BarOf(obs[n].ts, step), obs[n].value.value), bars);
      } else {
        assert front + [] == front && Later(front, bars) + [] == Later(front, bars);
      }
    }
  }

  lemma {:induction false} GridShifts(signals: seq<Obs>, prices: seq<Obs>, step: Step, bars: int, offset: int)
    requires Shifts(step, offset, bars)
    ensures Observed(signals, step) == [] <==> Observed(Shifted(signals, offset), step) == []
    ensures Observed(prices, step) == [] <==> Observed(Shifted(prices, offset), step) == []
    ensures Observed(signals, step) != [] && Observed(prices, step) != [] ==>
      && FirstBar(Shifted(signals, offset), Shifted(prices, offset), step) == FirstBar(signals, prices, step) + bars
      && GridSize(Shifted(signals, offset), Shifted(prices, offset), step) == GridSize(signals, prices, step)
  {
    ObservedShifts(signals, step, bars, offset);
    ObservedShifts(prices, step, bars, offset);
    if Observed(signals, step) != [] && Observed(prices, step) != [] {
      LaterEnds(Observed(signals, step), bars);
      LaterEnds(Observed(prices, step), bars);
    }
  }

  lemma {:induction false} RowsShift(signals: seq<Obs>, prices: seq<Obs>, step: Step, limit: int, bars: int,
      offset: int, first: int, n: nat)
    requires Shifts(step, offset, bars)
    ensures RowsFrom(Shifted(signals, offset), Shifted(prices, offset), step, limit, first + bars, n)
      == Moved(RowsFrom(signals, prices, step, limit, first, n), bars)
  {
    if n > 0 {
      RowsShift(signals, prices, step, limit, bars, offset, first, n - 1);
      RecentShifts(signals, step, bars, offset, first + n - 1, limit);
      RecentShifts(prices, step, bars, offset, first + n - 1, limit);
    }
  }

  lemma {:induction false} AlignedShifts(signals: seq<Obs>, prices: seq<Obs>, step: Step, limit: int, bars: int,
      offset: int)
    requires Shifts(step, offset, bars)
    ensures Aligned(Shifted(signals, offset), Shifted(prices, offset), step, limit)
      == Moved(Aligned(signals, prices, step, limit), bars)
  {
    GridShifts(signals, prices, step, bars, offset);
    if Observed(signals, step) != [] && Observed(prices, step) != [] {
      RowsShift(signals, prices, step, limit, bars, offset, FirstBar(signals, prices, step),
        GridSize(signals, prices, step));
    }
  }

  /** The grid has no preferred origin: inputs a whole number of bars later give the same rows, that much later. */
  lemma {:induction false} AlignmentShifts(signals: seq<Obs>, prices: seq<Obs>, step: Step, limit: int, bars: int)
    ensures Aligned(Shifted(signals, bars * step), Shifted(prices, bars * step), step, limit)
      == Moved(Aligned(signals, prices, step, limit), bars)
  {
    WholeBars(step, bars);
    AlignedShifts(signals, prices, step, limit, bars, bars * step);
  }

  // ------------------------------------------------------------------------- which is the last

  /** A latest observation of the bar, by time. */
  ghost predicate IsLatestInBar(obs: seq<Obs>, step: Step, bar: int, value: real)
  {
    exists i :: 0 <= i < |obs| && obs[i].value == Some(value) && BarOf(obs[i].ts, step) == bar &&
      forall j :: 0 <= j < |obs| && obs[j].value.Some? && BarOf(obs[j].ts, step) == bar ==> obs[j].ts <= obs[i].ts
  }

  lemma {:induction false} LastAtIsListed(obs: seq<Obs>, step: Step, bar: int) returns (i: int)
    requires LastAt(obs, step, bar).Some?
    ensures 0 <= i < |obs| && obs[i].value == LastAt(obs, step, bar) && BarOf(obs[i].ts, step) == bar
    ensures forall j :: i < j < |obs| ==> !(obs[j].value.Some? && BarOf(obs[j].ts, step) == bar)
  {
    var n := |obs| - 1;
    if obs[n].value.Some? && BarOf(obs[n].ts, step) == bar {
      i := n;
    } else {
      i := LastAtIsListed(obs[..n], step, bar);
    }
  }

  /** An observation of the bar that is there. */
  predicate Counts(o: Obs, step: Step, bar: int) {
    o.value.Some? && BarOf(o.ts, step) == bar
  }

  /** The last observed entry listed in the bar has the bar's greatest timestamp. */
  ghost predicate LastListedIsGreatest(obs: seq<Obs>, step: Step, bar: int) {
    exists i :: 0 <= i < |obs| && Counts(obs[i], step, bar) &&
      forall j :: 0 <= j < |obs| && Counts(obs[j], step, bar) ==> j <= i && obs[j].ts <= obs[i].ts
  }

  /** The same timestamps, observed at the same places, with any values. */
  ghost predicate SameTimes(obs: seq<Obs>, other: seq<Obs>) {
    && |obs| == |other|
    && forall i :: 0 <= i < |obs| ==> obs[i].ts == other[i].ts && (obs[i].value.Some? <==> other[i].value.Some?)
  }

  /** Every value is its own place. */
  function Placed(obs: seq<Obs>): (other: seq<Obs>)
    ensures SameTimes(obs, other)
    ensures forall i :: 0 <= i < |obs| && other[i].value.Some? ==> other[i].value == Some(i as real)
  {
    seq(|obs|, i requires 0 <= i < |obs| => Timed(obs[i].ts, if obs[i].value.Some? then Some(i as real) else None))
  }

  lemma {:induction false} LastAtIsThere(obs: seq<Obs>, step: Step, bar: int)
    ensures LastAt(obs, step, bar).Some? <==> exists i :: 0 <= i < |obs| && Counts(obs[i], step, bar)
  {
    if obs != [] {
      var n := |obs| - 1;
      LastAtIsThere(obs[..n], step, bar);
      if i :| 0 <= i < |obs| && Counts(obs[i], step, bar) {
        if i < n {
          assert Counts(obs[..n][i], step, bar);
        }
      }
      if j :| 0 <= j < n && Counts(obs[..n][j], step, bar) {
        assert Counts(obs[j], step, bar);
      }
    }
  }

  lemma {:induction false} GreatestIsKept(obs: seq<Obs>, other: seq<Obs>, step: Step, bar: int)
    requires LastListedIsGreatest(obs, step, bar) && SameTimes(obs, other)
    ensures LastAt(other, step, bar).Some? && IsLatestInBar(other, step, bar, LastAt(other, step, bar).value)
  {
    var i :| 0 <= i < |obs| && Counts(obs[i], step, bar) &&
      forall j :: 0 <= j < |obs| && Counts(obs[j], step, bar) ==> j <= i && obs[j].ts <= obs[i].ts;
    assert Counts(other[i], step, bar);
    LastAtIsThere(other, step, bar);
    var k := LastAtIsListed(other, step, bar);
    assert Counts(obs[k], step, bar);
    forall j | 0 <= j < |other| && other[j].value.Some? && BarOf(other[j].ts, step) == bar
      ensures other[j].ts <= other[k].ts
    {
      assert Counts(obs[j], step, bar);
    }
  }

  /** Values that tell the places apart show which observation was kept. */
  lemma {:induction false} PlacedTells(obs: seq<Obs>, step: Step, bar: int)
    requires LastAt(Placed(obs), step, bar).Some?
    requires IsLatestInBar(Placed(obs), step, bar, LastAt(Placed(obs), step, bar).value)
    ensures LastListedIsGreatest(obs, step, bar)
  {
    var other := Placed(obs);
    var k := LastAtIsListed(other, step, bar);
    var i :| 0 <= i < |other| && other[i].value == LastAt(other, step, bar) && BarOf(other[i].ts, step) == bar &&
      forall j :: 0 <= j < |other| && other[j].value.Some? && BarOf(other[j].ts, step) == bar ==>
        other[j].ts <= other[i].ts;
    assert i as real == k as real;
    assert Counts(obs[i], step, bar);
    forall j | 0 <= j < |obs| && Counts(obs[j], step, bar)
      ensures j <= i && obs[j].ts <= obs[i].ts
    {
      assert other[j].value.Some? && BarOf(other[j].ts, step) == bar;
    }
  }

  /**
   * Exactly when a bar's kept value is a latest one, whatever the values are: when the last
   * observation listed in that bar has the bar's greatest timestamp.
   */
  lemma {:induction false} KeptIsLatestExactlyWhen(obs: seq<Obs>, step: Step, bar: int)
    requires LastAt(obs, step, bar).Some?
    ensures (forall other :: SameTimes(obs, other) ==>
               LastAt(other, step, bar).Some? && IsLatestInBar(other, step, bar, LastAt(other, step, bar).value))
      <==> LastListedIsGreatest(obs, step, bar)
  {
    if LastListedIsGreatest(obs, step, bar) {
      forall other | SameTimes(obs, other)
        ensures LastAt(other, step, bar).Some?
        ensures IsLatestInBar(other, step, bar, LastAt(other, step, bar).value)
      {
        GreatestIsKept(obs, other, step, bar);
      }
    } else if LastAt(Placed(obs), step, bar).Some? &&
        IsLatestInBar(Placed(obs), step, bar, LastAt(Placed(obs), step, bar).value) {
      PlacedTells(obs, step, bar);
    } else {
      assert SameTimes(obs, Placed(obs));
    }
  }

  /** In particular, as documented, when the bar's own observations are listed in time order. */
  lemma {:induction false} LastListedIsLatest(obs: seq<Obs>, step: Step, bar: int)
    requires LastAt(obs, step, bar).Some?
    requires forall j, i :: 0 <= j < i < |obs| && Counts(obs[j], step, bar) && Counts(obs[i], step, bar) ==>
      obs[j].ts <= obs[i].ts
    ensures IsLatestInBar(obs, step, bar, LastAt(obs, step, bar).value)
  {
    var i := LastAtIsListed(obs, step, bar);
    assert Counts(obs[i], step, bar);
    forall j | 0 <= j < |obs| && Counts(obs[j], step, bar)
      ensures j <= i && obs[j].ts <= obs[i].ts
    {
    }
    GreatestIsKept(obs, obs, step, bar);
  }

  /** On other input it need not be: only bars are sorted, not the times within them. */
  lemma {:induction false} UnsortedInputKeepsTheEarlier()
    ensures var obs: seq<Obs> := [Timed(30, Some(2.0)), Timed(10, Some(1.0))];
      LastAt(obs, 60, 0) == Some(1.0) && !IsLatestInBar(obs, 60, 0, 1.0)
  {
    var obs: seq<Obs> := [Timed(30, Some(2.0)), Timed(10, Some(1.0))];
    assert obs[0].value.Some? && BarOf(obs[0].ts, 60) == 0;
  }
}
