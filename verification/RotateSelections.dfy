/** Quarter turns of selections by a boundary sweep
    (internal/aphelion/editing: selection_transform.go, selection.go:153-162). */
module RotateSelections {
  import opened Basics
  import opened Runs
  import opened Sorting
  import opened Sums
  import opened SelectionModel

  /** Where a quarter turn of the rectangle `a` about its lower left corner takes a cell. */
  function Turn(a: Bounds, clockwise: bool, c: Cell): Cell {
    if clockwise then (a.X1 + (c.1 - a.Y1), a.Y1 + (a.X2 - c.0))
    else (a.X1 + (a.Y2 - c.1), a.Y1 + (c.0 - a.X1))
  }

  /** The cell a quarter turn brings to c. */
  function Unturn(a: Bounds, clockwise: bool, c: Cell): Cell {
    if clockwise then (a.X2 - (c.1 - a.Y1), a.Y1 + (c.0 - a.X1))
    else (a.X1 + (c.1 - a.Y1), a.Y2 - (c.0 - a.X1))
  }

  /** A clockwise turn points up to the right and right down, the other one back; it takes the rectangle
      into the one of swapped sides with the same lower left corner, and Unturn undoes it. */
  lemma TurnMeaning(a: Bounds, clockwise: bool, c: Cell)
    ensures Unturn(a, clockwise, Turn(a, clockwise, c)) == c && Turn(a, clockwise, Unturn(a, clockwise, c)) == c
    ensures var t, up, right := Turn(a, clockwise, c), Turn(a, clockwise, (c.0, c.1 + 1)), Turn(a, clockwise,
                                                                                                (c.0 + 1, c.1));
      if clockwise then up == (t.0 + 1, t.1) && right == (t.0, t.1 - 1)
      else up == (t.0 - 1, t.1) && right == (t.0, t.1 + 1)
    ensures a.Has(c.0, c.1) <==>
      Bounds(a.X1, a.Y1, a.X1 + a.Y2 - a.Y1, a.Y1 + a.X2 - a.X1).Has(Turn(a, clockwise, c).0, Turn(a, clockwise, c).1)
  {
  }

  // ---- events -----------------------------------------------------------------------------

  datatype Event = Event(x: int, y: int, delta: int)

  predicate EventLe(e: Event, f: Event) { e.x < f.x || (e.x == f.x && e.y <= f.y) }

  /** The delta of an event of row y, up to column x when a cut is given. */
  function RowWeight(y: int, cut: Option<int>): Event -> int {
    (e: Event) => if e.y == y && (cut.Some? ==> e.x <= cut.value) then e.delta else 0
  }

  /** The row and the first and last column a vertical run turns into. */
  function TurnedRow(a: Bounds, clockwise: bool, r: Bounds): (int, int, int) {
    if clockwise then (a.X1 + r.Y1 - a.Y1, a.X1 + r.Y2 - a.Y1, a.Y1 + (a.X2 - a.X1 + 1) - 1 - (r.X1 - a.X1))
    else (a.X1 + (a.Y2 - a.Y1 + 1) - 1 - (r.Y2 - a.Y1), a.X1 + (a.Y2 - a.Y1 + 1) - 1 - (r.Y1 - a.Y1),
          a.Y1 + r.X1 - a.X1)
  }

  function RunEvents(a: Bounds, clockwise: bool, r: Bounds): seq<Event> {
    var t := TurnedRow(a, clockwise, r);
    [Event(t.0, t.2, 1), Event(t.1 + 1, t.2, -1)]
  }

  /** The events count, in every cell, the runs that turn onto it. */
  ghost predicate Counted(es: seq<Event>, a: Bounds, clockwise: bool, runs: seq<Bounds>) {
    && (forall x, y :: SumOf(es, RowWeight(y, Some(x)))
          == CountHas(runs, Unturn(a, clockwise, (x, y)).0, Unturn(a, clockwise, (x, y)).1))
    && (forall y :: SumOf(es, RowWeight(y, None)) == 0)
  }

  lemma PairSum(es: seq<Event>, e: Event, f: Event, w: Event -> int)
    ensures SumOf(es + [e, f], w) == SumOf(es, w) + w(e) + w(f)
  {
    SumConcat(es, [e, f], w);
    assert [e, f][..1] == [e] && [e][..0] == [];
    assert SumOf([e], w) == w(e);
  }

  /** The two events of a run cover exactly the cells the run turns onto. */
  lemma RunWeight(a: Bounds, clockwise: bool, r: Bounds, x: int, y: int)
    requires Vertical(r)
    ensures var t := TurnedRow(a, clockwise, r);
      RowWeight(y, Some(x))(Event(t.0, t.2, 1)) + RowWeight(y, Some(x))(Event(t.1 + 1, t.2, -1))
      == if r.Has(Unturn(a, clockwise, (x, y)).0, Unturn(a, clockwise, (x, y)).1) then 1 else 0
  {
  }

  lemma CountSnoc(runs: seq<Bounds>, r: Bounds, x: int, y: int)
    ensures CountHas(runs + [r], x, y) == CountHas(runs, x, y) + if r.Has(x, y) then 1 else 0
  {
    assert (runs + [r])[..|runs|] == runs;
  }

  lemma CountedStep(es: seq<Event>, a: Bounds, clockwise: bool, runs: seq<Bounds>, r: Bounds)
    requires Counted(es, a, clockwise, runs) && Vertical(r)
    ensures Counted(es + RunEvents(a, clockwise, r), a, clockwise, runs + [r])
  {
    hide CountHas, RowWeight, Unturn, TurnedRow, SumOf;
    var out, t := es + RunEvents(a, clockwise, r), TurnedRow(a, clockwise, r);
    var e, f := Event(t.0, t.2, 1), Event(t.1 + 1, t.2, -1);
    forall x, y
      ensures SumOf(out, RowWeight(y, Some(x)))
           == CountHas(runs + [r], Unturn(a, clockwise, (x, y)).0, Unturn(a, clockwise, (x, y)).1)
    {
      var c := Unturn(a, clockwise, (x, y));
      PairSum(es, e, f, RowWeight(y, Some(x)));
      RunWeight(a, clockwise, r, x, y);
      CountSnoc(runs, r, c.0, c.1);
    }
    forall y ensures SumOf(out, RowWeight(y, None)) == 0 {
      PairSum(es, e, f, RowWeight(y, None));
      PairWeight(e, f, y);
    }
  }

  lemma PairWeight(e: Event, f: Event, y: int)
    requires e.y == f.y && e.delta + f.delta == 0
    ensures RowWeight(y, None)(e) + RowWeight(y, None)(f) == 0
  {
  }

  method BuildEvents(a: Bounds, clockwise: bool, runs: seq<Bounds>) returns (es: seq<Event>)
    requires forall k :: 0 <= k < |runs| ==> Vertical(runs[k])
    ensures Counted(es, a, clockwise, runs)
  {
    hide Counted;
    es := [];
    NothingCounted(a, clockwise);
    for k := 0 to |runs|
      invariant Counted(es, a, clockwise, runs[..k])
    {
      CountedStep(es, a, clockwise, runs[..k], runs[k]);
      es := es + RunEvents(a, clockwise, runs[k]);
      assert runs[..k] + [runs[k]] == runs[..k + 1];
    }
    assert runs[..|runs|] == runs;
  }

  lemma NothingCounted(a: Bounds, clockwise: bool)
    ensures Counted([], a, clockwise, [])
  {
  }

  lemma CountedPermuted(es: seq<Event>, es': seq<Event>, a: Bounds, clockwise: bool, runs: seq<Bounds>)
    requires Counted(es, a, clockwise, runs) && multiset(es) == multiset(es')
    ensures Counted(es', a, clockwise, runs)
  {
    forall y, cut ensures SumOf(es', RowWeight(y, cut)) == SumOf(es, RowWeight(y, cut)) {
      SumPermuted(es', es, RowWeight(y, cut));
    }
  }

  lemma {:induction false} DisjointCoversOnce(runs: seq<Bounds>, x: int, y: int)
    requires Disjoint(runs)
    ensures CountHas(runs, x, y) <= 1
  {
    if runs != [] {
      var init, last := runs[..|runs| - 1], runs[|runs| - 1];
      DisjointCoversOnce(init, x, y);
      CountHasMeaning(init, x, y);
    }
  }

  // ---- the active rows ---------------------------------------------------------------------

  /** Inserts or removes a row in the sorted list of active rows. */
  method UpdateActive(active: seq<int>, y: int, delta: int) returns (out: seq<int>)
    requires Increasing(active)
    ensures Increasing(out)
    ensures forall v :: v in out <==> if v == y then delta > 0 || (delta == 0 && y in active) else v in active
  {
    var f := i => 0 <= i < |active| && active[i] >= y;
    var at := Search(|active|, f);
    assert at < |active| ==> f(at);
    forall i | 0 <= i < at ensures active[i] < y { assert !f(i); }
    forall i | at <= i < |active| ensures active[i] >= y { assert f(i); }
    FoundAt(active, at, y);
    out := active;
    if delta > 0 && (at == |active| || active[at] != y) {
      out := active[..at] + [y] + active[at..];
      InsertedAt(active, at, y, out);
    } else if delta < 0 && at < |active| && active[at] == y {
      out := active[..at] + active[at + 1..];
      RemovedAt(active, at, out);
    }
  }

  lemma FoundAt(active: seq<int>, at: nat, y: int)
    requires Increasing(active) && at <= |active|
    requires (forall i :: 0 <= i < at ==> active[i] < y) && (forall i :: at <= i < |active| ==> active[i] >= y)
    ensures y in active <==> at < |active| && active[at] == y
  {
  }

  lemma InsertedAt(active: seq<int>, at: nat, y: int, out: seq<int>)
    requires Increasing(active) && at <= |active| && y !in active && out == active[..at] + [y] + active[at..]
    requires (forall i :: 0 <= i < at ==> active[i] < y) && (forall i :: at <= i < |active| ==> active[i] >= y)
    ensures Increasing(out) && forall v :: v in out <==> v in active || v == y
  {
    assert active == active[..at] + active[at..];
  }

  lemma RemovedAt(active: seq<int>, at: nat, out: seq<int>)
    requires Increasing(active) && at < |active| && out == active[..at] + active[at + 1..]
    ensures Increasing(out) && forall v :: v in out <==> v in active && v != active[at]
  {
    forall v ensures v in out <==> v in active && v != active[at] {
      if v in active && v != active[at] {
        var k :| 0 <= k < |active| && active[k] == v;
        assert out[if k < at then k else k - 1] == v;
      }
      if v in out {
        var k :| 0 <= k < |out| && out[k] == v;
        assert active[if k < at then k else k + 1] == v;
      }
    }
  }

  /** A row is active exactly when the events read so far leave it covered. */
  ghost predicate ActiveRows(active: seq<int>, es: seq<Event>, i: nat)
    requires i <= |es|
  {
    && Increasing(active)
    && forall y :: 0 <= SumOf(es[..i], RowWeight(y, None)) <= 1 &&
                   (y in active <==> SumOf(es[..i], RowWeight(y, None)) == 1)
  }

  /** Every event of row y before position j is at or before column x, every later one after it. */
  lemma RowCut(es: seq<Event>, j: nat, x: int, y: int)
    requires SortedBy(es, EventLe) && j <= |es|
    requires forall k :: 0 <= k < j ==> es[k].x <= x
    requires forall k :: j <= k < |es| && es[k].y == y ==> es[k].x > x
    ensures SumOf(es, RowWeight(y, Some(x))) == SumOf(es[..j], RowWeight(y, None))
  {
    SumCut(es, j, RowWeight(y, Some(x)), RowWeight(y, None));
  }

  lemma RowWeightAt(e: Event, y: int)
    ensures RowWeight(y, None)(e) == if y == e.y then e.delta else 0
  {
  }

  /** Reads the events of one cell boundary and returns their summed delta. */
  method TakeCell(es: seq<Event>, i: nat) returns (j: nat, delta: int)
    requires i < |es| && SortedBy(es, EventLe)
    ensures i < j <= |es|
    ensures forall k :: i <= k < j ==> es[k].x == es[i].x && es[k].y == es[i].y
    ensures j < |es| ==> es[j].x != es[i].x || es[j].y != es[i].y
    ensures forall y :: SumOf(es[..j], RowWeight(y, None))
                     == SumOf(es[..i], RowWeight(y, None)) + if y == es[i].y then delta else 0
  {
    hide RowWeight;
    j, delta := i, 0;
    while j < |es| && es[j].x == es[i].x && es[j].y == es[i].y
      invariant i <= j <= |es| && (j == i ==> delta == 0)
      invariant forall k :: i <= k < j ==> es[k].x == es[i].x && es[k].y == es[i].y
      invariant forall y :: SumOf(es[..j], RowWeight(y, None))
                         == SumOf(es[..i], RowWeight(y, None)) + if y == es[i].y then delta else 0
    {
      assert es[..j + 1][..j] == es[..j];
      forall y ensures RowWeight(y, None)(es[j]) == if y == es[i].y then es[j].delta else 0 { RowWeightAt(es[j], y); }
      delta, j := delta + es[j].delta, j + 1;
    }
  }

  /** After all events of one cell boundary its row is covered zero or one times again. */
  lemma CellKeepsActive(es: seq<Event>, a: Bounds, clockwise: bool, runs: seq<Bounds>, i: nat, j: nat)
    requires SortedBy(es, EventLe) && Counted(es, a, clockwise, runs) && Disjoint(runs)
    requires i < j <= |es| && es[j - 1].x == es[i].x && es[j - 1].y == es[i].y
    requires j < |es| ==> es[j].x != es[i].x || es[j].y != es[i].y
    ensures 0 <= SumOf(es[..j], RowWeight(es[i].y, None)) <= 1
  {
    hide SumOf, RowWeight, Unturn, CountHas, Disjoint;
    var x, y := es[i].x, es[i].y;
    forall k | 0 <= k < j ensures es[k].x <= x { if k < j - 1 { assert EventLe(es[k], es[j - 1]); } }
    forall k | j <= k < |es| && es[k].y == y ensures es[k].x > x {
      assert EventLe(es[j - 1], es[j]);
      if j < k { assert EventLe(es[j], es[k]); }
    }
    RowCut(es, j, x, y);
    var c := Unturn(a, clockwise, (x, y));
    DisjointCoversOnce(runs, c.0, c.1);
  }

  lemma ActiveStep(active: seq<int>, active': seq<int>, es: seq<Event>, i: nat, j: nat, y: int, delta: int)
    requires i < j <= |es| && ActiveRows(active, es, i) && Increasing(active')
    requires forall v :: SumOf(es[..j], RowWeight(v, None))
                      == SumOf(es[..i], RowWeight(v, None)) + if v == y then delta else 0
    requires 0 <= SumOf(es[..j], RowWeight(y, None)) <= 1
    requires forall v :: v in active' <==> if v == y then delta > 0 || (delta == 0 && y in active) else v in active
    ensures ActiveRows(active', es, j)
  {
    hide SumOf, RowWeight;
    forall v
      ensures 0 <= SumOf(es[..j], RowWeight(v, None)) <= 1 &&
        (v in active' <==> SumOf(es[..j], RowWeight(v, None)) == 1)
    {
      assert 0 <= SumOf(es[..i], RowWeight(v, None)) <= 1;
    }
  }

  /** Reads every event of one column and updates the active rows. */
  method TakeColumn(es: seq<Event>, i: nat, active: seq<int>, ghost a: Bounds, ghost clockwise: bool,
                    ghost runs: seq<Bounds>)
    returns (j: nat, out: seq<int>)
    requires i < |es| && SortedBy(es, EventLe) && Counted(es, a, clockwise, runs) && Disjoint(runs)
    requires ActiveRows(active, es, i)
    ensures i < j <= |es| && ActiveRows(out, es, j)
    ensures forall k :: i <= k < j ==> es[k].x == es[i].x
    ensures j < |es| ==> es[i].x < es[j].x
  {
    hide SumOf, RowWeight, Counted, Disjoint, ActiveRows;
    j, out := i, active;
    assert Increasing(active) by { ActiveSorted(active, es, i); }
    while j < |es| && es[j].x == es[i].x
      invariant i <= j <= |es| && ActiveRows(out, es, j) && Increasing(out)
      invariant forall k :: i <= k < j ==> es[k].x == es[i].x
    {
      var k, delta := TakeCell(es, j);
      var next := UpdateActive(out, es[j].y, delta);
      CellKeepsActive(es, a, clockwise, runs, j, k);
      ActiveStep(out, next, es, j, k, es[j].y, delta);
      j, out := k, next;
    }
    if j < |es| { assert EventLe(es[i], es[j]); }
  }

  lemma ActiveSorted(active: seq<int>, es: seq<Event>, i: nat)
    requires i <= |es| && ActiveRows(active, es, i)
    ensures Increasing(active)
  {
  }

  /** Turns the active rows of one column into maximal runs. */
  method EmitColumn(runs: seq<Bounds>, column: int, active: seq<int>) returns (out: seq<Bounds>)
    requires Canonical(runs) && Increasing(active) && (runs != [] ==> runs[|runs| - 1].X1 < column)
    ensures Canonical(out) && (out != [] ==> out[|out| - 1].X1 <= column)
    ensures forall u, v :: InRuns(out, u, v) <==> InRuns(runs, u, v) || (u == column && v in active)
  {
    hide InRuns, Canonical;
    out := runs;
    var row := 0;
    while row < |active|
      invariant 0 <= row <= |active| && Canonical(out)
      invariant out != [] ==>
        (var last := out[|out| - 1];
         last.X1 < column || (last.X1 == column && (row < |active| ==> last.Y2 + 1 < active[row])))
      invariant forall u, v :: InRuns(out, u, v) <==> InRuns(runs, u, v) || (u == column && v in active[..row])
    {
      var low, high, start := active[row], active[row], row;
      row := row + 1;
      while row < |active| && active[row] == high + 1
        invariant start < row <= |active| && high == active[row - 1]
        invariant forall v :: low <= v <= high <==> v in active[start..row]
      {
        assert active[start..row + 1] == active[start..row] + [active[row]];
        high := active[row];
        row := row + 1;
      }
      var r := Run(column, low, high);
      assert Extend(out, r) == out + [r];
      ExtendCanonical(out, r);
      forall u, v ensures InRuns(out + [r], u, v) <==> InRuns(runs, u, v) || (u == column && v in active[..row]) {
        ExtendMembers(out, r, u, v);
        assert active[..row] == active[..start] + active[start..row];
      }
      out := out + [r];
    }
    assert active[..|active|] == active;
  }

  /** The rotated mask covers the cell. */
  ghost predicate Covered(es: seq<Event>, u: int, v: int) { SumOf(es, RowWeight(v, Some(u))) > 0 }

  lemma CoveredIsActive(es: seq<Event>, active: seq<int>, i: nat, j: nat, u: int, v: int)
    requires SortedBy(es, EventLe) && i < j <= |es| && ActiveRows(active, es, j)
    requires forall k :: i <= k < j ==> es[k].x == es[i].x
    requires es[i].x <= u && (j < |es| ==> u < es[j].x)
    ensures Covered(es, u, v) <==> v in active
  {
    forall k | 0 <= k < j ensures es[k].x <= u { if k < i { assert EventLe(es[k], es[i]); } }
    forall k | j <= k < |es| && es[k].y == v ensures es[k].x > u { if j < k { assert EventLe(es[j], es[k]); } }
    RowCut(es, j, u, v);
  }

  lemma NotYetCovered(es: seq<Event>, u: int, v: int)
    requires SortedBy(es, EventLe) && (|es| > 0 ==> u < es[0].x)
    ensures !Covered(es, u, v)
  {
    forall k | 0 <= k < |es| ensures es[k].x > u { if 0 < k { assert EventLe(es[0], es[k]); } }
    SumZero(es, RowWeight(v, Some(u)));
  }

  /** Everything left of column u has been emitted. */
  ghost predicate Emitted(out: seq<Bounds>, es: seq<Event>, x: int) {
    && Canonical(out) && (out != [] ==> out[|out| - 1].X1 < x)
    && forall u, v :: InRuns(out, u, v) <==> u < x && Covered(es, u, v)
  }

  /** Emits the columns over which the active rows stay the same. */
  method EmitColumns(out0: seq<Bounds>, es: seq<Event>, i: nat, j: nat, active: seq<int>) returns (out: seq<Bounds>)
    requires SortedBy(es, EventLe) && i < j < |es| && es[i].x < es[j].x && ActiveRows(active, es, j)
    requires forall k :: i <= k < j ==> es[k].x == es[i].x
    requires Emitted(out0, es, es[i].x)
    ensures Emitted(out, es, es[j].x)
  {
    hide InRuns, Canonical, Covered, ActiveRows;
    ActiveSorted(active, es, j);
    out := out0;
    for column := es[i].x to es[j].x
      invariant Emitted(out, es, column)
    {
      forall v ensures Covered(es, column, v) <==> v in active {
        CoveredIsActive(es, active, i, j, column, v);
      }
      out := EmitColumn(out, column, active);
    }
  }

  /** The whole sweep: the runs of the quarter turn. */
  method SweepTurn(a: Bounds, clockwise: bool, runs: seq<Bounds>) returns (out: seq<Bounds>)
    requires Disjoint(runs)
    ensures Canonical(out)
    ensures forall u, v :: InRuns(out, u, v) <==>
      InRuns(runs, Unturn(a, clockwise, (u, v)).0, Unturn(a, clockwise, (u, v)).1)
  {
    hide InRuns, Canonical, Counted, Covered, Unturn, SumOf, RowWeight;
    var unsorted := BuildEvents(a, clockwise, runs);
    var es := Sort(unsorted, EventLe);
    CountedPermuted(unsorted, es, a, clockwise, runs);
    var active, i: nat := [], 0;
    out := [];
    NothingEmitted(es);
    NoActive(es);
    while i < |es|
      invariant i <= |es| && ActiveRows(active, es, i) && Canonical(out)
      invariant i < |es| ==> Emitted(out, es, es[i].x)
      invariant i == |es| ==> forall u, v :: InRuns(out, u, v) <==> Covered(es, u, v)
    {
      var j, next := TakeColumn(es, i, active, a, clockwise, runs);
      if j < |es| {
        if next != [] {
          out := EmitColumns(out, es, i, j, next);
        } else {
          NothingToEmit(out, es, i, j);
        }
      } else {
        LastColumn(out, es, i, next, a, clockwise, runs);
      }
      i, active := j, next;
    }
    forall u, v ensures Covered(es, u, v) <==>
      InRuns(runs, Unturn(a, clockwise, (u, v)).0, Unturn(a, clockwise, (u, v)).1) {
      CoveredMeaning(es, a, clockwise, runs, u, v);
    }
  }

  lemma CoveredMeaning(es: seq<Event>, a: Bounds, clockwise: bool, runs: seq<Bounds>, u: int, v: int)
    requires Counted(es, a, clockwise, runs)
    ensures Covered(es, u, v) <==> InRuns(runs, Unturn(a, clockwise, (u, v)).0, Unturn(a, clockwise, (u, v)).1)
  {
    CountHasMeaning(runs, Unturn(a, clockwise, (u, v)).0, Unturn(a, clockwise, (u, v)).1);
  }

  lemma NothingEmitted(es: seq<Event>)
    requires SortedBy(es, EventLe)
    ensures |es| > 0 ==> Emitted([], es, es[0].x)
    ensures |es| == 0 ==> forall u, v :: InRuns([], u, v) <==> Covered(es, u, v)
    ensures Canonical([])
  {
    hide Covered;
    forall u, v | |es| > 0 ==> u < es[0].x ensures !Covered(es, u, v) { NotYetCovered(es, u, v); }
  }

  lemma NoActive(es: seq<Event>)
    ensures ActiveRows([], es, 0)
  {
    assert es[..0] == [];
  }

  lemma NothingToEmit(out: seq<Bounds>, es: seq<Event>, i: nat, j: nat)
    requires SortedBy(es, EventLe) && i < j < |es| && es[i].x < es[j].x && ActiveRows([], es, j)
    requires forall k :: i <= k < j ==> es[k].x == es[i].x
    requires Emitted(out, es, es[i].x)
    ensures Emitted(out, es, es[j].x)
  {
    hide Covered, InRuns, Canonical, ActiveRows;
    forall u, v | es[i].x <= u < es[j].x ensures !Covered(es, u, v) { CoveredIsActive(es, [], i, j, u, v); }
  }

  /** After the last event nothing is covered any more. */
  lemma LastColumn(out: seq<Bounds>, es: seq<Event>, i: nat, active: seq<int>, a: Bounds, clockwise: bool,
                   runs: seq<Bounds>)
    requires SortedBy(es, EventLe) && i < |es| && ActiveRows(active, es, |es|) && Counted(es, a, clockwise, runs)
    requires forall k :: i <= k < |es| ==> es[k].x == es[i].x
    requires Emitted(out, es, es[i].x)
    ensures forall u, v :: InRuns(out, u, v) <==> Covered(es, u, v)
  {
    hide Covered, InRuns, Canonical, SumOf, RowWeight;
    assert es[..|es|] == es;
    forall u, v | es[i].x <= u ensures !Covered(es, u, v) {
      CoveredIsActive(es, active, i, |es|, u, v);
      assert SumOf(es, RowWeight(v, None)) == 0;
    }
  }

  // ---- selections ------------------------------------------------------------------------------

  /** A level and tiles that a map can have. */
  predicate OnMapRuns(runs: seq<Bounds>, level: int) {
    level >= 1 && forall k :: 0 <= k < |runs| ==> runs[k].X1 >= 1 && runs[k].Y1 >= 1
  }

  /** selectionFromSortedSpans: bounds and count of canonical runs, or nothing for invalid tiles. */
  method SelectionFromSortedSpans(runs: seq<Bounds>, level: int) returns (s: Selection)
    requires Canonical(runs)
    ensures s.Valid()
    ensures runs != [] && OnMapRuns(runs, level) ==> s.AbsRuns() == runs && s.z == level && s.IsTight() && s.runBased
    ensures runs != [] && !OnMapRuns(runs, level) ==> s == NO_SELECTION
    ensures runs == [] ==> s.Len() == 0 && s.z == 0
  {
    hide InRuns, Tight, CountRuns;
    var m := Mask(Bounds(0, 0, 0, 0), [], 0);
    EmptyMaskOk(m);
    for k := 0 to |runs|
      invariant MaskOk(m) && m.runs == runs[..k] && (k > 0 ==> OnMapRuns(runs[..k], level))
    {
      if runs[k].X1 < 1 || runs[k].Y1 < 1 || level < 1 { return NO_SELECTION; }
      if k > 0 { assert Before(runs[k - 1], runs[k]); }
      assert runs[..k + 1] == runs[..k] + [runs[k]];
      m := AppendRun(m, runs[k]);
    }
    assert runs[..|runs|] == runs;
    FromMaskMeaning(m, if m.count > 0 then level else 0);
    CountPositive(m.runs);
    s := FromMask(m, if m.count > 0 then level else 0);
  }

  lemma EmptyMaskOk(m: Mask)
    requires m.runs == [] && m.count == 0
    ensures MaskOk(m)
  {
  }

  /** `out` is `runs` turned by a quarter about the lower left corner of the rectangle `a`. */
  ghost predicate TurnedRuns(a: Bounds, clockwise: bool, runs: seq<Bounds>, out: seq<Bounds>) {
    forall u, v :: InRuns(out, u, v) <==>
      InRuns(runs, Unturn(a, clockwise, (u, v)).0, Unturn(a, clockwise, (u, v)).1)
  }

  /** r is s turned by a quarter about the lower left corner of the bounds of s. */
  ghost predicate IsTurn(s: Selection, r: Selection, clockwise: bool) {
    r.z == s.z && r.IsTight() && TurnedRuns(s.area, clockwise, s.AbsRuns(), r.AbsRuns())
  }

  /** A nonempty selection of valid tiles. */
  ghost predicate Placed(s: Selection) {
    s.Valid() && s.z >= 1 && s.area.X1 >= 1 && s.area.Y1 >= 1 && s.AbsRuns() != []
  }

  /** r is the turned mask, or nothing when there is none or some of it lies off the map. */
  ghost predicate IsRotation(s: Selection, clockwise: bool, out: seq<Bounds>, r: Selection) {
    && TurnedRuns(s.area, clockwise, s.AbsRuns(), out) && Canonical(out)
    && (if out == [] then r.Len() == 0 && r.z == 0
        else if OnMapRuns(out, s.z) then IsTurn(s, r, clockwise) && r.AbsRuns() == out else r == NO_SELECTION)
  }

  /** Selection.Rotate. */
  method Rotate(s: Selection, clockwise: bool) returns (r: Selection)
    requires s.Valid()
    ensures r.Valid()
    ensures Placed(s) ==> IsTurn(s, r, clockwise)
    ensures s.Sparse() ==> exists out :: IsRotation(s, clockwise, out, r)
    ensures !s.Sparse() ==>
      r == RectangleSelection(Bounds(s.area.X1, s.area.Y1, s.area.X1 + s.area.Y2 - s.area.Y1,
                                     s.area.Y1 + s.area.X2 - s.area.X1), s.z)
  {
    hide InRuns, Tight, Canonical, TurnedRuns, Unturn;
    if !s.Sparse() {
      var w, h := s.area.X2 - s.area.X1 + 1, s.area.Y2 - s.area.Y1 + 1;
      r := RectangleSelection(Bounds(s.area.X1, s.area.Y1, s.area.X1 + h - 1, s.area.Y1 + w - 1), s.z);
      if Placed(s) { RectangleTurn(s, r, clockwise); }
    } else {
      var runs := s.AbsRuns();
      ShiftedCanonical(s.runs, s.offset.X, s.offset.Y);
      CanonicalIsDisjoint(runs);
      var out := SweepTurn(s.area, clockwise, runs);
      r := SelectionFromSortedSpans(out, s.z);
      TurnedRunsIntro(s.area, clockwise, runs, out);
      assert IsRotation(s, clockwise, out, r);
      if Placed(s) {
        assert Covers(s.area, runs);
        TurnIsPositive(s.area, clockwise, runs, out);
      }
    }
  }

  lemma TurnedRunsIntro(a: Bounds, clockwise: bool, runs: seq<Bounds>, out: seq<Bounds>)
    requires forall u, v :: InRuns(out, u, v) <==>
      InRuns(runs, Unturn(a, clockwise, (u, v)).0, Unturn(a, clockwise, (u, v)).1)
    ensures TurnedRuns(a, clockwise, runs, out)
  {
  }

  lemma SingleRun(b: Bounds, x: int, y: int)
    ensures InRuns([b], x, y) <==> b.Has(x, y)
  {
    assert InRuns([b], x, y) <==> [b][0].Has(x, y);
  }

  lemma RectangleTight(b: Bounds)
    requires b.X1 <= b.X2 && b.Y1 <= b.Y2
    ensures Tight(b, [b])
  {
    hide InRuns;
    forall x, y ensures InRuns([b], x, y) <==> b.Has(x, y) { SingleRun(b, x, y); }
    assert InRuns([b], b.X1, b.Y1) && InRuns([b], b.X2, b.Y1) && InRuns([b], b.X1, b.Y2);
  }

  lemma RectangleTurnedRuns(a: Bounds, clockwise: bool, b: Bounds)
    requires b == Bounds(a.X1, a.Y1, a.X1 + (a.Y2 - a.Y1), a.Y1 + (a.X2 - a.X1))
    ensures TurnedRuns(a, clockwise, [a], [b])
  {
    hide InRuns;
    forall u, v
      ensures InRuns([b], u, v) <==> InRuns([a], Unturn(a, clockwise, (u, v)).0, Unturn(a, clockwise, (u, v)).1)
    {
      SingleRun(b, u, v);
      SingleRun(a, Unturn(a, clockwise, (u, v)).0, Unturn(a, clockwise, (u, v)).1);
    }
  }

  lemma RectangleTurn(s: Selection, r: Selection, clockwise: bool)
    requires Placed(s) && !s.Sparse()
    requires r == RectangleSelection(Bounds(s.area.X1, s.area.Y1, s.area.X1 + (s.area.Y2 - s.area.Y1),
                                            s.area.Y1 + (s.area.X2 - s.area.X1)), s.z)
    ensures IsTurn(s, r, clockwise)
  {
    hide InRuns, Tight, Canonical, TurnedRuns, Unturn;
    Product(s.area.X2 - s.area.X1, s.area.Y2 - s.area.Y1);
    Product(r.area.X2 - r.area.X1, r.area.Y2 - r.area.Y1);
    RectangleTight(r.area);
    RectangleTurnedRuns(s.area, clockwise, r.area);
  }

  /** Tiles turned inside their own bounds stay on the map. */
  lemma TurnIsPositive(a: Bounds, clockwise: bool, runs: seq<Bounds>, out: seq<Bounds>)
    requires TurnedRuns(a, clockwise, runs, out) && Canonical(out) && Canonical(runs) && runs != []
    requires Covers(a, runs) && a.X1 >= 1 && a.Y1 >= 1
    ensures out != [] && forall k :: 0 <= k < |out| ==> out[k].X1 >= 1 && out[k].Y1 >= 1
  {
    hide InRuns;
    forall k | 0 <= k < |out| ensures out[k].X1 >= 1 && out[k].Y1 >= 1 {
      RunStart(out, k);
    }
    RunStart(runs, 0);
    TurnMember(a, clockwise, runs, out, runs[0].X1, runs[0].Y1);
    if out == [] {
      NoRuns(Turn(a, clockwise, (runs[0].X1, runs[0].Y1)).0, Turn(a, clockwise, (runs[0].X1, runs[0].Y1)).1);
    }
  }

  lemma RunStart(runs: seq<Bounds>, k: nat)
    requires k < |runs| && Vertical(runs[k])
    ensures InRuns(runs, runs[k].X1, runs[k].Y1)
  {
    assert runs[k].Has(runs[k].X1, runs[k].Y1);
  }

  lemma UnturnMember(a: Bounds, clockwise: bool, runs: seq<Bounds>, out: seq<Bounds>, u: int, v: int)
    requires TurnedRuns(a, clockwise, runs, out)
    ensures InRuns(out, u, v) <==> InRuns(runs, Unturn(a, clockwise, (u, v)).0, Unturn(a, clockwise, (u, v)).1)
  {
  }

  lemma TurnMember(a: Bounds, clockwise: bool, runs: seq<Bounds>, out: seq<Bounds>, x: int, y: int)
    requires TurnedRuns(a, clockwise, runs, out)
    ensures InRuns(out, Turn(a, clockwise, (x, y)).0, Turn(a, clockwise, (x, y)).1) <==> InRuns(runs, x, y)
  {
    hide InRuns;
    var c := Turn(a, clockwise, (x, y));
    assert Unturn(a, clockwise, c) == (x, y);
  }

  /** A turn keeps the number of selected tiles. */
  lemma TurnKeepsLen(s: Selection, r: Selection, clockwise: bool)
    requires Placed(s) && IsTurn(s, r, clockwise)
    ensures r.Len() == s.Len()
  {
    hide InRuns, Tight, Canonical, RunCells;
    LenIsCardinality(s);
    LenIsCardinality(r);
    var cs, cr := RunCells(s.AbsRuns()), RunCells(r.AbsRuns());
    forall c: Cell ensures c in cr <==> Unturn(s.area, clockwise, c) in cs {
      var d := Unturn(s.area, clockwise, c);
      RunCellsMember(r.AbsRuns(), c.0, c.1);
      RunCellsMember(s.AbsRuns(), d.0, d.1);
    }
    TurnedSetSize(s.area, clockwise, cs, cr);
  }

  lemma {:induction false} TurnedSetSize(a: Bounds, clockwise: bool, cs: set<Cell>, cr: set<Cell>)
    requires forall c: Cell :: c in cr <==> Unturn(a, clockwise, c) in cs
    ensures |cr| == |cs|
    decreases cs
  {
    if cs == {} {
      assert forall c :: c !in cr;
      assert cr == {};
    } else {
      var d :| d in cs;
      var c := Turn(a, clockwise, d);
      assert Unturn(a, clockwise, c) == d;
      forall e: Cell ensures e in cr - {c} <==> Unturn(a, clockwise, e) in cs - {d} {
        assert Turn(a, clockwise, Unturn(a, clockwise, e)) == e;
      }
      TurnedSetSize(a, clockwise, cs - {d}, cr - {c});
    }
  }

  // ---- whole turns ---------------------------------------------------------------------------------

  /** Where the tight bounds of a mask go under a quarter turn about looser bounds. */
  function TurnBox(a: Bounds, clockwise: bool, box: Bounds): Bounds {
    if clockwise then
      Bounds(a.X1 + (box.Y1 - a.Y1), a.Y1 + (a.X2 - box.X2), a.X1 + (box.Y2 - a.Y1), a.Y1 + (a.X2 - box.X1))
    else Bounds(a.X1 + (a.Y2 - box.Y2), a.Y1 + (box.X1 - a.X1), a.X1 + (a.Y2 - box.Y1), a.Y1 + (box.X2 - a.X1))
  }

  lemma TurnedBounds(a: Bounds, clockwise: bool, runs: seq<Bounds>, out: seq<Bounds>, box: Bounds)
    requires TurnedRuns(a, clockwise, runs, out) && Tight(box, runs)
    ensures Tight(TurnBox(a, clockwise, box), out)
  {
    hide InRuns, TurnedRuns;
    forall u, v | InRuns(out, u, v) ensures TurnBox(a, clockwise, box).Has(u, v) {
      UnturnMember(a, clockwise, runs, out, u, v);
    }
    var p :| InRuns(runs, box.X1, p);
    var q :| InRuns(runs, box.X2, q);
    var u :| InRuns(runs, u, box.Y1);
    var w :| InRuns(runs, w, box.Y2);
    TurnMember(a, clockwise, runs, out, box.X1, p);
    TurnMember(a, clockwise, runs, out, box.X2, q);
    TurnMember(a, clockwise, runs, out, u, box.Y1);
    TurnMember(a, clockwise, runs, out, w, box.Y2);
  }

  /** A turned selection has the turned bounds. */
  lemma TurnedArea(s: Selection, r: Selection, clockwise: bool, box: Bounds)
    requires IsTurn(s, r, clockwise) && Tight(box, s.AbsRuns())
    ensures r.area == TurnBox(s.area, clockwise, box)
  {
    hide InRuns, Tight, Canonical, TurnedRuns;
    TurnedBounds(s.area, clockwise, s.AbsRuns(), r.AbsRuns(), box);
    TightIsUnique(TurnBox(s.area, clockwise, box), r.area, r.AbsRuns());
  }

  /** The same mask, moved by (dx, dy). */
  ghost predicate MovedRuns(runs: seq<Bounds>, out: seq<Bounds>, dx: int, dy: int) {
    forall x, y :: InRuns(out, x, y) <==> InRuns(runs, x - dx, y - dy)
  }

  /** The offset a first turn about loose bounds leaves behind: (dx, dy). */
  function Slip(area: Bounds, clockwise: bool, box: Bounds): (int, int) {
    (TurnBox(area, clockwise, box).X1 - box.X1, TurnBox(area, clockwise, box).Y1 - box.Y1)
  }

  lemma FourTurnsMove(a: Bounds, clockwise: bool, box: Bounds, r0: seq<Bounds>, r1: seq<Bounds>, r2: seq<Bounds>,
                      r3: seq<Bounds>, r4: seq<Bounds>)
    requires var b := TurnBox(a, clockwise, box);
      && TurnedRuns(a, clockwise, r0, r1) && TurnedRuns(b, clockwise, r1, r2)
      && TurnedRuns(TurnBox(b, clockwise, b), clockwise, r2, r3)
      && TurnedRuns(b, clockwise, r3, r4)
    ensures MovedRuns(r0, r4, Slip(a, clockwise, box).0, Slip(a, clockwise, box).1)
  {
    hide InRuns, TurnedRuns;
    var b := TurnBox(a, clockwise, box);
    var c := TurnBox(b, clockwise, b);
    forall x, y ensures InRuns(r4, x, y) <==> InRuns(r0, x - Slip(a, clockwise, box).0, y - Slip(a, clockwise, box).1) {
      var p3 := Unturn(b, clockwise, (x, y));
      var p2 := Unturn(c, clockwise, p3);
      var p1 := Unturn(b, clockwise, p2);
      var p0 := Unturn(a, clockwise, p1);
      UnturnMember(b, clockwise, r3, r4, x, y);
      UnturnMember(c, clockwise, r2, r3, p3.0, p3.1);
      UnturnMember(b, clockwise, r1, r2, p2.0, p2.1);
      UnturnMember(a, clockwise, r0, r1, p1.0, p1.1);
      assert p0 == (x - Slip(a, clockwise, box).0, y - Slip(a, clockwise, box).1);
    }
  }

  lemma TurnBackMoves(a: Bounds, clockwise: bool, box: Bounds, r0: seq<Bounds>, r1: seq<Bounds>, r2: seq<Bounds>)
    requires TurnedRuns(a, clockwise, r0, r1) && TurnedRuns(TurnBox(a, clockwise, box), !clockwise, r1, r2)
    ensures MovedRuns(r0, r2, Slip(a, clockwise, box).0, Slip(a, clockwise, box).1)
  {
    hide InRuns, TurnedRuns;
    var b := TurnBox(a, clockwise, box);
    forall x, y ensures InRuns(r2, x, y) <==> InRuns(r0, x - Slip(a, clockwise, box).0, y - Slip(a, clockwise, box).1) {
      var p1 := Unturn(b, !clockwise, (x, y));
      UnturnMember(b, !clockwise, r1, r2, x, y);
      UnturnMember(a, clockwise, r0, r1, p1.0, p1.1);
      assert Unturn(a, clockwise, p1) == (x - Slip(a, clockwise, box).0, y - Slip(a, clockwise, box).1);
    }
  }

  ghost predicate SameMask(s: Selection, r: Selection) {
    r.z == s.z && forall x, y :: InRuns(r.AbsRuns(), x, y) <==> InRuns(s.AbsRuns(), x, y)
  }

  lemma MoveMember(runs: seq<Bounds>, out: seq<Bounds>, dx: int, dy: int, x: int, y: int)
    requires MovedRuns(runs, out, dx, dy)
    ensures InRuns(out, x + dx, y + dy) <==> InRuns(runs, x, y)
  {
    hide InRuns;
    assert InRuns(out, x + dx, y + dy) <==> InRuns(runs, x + dx - dx, y + dy - dy);
  }

  lemma MovedBounds(runs: seq<Bounds>, out: seq<Bounds>, dx: int, dy: int, box: Bounds)
    requires MovedRuns(runs, out, dx, dy) && Tight(box, runs)
    ensures Tight(box.Plus(dx, dy), out)
  {
    hide InRuns;
    var p :| InRuns(runs, box.X1, p);
    var q :| InRuns(runs, box.X2, q);
    var u :| InRuns(runs, u, box.Y1);
    var w :| InRuns(runs, w, box.Y2);
    MoveMember(runs, out, dx, dy, box.X1, p);
    MoveMember(runs, out, dx, dy, box.X2, q);
    MoveMember(runs, out, dx, dy, u, box.Y1);
    MoveMember(runs, out, dx, dy, w, box.Y2);
  }

  /** A nonempty mask equals its translation only when the translation is zero. */
  lemma MovedIsSame(s: Selection, r: Selection, dx: int, dy: int, box: Bounds)
    requires r.z == s.z && MovedRuns(s.AbsRuns(), r.AbsRuns(), dx, dy) && Tight(box, s.AbsRuns())
    ensures SameMask(s, r) <==> dx == 0 && dy == 0
  {
    hide InRuns;
    if SameMask(s, r) {
      MovedBounds(s.AbsRuns(), r.AbsRuns(), dx, dy, box);
      assert Tight(box, r.AbsRuns());
      TightIsUnique(box, box.Plus(dx, dy), r.AbsRuns());
    }
  }

  /** The bounds are as far from the mask on the left, at the bottom and on the side turned down. */
  predicate EvenGaps(area: Bounds, clockwise: bool, box: Bounds) {
    && box.X1 - area.X1 == box.Y1 - area.Y1
    && box.Y1 - area.Y1 == if clockwise then area.X2 - box.X2 else area.Y2 - box.Y2
  }

  /** Four quarter turns give back the mask exactly when the gaps between the stored bounds
      and the mask are even; tight bounds always are. */
  lemma FourTurnsIdentity(s0: Selection, s1: Selection, s2: Selection, s3: Selection, s4: Selection, clockwise: bool,
                          box: Bounds)
    requires IsTurn(s0, s1, clockwise) && IsTurn(s1, s2, clockwise) && IsTurn(s2, s3, clockwise) &&
      IsTurn(s3, s4, clockwise)
    requires Tight(box, s0.AbsRuns())
    ensures SameMask(s0, s4) <==> EvenGaps(s0.area, clockwise, box)
    ensures s0.area == box ==> SameMask(s0, s4) && s4.area == s0.area
  {
    hide InRuns, Tight, Canonical, TurnedRuns, SameMask;
    TurnedArea(s0, s1, clockwise, box);
    TurnedArea(s1, s2, clockwise, s1.area);
    TurnedArea(s2, s3, clockwise, s2.area);
    TurnedArea(s3, s4, clockwise, s3.area);
    FourTurnsMove(s0.area, clockwise, box, s0.AbsRuns(), s1.AbsRuns(), s2.AbsRuns(), s3.AbsRuns(), s4.AbsRuns());
    MovedIsSame(s0, s4, Slip(s0.area, clockwise, box).0, Slip(s0.area, clockwise, box).1, box);
  }

  /** A turn and its inverse give back the mask exactly under the same condition. */
  lemma TurnBackIdentity(s0: Selection, s1: Selection, s2: Selection, clockwise: bool, box: Bounds)
    requires IsTurn(s0, s1, clockwise) && IsTurn(s1, s2, !clockwise) && Tight(box, s0.AbsRuns())
    ensures SameMask(s0, s2) <==> EvenGaps(s0.area, clockwise, box)
    ensures s0.area == box ==> SameMask(s0, s2)
  {
    hide InRuns, Tight, Canonical, TurnedRuns, SameMask;
    TurnedArea(s0, s1, clockwise, box);
    TurnBackMoves(s0.area, clockwise, box, s0.AbsRuns(), s1.AbsRuns(), s2.AbsRuns());
    MovedIsSame(s0, s2, Slip(s0.area, clockwise, box).0, Slip(s0.area, clockwise, box).1, box);
  }
}
