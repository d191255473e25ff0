/** Set algebra on selections by sweeping run boundaries
    (internal/aphelion/editing/working_selection.go:46-122). */
module CombineSelections {
  import opened Basics
  import opened Runs
  import opened Sorting
  import opened Sums
  import opened SelectionModel

  datatype SelectionOperation = Replace | Add | Subtract | Intersect

  predicate Picks(op: SelectionOperation, a: bool, b: bool) {
    match op
    case Replace => b
    case Add => a || b
    case Subtract => a && !b
    case Intersect => a && b
  }

  /** A change of the two coverage counters at height y. */
  datatype Boundary = Boundary(y: int, a: int, b: int)

  predicate BoundaryLe(e: Boundary, f: Boundary) { e.y <= f.y }

  /** The change an event makes to one counter, if it is at or below the cut. */
  function Weight(e: Boundary, first: bool, cut: Option<int>): int {
    if cut.Some? && e.y > cut.value then 0 else if first then e.a else e.b
  }

  function WeightOf(first: bool, cut: Option<int>): Boundary -> int {
    e => Weight(e, first, cut)
  }

  function Sum(es: seq<Boundary>, first: bool, cut: Option<int>): int { SumOf(es, WeightOf(first, cut)) }

  lemma SumAbove(es: seq<Boundary>, first: bool, y: int)
    requires forall k :: 0 <= k < |es| ==> es[k].y > y
    ensures Sum(es, first, Some(y)) == 0
  {
    SumZero(es, WeightOf(first, Some(y)));
  }

  /** Between two groups of events the counters are the sum of the earlier ones. */
  lemma SumAtCut(es: seq<Boundary>, i: nat, first: bool, y: int)
    requires i <= |es|
    requires (forall k :: 0 <= k < i ==> es[k].y <= y) && (forall k :: i <= k < |es| ==> es[k].y > y)
    ensures Sum(es, first, Some(y)) == Sum(es[..i], first, None)
  {
    SumCut(es, i, WeightOf(first, Some(y)), WeightOf(first, None));
  }

  type Columns = map<int, seq<Boundary>>

  function ColumnOf(columns: Columns, x: int): seq<Boundary> {
    if x in columns then columns[x] else []
  }

  /** Each column's events add up to the coverage of the two run lists. */
  ghost predicate Recorded(columns: Columns, as_: seq<Bounds>, bs: seq<Bounds>) {
    && (forall x, y :: Sum(ColumnOf(columns, x), true, Some(y)) == CountHas(as_, x, y))
    && (forall x, y :: Sum(ColumnOf(columns, x), false, Some(y)) == CountHas(bs, x, y))
    && (forall x, first :: Sum(ColumnOf(columns, x), first, None) == 0)
  }

  /** The two boundary events of one run in one column. */
  function RunEvents(r: Bounds, first: bool): seq<Boundary> {
    if first then [Boundary(r.Y1, 1, 0), Boundary(r.Y2 + 1, -1, 0)]
    else [Boundary(r.Y1, 0, 1), Boundary(r.Y2 + 1, 0, -1)]
  }

  lemma RunEventsSum(es: seq<Boundary>, r: Bounds, first: bool, which: bool, cut: Option<int>)
    requires r.Y1 <= r.Y2
    ensures Sum(es + RunEvents(r, first), which, cut) == Sum(es, which, cut) +
      if which == first && cut.Some? && r.Y1 <= cut.value <= r.Y2 then 1 else 0
  {
    var ev := RunEvents(r, first);
    SumConcat(es, ev, WeightOf(which, cut));
    assert ev[..1] == [ev[0]] && ev[0..1][..0] == [];
    assert Sum([], which, cut) == 0;
    assert Sum([ev[0]], which, cut) == Weight(ev[0], which, cut);
    assert Sum(ev, which, cut) == Weight(ev[0], which, cut) + Weight(ev[1], which, cut);
  }

  /** What the columns of a rectangle left of x add to a counter. */
  function Gain(r: Bounds, x: int, u: int, same: bool, cut: Option<int>): int {
    if same && cut.Some? && u < x && r.Has(u, cut.value) then 1 else 0
  }

  ghost predicate Gained(out: Columns, columns: Columns, r: Bounds, first: bool, x: int) {
    forall u, which, cut :: Sum(ColumnOf(out, u), which, cut)
                         == Sum(ColumnOf(columns, u), which, cut) + Gain(r, x, u, which == first, cut)
  }

  /** Records one rectangle, column by column. */
  method AddRun(columns: Columns, r: Bounds, first: bool) returns (out: Columns)
    requires r.Y1 <= r.Y2
    ensures Gained(out, columns, r, first, Max(r.X1, r.X2 + 1))
  {
    hide Sum;
    out := columns;
    var x := r.X1;
    assert forall u, same, cut :: Gain(r, r.X1, u, same, cut) == 0;
    while x <= r.X2
      invariant r.X1 <= x && (x <= r.X2 || x == Max(r.X1, r.X2 + 1))
      invariant Gained(out, columns, r, first, x)
    {
      ghost var before := out;
      out := out[x := ColumnOf(out, x) + RunEvents(r, first)];
      forall u, which, cut
        ensures Sum(ColumnOf(out, u), which, cut)
             == Sum(ColumnOf(columns, u), which, cut) + Gain(r, x + 1, u, which == first, cut)
      {
        RunEventsSum(ColumnOf(before, x), r, first, which, cut);
      }
      x := x + 1;
    }
  }

  lemma RecordedStep(out: Columns, columns: Columns, r: Bounds, first: bool, runs: seq<Bounds>, other: seq<Bounds>)
    requires Gained(out, columns, r, first, Max(r.X1, r.X2 + 1))
    requires Recorded(columns, if first then runs else other, if first then other else runs)
    ensures Recorded(out, if first then runs + [r] else other, if first then other else runs + [r])
  {
    hide Sum;
    assert (runs + [r])[..|runs|] == runs;
  }

  /** Records every run of one selection. */
  method AddRuns(columns: Columns, runs: seq<Bounds>, first: bool, ghost other: seq<Bounds>) returns (out: Columns)
    requires forall k :: 0 <= k < |runs| ==> runs[k].Y1 <= runs[k].Y2
    requires Recorded(columns, if first then [] else other, if first then other else [])
    ensures Recorded(out, if first then runs else other, if first then other else runs)
  {
    hide Recorded, Gained;
    out := columns;
    for k := 0 to |runs|
      invariant Recorded(out, if first then runs[..k] else other, if first then other else runs[..k])
    {
      ghost var before := out;
      out := AddRun(out, runs[k], first);
      RecordedStep(out, before, runs[k], first, runs[..k], other);
      assert runs[..k] + [runs[k]] == runs[..k + 1];
    }
    assert runs[..|runs|] == runs;
  }

  /** The column meaning of sorted events under an operation. */
  ghost predicate ColumnPicks(op: SelectionOperation, es: seq<Boundary>, y: int) {
    Picks(op, Sum(es, true, Some(y)) > 0, Sum(es, false, Some(y)) > 0)
  }

  /** Where the sweep stands: everything below the next event is decided. */
  ghost predicate Swept(m: Mask, m0: Mask, x: int, es: seq<Boundary>, op: SelectionOperation, i: nat)
    requires i <= |es|
  {
    && MaskOk(m)
    && (forall u, v :: InRuns(m.runs, u, v) <==>
          InRuns(m0.runs, u, v) || (u == x && (i < |es| ==> v < es[i].y) && ColumnPicks(op, es, v)))
    && (m.runs != [] ==>
          var last := m.runs[|m.runs| - 1];
          last.X1 < x || (last.X1 == x && (i < |es| ==> last.Y2 < es[i].y)))
  }

  /** Advances over all events at one height. */
  method TakeGroup(es: seq<Boundary>, i: nat, ac: int, bc: int) returns (j: nat, ac': int, bc': int)
    requires i < |es| && SortedBy(es, BoundaryLe)
    requires ac == Sum(es[..i], true, None) && bc == Sum(es[..i], false, None)
    ensures i < j <= |es|
    ensures forall k :: i <= k < j ==> es[k].y == es[i].y
    ensures j < |es| ==> es[i].y < es[j].y
    ensures ac' == Sum(es[..j], true, None) && bc' == Sum(es[..j], false, None)
  {
    j, ac', bc' := i, ac, bc;
    while j < |es| && es[j].y == es[i].y
      invariant i <= j <= |es|
      invariant forall k :: i <= k < j ==> es[k].y == es[i].y
      invariant ac' == Sum(es[..j], true, None) && bc' == Sum(es[..j], false, None)
    {
      assert es[..j + 1][..j] == es[..j];
      ac', bc', j := ac' + es[j].a, bc' + es[j].b, j + 1;
    }
    if j < |es| { assert BoundaryLe(es[i], es[j]); }
  }

  lemma GroupCut(es: seq<Boundary>, i: nat, j: nat, y: int, first: bool)
    requires i < j <= |es| && SortedBy(es, BoundaryLe) && es[j - 1].y == es[i].y
    requires es[i].y <= y && (j < |es| ==> y < es[j].y)
    ensures Sum(es, first, Some(y)) == Sum(es[..j], first, None)
  {
    forall k | 0 <= k < j ensures es[k].y <= y { if k < j - 1 { assert BoundaryLe(es[k], es[j - 1]); } }
    forall k | j <= k < |es| ensures es[k].y > y { if j < k { assert BoundaryLe(es[j], es[k]); } }
    SumAtCut(es, j, first, y);
  }

  /** The events of one height decide the cells up to the next event. */
  lemma SweptStep(m: Mask, m': Mask, m0: Mask, x: int, es: seq<Boundary>, op: SelectionOperation, i: nat, j: nat,
                  inside: bool)
    requires i < j <= |es| && Swept(m, m0, x, es, op, i) && es[i].y == es[j - 1].y && (j < |es| ==> es[i].y < es[j].y)
    requires forall v :: es[i].y <= v && (j < |es| ==> v < es[j].y) ==> ColumnPicks(op, es, v) == inside
    requires j == |es| ==> !inside
    requires MaskOk(m')
    requires if inside then m'.runs == Extend(m.runs, Run(x, es[i].y, es[j].y - 1)) else m' == m
    requires inside ==> forall u, v :: InRuns(m'.runs, u, v) <==>
      InRuns(m.runs, u, v) || Run(x, es[i].y, es[j].y - 1).Has(u, v)
    ensures Swept(m', m0, x, es, op, j)
  {
    hide ColumnPicks, InRuns, MaskOk;
    forall u, v
      ensures InRuns(m'.runs, u, v) <==>
        InRuns(m0.runs, u, v) || (u == x && (j < |es| ==> v < es[j].y) && ColumnPicks(op, es, v))
    {
      assert v < es[i].y || (es[i].y <= v && (j < |es| ==> v < es[j].y)) || (j < |es| && es[j].y <= v);
    }
  }

  lemma NothingBelow(es: seq<Boundary>, op: SelectionOperation, v: int)
    requires SortedBy(es, BoundaryLe) && op != Replace && (|es| > 0 ==> v < es[0].y)
    ensures !ColumnPicks(op, es, v)
  {
    forall k | 0 <= k < |es| ensures es[k].y > v { if 0 < k { assert BoundaryLe(es[0], es[k]); } }
    SumAbove(es, true, v);
    SumAbove(es, false, v);
  }

  predicate Inside(op: SelectionOperation, ac: int, bc: int) {
    || (op == Add && (ac > 0 || bc > 0))
    || (op == Subtract && ac > 0 && bc == 0)
    || (op == Intersect && ac > 0 && bc > 0)
  }

  lemma GroupDecides(es: seq<Boundary>, op: SelectionOperation, i: nat, j: nat, v: int)
    requires i < j <= |es| && SortedBy(es, BoundaryLe) && es[j - 1].y == es[i].y && op != Replace
    requires es[i].y <= v && (j < |es| ==> v < es[j].y)
    requires Sum(es, false, Some(v)) >= 0
    ensures ColumnPicks(op, es, v) == Inside(op, Sum(es[..j], true, None), Sum(es[..j], false, None))
  {
    GroupCut(es, i, j, v, true);
    GroupCut(es, i, j, v, false);
  }

  /** Sweeps one column and appends its runs to the mask. */
  method SweepColumn(m0: Mask, x: int, es: seq<Boundary>, op: SelectionOperation) returns (m: Mask)
    requires MaskOk(m0) && (m0.runs != [] ==> m0.runs[|m0.runs| - 1].X1 < x) && op != Replace
    requires SortedBy(es, BoundaryLe)
    requires forall first, y :: Sum(es, first, Some(y)) >= 0
    requires forall first :: Sum(es, first, None) == 0
    ensures MaskOk(m) && (m.runs != [] ==> m.runs[|m.runs| - 1].X1 <= x)
    ensures forall u, v :: InRuns(m.runs, u, v) <==> InRuns(m0.runs, u, v) || (u == x && ColumnPicks(op, es, v))
  {
    hide ColumnPicks, Extend, MaskOk, InRuns;
    m := m0;
    var i, ac, bc := 0, 0, 0;
    forall v | |es| > 0 ==> v < es[0].y ensures !ColumnPicks(op, es, v) { NothingBelow(es, op, v); }
    while i < |es|
      invariant 0 <= i <= |es| && Swept(m, m0, x, es, op, i)
      invariant ac == Sum(es[..i], true, None) && bc == Sum(es[..i], false, None)
    {
      var j, ac', bc' := TakeGroup(es, i, ac, bc);
      var inside := Inside(op, ac', bc');
      forall v | es[i].y <= v && (j < |es| ==> v < es[j].y) ensures ColumnPicks(op, es, v) == inside {
        GroupDecides(es, op, i, j, v);
      }
      assert es[..|es|] == es;
      ghost var before := m;
      if inside && j < |es| {
        m := AppendRun(m, Run(x, es[i].y, es[j].y - 1));
      }
      SweptStep(before, m, m0, x, es, op, i, j, inside);
      i, ac, bc := j, ac', bc';
    }
  }

  /** The cells of the columns swept so far. */
  ghost predicate SweptColumns(m: Mask, as_: seq<Bounds>, bs: seq<Bounds>, op: SelectionOperation, xs: seq<int>) {
    && MaskOk(m)
    && (m.runs != [] ==> m.runs[|m.runs| - 1].X1 in xs)
    && forall u, v :: InRuns(m.runs, u, v) <==> u in xs && Picks(op, InRuns(as_, u, v), InRuns(bs, u, v))
  }

  lemma RecordedPicks(columns: Columns, as_: seq<Bounds>, bs: seq<Bounds>, op: SelectionOperation,
                      es: seq<Boundary>, u: int, v: int)
    requires Recorded(columns, as_, bs) && multiset(es) == multiset(ColumnOf(columns, u))
    ensures ColumnPicks(op, es, v) == Picks(op, InRuns(as_, u, v), InRuns(bs, u, v))
    ensures forall first :: Sum(es, first, Some(v)) >= 0 && Sum(es, first, None) == 0
  {
    hide InRuns, Picks;
    CountHasMeaning(as_, u, v);
    CountHasMeaning(bs, u, v);
    forall first, cut ensures Sum(es, first, cut) == Sum(ColumnOf(columns, u), first, cut) {
      SumPermuted(es, ColumnOf(columns, u), WeightOf(first, cut));
    }
  }

  lemma SweptColumnsStep(m0: Mask, m: Mask, as_: seq<Bounds>, bs: seq<Bounds>, op: SelectionOperation,
                         xs: seq<int>, x: int, es: seq<Boundary>)
    requires SweptColumns(m0, as_, bs, op, xs) && MaskOk(m) && (forall k :: 0 <= k < |xs| ==> xs[k] < x)
    requires forall u, v :: InRuns(m.runs, u, v) <==> InRuns(m0.runs, u, v) || (u == x && ColumnPicks(op, es, v))
    requires forall v :: ColumnPicks(op, es, v) == Picks(op, InRuns(as_, x, v), InRuns(bs, x, v))
    requires m.runs != [] ==> m.runs[|m.runs| - 1].X1 <= x
    ensures SweptColumns(m, as_, bs, op, xs + [x])
  {
    hide ColumnPicks, Picks;
    if m.runs != [] {
      var last := m.runs[|m.runs| - 1];
      assert last.Has(last.X1, last.Y1);
      assert InRuns(m.runs, last.X1, last.Y1);
    }
  }

  /** The sweep over all columns of two run lists. */
  method CombineRuns(as_: seq<Bounds>, bs: seq<Bounds>, op: SelectionOperation) returns (m: Mask)
    requires forall k :: 0 <= k < |as_| ==> as_[k].Y1 <= as_[k].Y2
    requires forall k :: 0 <= k < |bs| ==> bs[k].Y1 <= bs[k].Y2
    requires op != Replace
    ensures MaskOk(m)
    ensures forall u, v :: InRuns(m.runs, u, v) <==> Picks(op, InRuns(as_, u, v), InRuns(bs, u, v))
  {
    hide Recorded, MaskOk, InRuns, ColumnPicks;
    var columns: Columns := map[];
    assert Recorded(columns, [], []) by { EmptyRecorded(); }
    columns := AddRuns(columns, as_, true, []);
    columns := AddRuns(columns, bs, false, as_);
    var xs := SortedKeys(columns.Keys);
    m := Mask(Bounds(0, 0, 0, 0), [], 0);
    EmptyMask(m, as_, bs, op);
    for n := 0 to |xs|
      invariant SweptColumns(m, as_, bs, op, xs[..n])
    {
      var x := xs[n];
      var es := Sort(columns[x], BoundaryLe);
      forall v ensures ColumnPicks(op, es, v) == Picks(op, InRuns(as_, x, v), InRuns(bs, x, v))
               ensures forall first :: Sum(es, first, Some(v)) >= 0 && Sum(es, first, None) == 0
      {
        RecordedPicks(columns, as_, bs, op, es, x, v);
      }
      RecordedPicks(columns, as_, bs, op, es, x, 0);
      ghost var before := m;
      m := SweepColumn(m, x, es, op);
      SweptColumnsStep(before, m, as_, bs, op, xs[..n], x, es);
      assert xs[..n] + [x] == xs[..n + 1];
    }
    assert xs[..|xs|] == xs;
    forall u, v | u !in columns ensures !Picks(op, InRuns(as_, u, v), InRuns(bs, u, v)) {
      RecordedPicks(columns, as_, bs, op, [], u, v);
      NothingBelow([], op, v);
    }
  }

  lemma EmptyRecorded()
    ensures Recorded(map[], [], [])
  {
  }

  lemma EmptyMask(m: Mask, as_: seq<Bounds>, bs: seq<Bounds>, op: SelectionOperation)
    requires m.runs == [] && m.count == 0
    ensures SweptColumns(m, as_, bs, op, [])
  {
  }

  /** CombineSelection: on one level the result has exactly the requested membership. */
  method CombineSelection(a: Selection, b: Selection, op: SelectionOperation) returns (r: Selection)
    requires a.Valid() && b.Valid()
    ensures r.Valid()
    ensures a.z == b.z || a.Len() == 0 || b.Len() == 0 || op == Replace ==>
      forall p: Point :: r.Has(p) <==> Picks(op, a.Has(p), b.Has(p))
    ensures !(a.z == b.z || a.Len() == 0 || b.Len() == 0 || op == Replace) ==> r == a
    ensures r == a || r == b || (r.runBased && r.z == a.z && (r.runs != [] && r.z >= 1 ==> r.IsTight()))
  {
    hide InRuns, MaskOk;
    if op == Replace { return b; }
    forall p: Point ensures (a.Len() == 0 ==> !a.Has(p)) && (b.Len() == 0 ==> !b.Has(p)) {
      if a.Len() == 0 { EmptyHasNothing(a, p); }
      if b.Len() == 0 { EmptyHasNothing(b, p); }
    }
    if a.Len() == 0 { return if op == Add then b else a; }
    if b.Len() == 0 { return if op == Intersect then b else a; }
    if a.z != b.z { return a; }
    RunsUpright(a);
    RunsUpright(b);
    var m := CombineRuns(a.AbsRuns(), b.AbsRuns(), op);
    r := FromMask(m, a.z);
    FromMaskMeaning(m, a.z);
  }

  lemma RunsUpright(s: Selection)
    requires s.Valid()
    ensures forall k :: 0 <= k < |s.AbsRuns()| ==> s.AbsRuns()[k].Y1 <= s.AbsRuns()[k].Y2
  {
    if s.Sparse() { ShiftedCanonical(s.runs, s.offset.X, s.offset.Y); }
  }
}
