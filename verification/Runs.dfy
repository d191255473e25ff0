/** Sparse tile masks stored as sorted vertical runs: what they mean as sets of cells. */
module Runs {
  import opened Basics

  datatype Point = Point(X: int, Y: int, Z: int) {
    function Plus(p: Point): Point { Point(X + p.X, Y + p.Y, Z + p.Z) }

    function Minus(p: Point): Point { Point(X - p.X, Y - p.Y, Z - p.Z) }
  }

  /** An inclusive rectangle of cells. */
  datatype Bounds = Bounds(X1: int, Y1: int, X2: int, Y2: int) {
    predicate Has(x: int, y: int) { X1 <= x <= X2 && Y1 <= y <= Y2 }

    function Plus(x: int, y: int): Bounds { Bounds(X1 + x, Y1 + y, X2 + x, Y2 + y) }
  }

  type Cell = (int, int)

  /** Row by row from below, each row from the left, no point twice. */
  ghost predicate InRows(ps: seq<Point>) {
    forall i, j :: 0 <= i < j < |ps| ==>
      ps[i].Y < ps[j].Y ||
      (ps[i].Y == ps[j].Y && (ps[i].X < ps[j].X || (ps[i].X == ps[j].X && ps[i].Z < ps[j].Z)))
  }

  function Run(x: int, y1: int, y2: int): Bounds { Bounds(x, y1, x, y2) }

  /** The cell belongs to some run. */
  ghost predicate InRuns(runs: seq<Bounds>, x: int, y: int) {
    exists k :: 0 <= k < |runs| && runs[k].Has(x, y)
  }

  predicate Vertical(r: Bounds) { r.X1 == r.X2 && r.Y1 <= r.Y2 }

  /** Run a lies in an earlier column than b, or lower in the same one with a gap between. */
  predicate Before(a: Bounds, b: Bounds) { a.X1 < b.X1 || (a.X1 == b.X1 && a.Y2 + 1 < b.Y1) }

  /** Sorted, disjoint and maximal vertical runs. */
  ghost predicate Canonical(runs: seq<Bounds>) {
    && (forall k :: 0 <= k < |runs| ==> Vertical(runs[k]))
    && (forall i, j :: 0 <= i < j < |runs| ==> Before(runs[i], runs[j]))
  }

  /** Sorted and disjoint vertical runs that may touch. */
  ghost predicate Disjoint(runs: seq<Bounds>) {
    && (forall k :: 0 <= k < |runs| ==> Vertical(runs[k]))
    && (forall i, j ::
        0 <= i < j < |runs| ==> runs[i].X1 != runs[j].X1 || runs[i].Y2 < runs[j].Y1 || runs[j].Y2 < runs[i].Y1)
  }

  // ---- cardinality --------------------------------------------------------------

  ghost function RectCells(b: Bounds): set<Cell> {
    set x, y | b.X1 <= x <= b.X2 && b.Y1 <= y <= b.Y2 :: (x, y)
  }

  ghost function RunCells(runs: seq<Bounds>): set<Cell> {
    if runs == [] then {} else RunCells(runs[..|runs| - 1]) + RectCells(runs[|runs| - 1])
  }

  /** The number runCount keeps: run lengths added up. */
  function CountRuns(runs: seq<Bounds>): int {
    if runs == [] then 0
    else CountRuns(runs[..|runs| - 1]) + (runs[|runs| - 1].Y2 - runs[|runs| - 1].Y1 + 1)
  }

  lemma {:induction false} RunCellsMember(runs: seq<Bounds>, x: int, y: int)
    ensures (x, y) in RunCells(runs) <==> InRuns(runs, x, y)
  {
    if runs != [] {
      var init := runs[..|runs| - 1];
      RunCellsMember(init, x, y);
      if InRuns(init, x, y) {
        var k :| 0 <= k < |init| && init[k].Has(x, y);
        assert runs[k].Has(x, y);
      }
      if InRuns(runs, x, y) && !runs[|runs| - 1].Has(x, y) {
        var k :| 0 <= k < |runs| && runs[k].Has(x, y);
        assert init[k].Has(x, y);
      }
    }
  }

  lemma {:induction false} ColumnSize(x: int, y1: int, y2: int)
    requires y1 <= y2 + 1
    ensures |RectCells(Run(x, y1, y2))| == y2 - y1 + 1
    decreases y2 - y1 + 1
  {
    if y1 <= y2 {
      ColumnSize(x, y1, y2 - 1);
      assert RectCells(Run(x, y1, y2)) == RectCells(Run(x, y1, y2 - 1)) + {(x, y2)};
    } else {
      assert RectCells(Run(x, y1, y2)) == {};
    }
  }

  lemma RectSplit(b: Bounds)
    requires b.X1 <= b.X2
    ensures RectCells(b) == RectCells(b.(X2 := b.X2 - 1)) + RectCells(Run(b.X2, b.Y1, b.Y2))
    ensures RectCells(b.(X2 := b.X2 - 1)) !! RectCells(Run(b.X2, b.Y1, b.Y2))
  {
  }

  lemma {:induction false} RectSize(b: Bounds)
    requires b.X1 <= b.X2 + 1 && b.Y1 <= b.Y2 + 1
    ensures |RectCells(b)| == (b.X2 - b.X1 + 1) * (b.Y2 - b.Y1 + 1)
    decreases b.X2 - b.X1 + 1
  {
    hide RectCells;
    if b.X1 <= b.X2 {
      var w, h := b.X2 - b.X1 + 1, b.Y2 - b.Y1 + 1;
      RectSplit(b);
      RectSize(b.(X2 := b.X2 - 1));
      ColumnSize(b.X2, b.Y1, b.Y2);
      calc {
        |RectCells(b)|;
        |RectCells(b.(X2 := b.X2 - 1))| + |RectCells(Run(b.X2, b.Y1, b.Y2))|;
        (w - 1) * h + h;
        w * h;
      }
    } else {
      RectEmpty(b);
    }
  }

  lemma RectEmpty(b: Bounds)
    requires b.X2 < b.X1
    ensures RectCells(b) == {}
  {
  }

  /** The count kept by disjoint runs is the cardinality of the mask. */
  lemma {:induction false} CountIsCardinality(runs: seq<Bounds>)
    requires Disjoint(runs)
    ensures |RunCells(runs)| == CountRuns(runs)
  {
    if runs != [] {
      var init, last := runs[..|runs| - 1], runs[|runs| - 1];
      CountIsCardinality(init);
      ColumnSize(last.X1, last.Y1, last.Y2);
      forall x, y | (x, y) in RunCells(init) ensures (x, y) !in RectCells(last) {
        hide RunCells;
        RunCellsMember(init, x, y);
        var k :| 0 <= k < |init| && init[k].Has(x, y);
        assert runs[k] == init[k];
      }
    }
  }

  lemma CanonicalIsDisjoint(runs: seq<Bounds>)
    requires Canonical(runs)
    ensures Disjoint(runs)
  {
    forall i, j | 0 <= i < j < |runs|
      ensures runs[i].X1 != runs[j].X1 || runs[i].Y2 < runs[j].Y1 || runs[j].Y2 < runs[i].Y1
    {
      assert Before(runs[i], runs[j]);
    }
  }

  /** How many runs of the list cover the cell. */
  function CountHas(runs: seq<Bounds>, x: int, y: int): nat {
    if runs == [] then 0
    else CountHas(runs[..|runs| - 1], x, y) + if runs[|runs| - 1].Has(x, y) then 1 else 0
  }

  lemma {:induction false} CountHasMeaning(runs: seq<Bounds>, x: int, y: int)
    ensures CountHas(runs, x, y) > 0 <==> InRuns(runs, x, y)
  {
    if runs != [] {
      var init := runs[..|runs| - 1];
      CountHasMeaning(init, x, y);
      if InRuns(init, x, y) {
        var k :| 0 <= k < |init| && init[k].Has(x, y);
        assert runs[k].Has(x, y);
      }
      if InRuns(runs, x, y) && !runs[|runs| - 1].Has(x, y) {
        var k :| 0 <= k < |runs| && runs[k].Has(x, y);
        assert init[k].Has(x, y);
      }
    }
  }

  // ---- building runs ----------------------------------------------------------------

  /** Appends a run, extending the last one when it touches it. */
  function Extend(runs: seq<Bounds>, r: Bounds): seq<Bounds> {
    var n := |runs|;
    if n > 0 && runs[n - 1].X1 == r.X1 && runs[n - 1].Y2 + 1 == r.Y1 then
      runs[..n - 1] + [runs[n - 1].(Y2 := r.Y2)]
    else runs + [r]
  }

  /** The run lies strictly after everything in the list, possibly touching it. */
  ghost predicate After(runs: seq<Bounds>, r: Bounds) {
    runs == [] ||
    var last := runs[|runs| - 1];
    last.X1 < r.X1 || (last.X1 == r.X1 && last.Y2 < r.Y1)
  }

  lemma ExtendCanonical(runs: seq<Bounds>, r: Bounds)
    requires Canonical(runs) && Vertical(r) && After(runs, r)
    ensures Canonical(Extend(runs, r))
  {
    var n := |runs|;
    forall i | 0 <= i < n - 1 ensures Before(runs[i], runs[n - 1]) { }
  }

  lemma ExtendMembers(runs: seq<Bounds>, r: Bounds, x: int, y: int)
    requires Canonical(runs) && Vertical(r)
    ensures InRuns(Extend(runs, r), x, y) <==> InRuns(runs, x, y) || r.Has(x, y)
  {
    var n, out := |runs|, Extend(runs, r);
    var merge := n > 0 && runs[n - 1].X1 == r.X1 && runs[n - 1].Y2 + 1 == r.Y1;
    if InRuns(runs, x, y) {
      var k :| 0 <= k < n && runs[k].Has(x, y);
      assert out[k].Has(x, y);
    }
    if r.Has(x, y) { assert out[|out| - 1].Has(x, y); }
    if InRuns(out, x, y) && !r.Has(x, y) {
      var k :| 0 <= k < |out| && out[k].Has(x, y);
      assert k < n && runs[k].Has(x, y);
    }
  }

  lemma ExtendCount(runs: seq<Bounds>, r: Bounds)
    ensures CountRuns(Extend(runs, r)) == CountRuns(runs) + (r.Y2 - r.Y1 + 1)
  {
    var n, out := |runs|, Extend(runs, r);
    if n > 0 && runs[n - 1].X1 == r.X1 && runs[n - 1].Y2 + 1 == r.Y1 {
      assert out[..n - 1] == runs[..n - 1];
    } else {
      assert out[..n] == runs;
    }
  }

  // ---- bounds -------------------------------------------------------------------------

  ghost predicate Covers(area: Bounds, runs: seq<Bounds>) {
    forall x, y :: InRuns(runs, x, y) ==> area.Has(x, y)
  }

  /** The smallest rectangle that covers the mask. */
  ghost predicate Tight(area: Bounds, runs: seq<Bounds>) {
    && Covers(area, runs)
    && (exists y :: InRuns(runs, area.X1, y)) && (exists y :: InRuns(runs, area.X2, y))
    && (exists x :: InRuns(runs, x, area.Y1)) && (exists x :: InRuns(runs, x, area.Y2))
  }

  /** How the sweeps keep the bounds while runs arrive column by column. */
  function Grow(area: Bounds, r: Bounds): Bounds {
    Bounds(area.X1, Min(area.Y1, r.Y1), r.X2, Max(area.Y2, r.Y2))
  }

  lemma GrowTight(area: Bounds, runs: seq<Bounds>, r: Bounds, out: seq<Bounds>)
    requires Tight(area, runs) && Vertical(r) && area.X2 <= r.X1
    requires forall x, y :: InRuns(out, x, y) <==> InRuns(runs, x, y) || r.Has(x, y)
    ensures Tight(Grow(area, r), out)
  {
    var grown := Grow(area, r);
    var a :| InRuns(runs, area.X1, a);
    var b :| InRuns(runs, b, area.Y1);
    var c :| InRuns(runs, c, area.Y2);
    assert InRuns(out, grown.X1, a) && InRuns(out, grown.X2, r.Y1);
    assert InRuns(out, if area.Y1 <= r.Y1 then b else r.X1, grown.Y1);
    assert InRuns(out, if area.Y2 >= r.Y2 then c else r.X1, grown.Y2);
  }

  lemma FirstTight(r: Bounds)
    requires Vertical(r)
    ensures Tight(r, [r])
  {
    assert forall y :: InRuns([r], r.X1, y) <==> [r][0].Has(r.X1, y);
    assert forall x :: InRuns([r], x, r.Y1) <==> [r][0].Has(x, r.Y1);
    assert forall x :: InRuns([r], x, r.Y2) <==> [r][0].Has(x, r.Y2);
    assert InRuns([r], r.X1, r.Y1) && InRuns([r], r.X1, r.Y2);
  }

  lemma NoRuns(x: int, y: int)
    ensures !InRuns([], x, y)
  {
  }

  /** The bounds, count and runs a sweep has produced so far. */
  datatype Mask = Mask(area: Bounds, runs: seq<Bounds>, count: int)

  ghost predicate MaskOk(m: Mask) {
    && Canonical(m.runs) && m.count == CountRuns(m.runs)
    && (m.runs != [] ==> Tight(m.area, m.runs) && m.area.X2 == m.runs[|m.runs| - 1].X1)
  }

  lemma {:induction false} CountPositive(runs: seq<Bounds>)
    requires forall k :: 0 <= k < |runs| ==> Vertical(runs[k])
    ensures CountRuns(runs) >= |runs|
  {
    if runs != [] { CountPositive(runs[..|runs| - 1]); }
  }

  /** One run arrives: the bookkeeping shared by the sweeps. */
  function Appended(m: Mask, r: Bounds): Mask {
    Mask(if m.count == 0 then r else Grow(m.area, r), Extend(m.runs, r), m.count + (r.Y2 - r.Y1 + 1))
  }

  lemma AppendedOk(m: Mask, r: Bounds)
    requires MaskOk(m) && Vertical(r) && After(m.runs, r)
    ensures MaskOk(Appended(m, r))
    ensures forall x, y :: InRuns(Appended(m, r).runs, x, y) <==> InRuns(m.runs, x, y) || r.Has(x, y)
  {
    var out := Appended(m, r);
    CountPositive(m.runs);
    ExtendCanonical(m.runs, r);
    ExtendCount(m.runs, r);
    forall x, y ensures InRuns(out.runs, x, y) <==> InRuns(m.runs, x, y) || r.Has(x, y) {
      ExtendMembers(m.runs, r, x, y);
    }
    if m.runs == [] { FirstTight(r); } else { GrowTight(m.area, m.runs, r, out.runs); }
  }

  method AppendRun(m: Mask, r: Bounds) returns (out: Mask)
    requires MaskOk(m) && Vertical(r) && After(m.runs, r)
    ensures MaskOk(out) && out.runs == Extend(m.runs, r) && out.count == m.count + (r.Y2 - r.Y1 + 1)
    ensures forall x, y :: InRuns(out.runs, x, y) <==> InRuns(m.runs, x, y) || r.Has(x, y)
  {
    out := Appended(m, r);
    AppendedOk(m, r);
  }

  lemma TightIsUnique(a: Bounds, b: Bounds, runs: seq<Bounds>)
    requires Tight(a, runs) && Tight(b, runs)
    ensures a == b
  {
    hide InRuns;
  }
}
