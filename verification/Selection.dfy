/** Immutable selection geometry (internal/aphelion/editing/selection.go): lazy rectangles,
    point masks and run masks, all with one meaning as a set of tiles. */
module SelectionModel {
  import opened Basics
  import opened Runs
  import opened Sorting

  datatype Selection = Selection(area: Bounds, z: int, points: seq<Point>, members: Option<set<Point>>,
                                 offset: Point, runs: seq<Bounds>, runBased: bool, runCount: int) {

    predicate Sparse() { members.Some? || runBased }

    function Len(): int {
      if runBased then runCount
      else if Sparse() then |points|
      else if z == 0 then 0
      else (area.X2 - area.X1 + 1) * (area.Y2 - area.Y1 + 1)
    }

    /** The runs VisitRuns visits, in map coordinates. */
    function AbsRuns(): seq<Bounds> {
      if !Sparse() then (if Len() > 0 then [area] else [])
      else Shifted(runs, offset.X, offset.Y)
    }

    /** Membership: what the selection means. */
    ghost predicate Has(p: Point) { p.Z == z && InRuns(AbsRuns(), p.X, p.Y) }

    ghost predicate Valid() {
      if Sparse() then
        && Canonical(runs)
        && (runs != [] ==> Covers(area, AbsRuns()))
        && (runBased ==> members.None? && runCount == CountRuns(runs))
        && (!runBased ==> PointsMatch())
      else z == 0 || (area.X1 <= area.X2 && area.Y1 <= area.Y2)
    }

    /** A point mask lists its members once each and its runs cover exactly them. */
    ghost predicate PointsMatch() {
      && members.Some? && |points| == CountRuns(runs) && Distinct(points)
      && (forall p :: p in points <==> p in members.value)
      && (forall p :: p in members.value <==> p.Z == z - offset.Z && InRuns(runs, p.X, p.Y))
    }

    /** Nonempty, with the smallest possible bounds. */
    ghost predicate IsTight() { Valid() && z >= 1 && Tight(area, AbsRuns()) }

    function Translate(shift: Point): Selection {
      this.(area := area.Plus(shift.X, shift.Y), z := z + shift.Z, offset := offset.Plus(shift))
    }
  }

  function Shifted(runs: seq<Bounds>, dx: int, dy: int): seq<Bounds> {
    seq(|runs|, k requires 0 <= k < |runs| => runs[k].Plus(dx, dy))
  }

  const MAX_MAP_DIMENSION := 4096

  const NO_SELECTION := Selection(Bounds(0, 0, 0, 0), 0, [], None, Point(0, 0, 0), [], false, 0)

  function RectangleSelection(area: Bounds, z: int): (s: Selection)
    ensures s.Valid()
    ensures forall p: Point :: s.Has(p) <==>
      p.Z == z && z != 0 && Min(area.X1, area.X2) <= p.X <= Max(area.X1, area.X2)
      && Min(area.Y1, area.Y2) <= p.Y <= Max(area.Y1, area.Y2)
  {
    var b := Bounds(Min(area.X1, area.X2), Min(area.Y1, area.Y2), Max(area.X1, area.X2), Max(area.Y1, area.Y2));
    var s := NO_SELECTION.(area := b, z := z);
    assert z != 0 ==> s.Len() > 0 by { Product(b.X2 - b.X1, b.Y2 - b.Y1); }
    assert forall x, y :: InRuns([b], x, y) <==> [b][0].Has(x, y);
    s
  }

  lemma Product(a: nat, b: nat)
    ensures (a + 1) * (b + 1) >= 1
  {
  }

  lemma ShiftedMembers(runs: seq<Bounds>, dx: int, dy: int, x: int, y: int)
    ensures InRuns(Shifted(runs, dx, dy), x, y) <==> InRuns(runs, x - dx, y - dy)
  {
    if InRuns(runs, x - dx, y - dy) {
      var k :| 0 <= k < |runs| && runs[k].Has(x - dx, y - dy);
      assert Shifted(runs, dx, dy)[k].Has(x, y);
    }
    if InRuns(Shifted(runs, dx, dy), x, y) {
      var k :| 0 <= k < |runs| && Shifted(runs, dx, dy)[k].Has(x, y);
      assert runs[k].Has(x - dx, y - dy);
    }
  }

  lemma ShiftedCanonical(runs: seq<Bounds>, dx: int, dy: int)
    requires Canonical(runs)
    ensures Canonical(Shifted(runs, dx, dy))
  {
  }

  lemma {:induction false} ShiftedCount(runs: seq<Bounds>, dx: int, dy: int)
    ensures CountRuns(Shifted(runs, dx, dy)) == CountRuns(runs)
  {
    if runs != [] {
      ShiftedCount(runs[..|runs| - 1], dx, dy);
      assert Shifted(runs, dx, dy)[..|runs| - 1] == Shifted(runs[..|runs| - 1], dx, dy);
    }
  }

  // ---- queries ----------------------------------------------------------------------------

  /** Whether run k of a canonical list ends at or after (x, y) in sweep order. */
  predicate EndsFrom(r: Bounds, x: int, y: int) { r.X1 > x || (r.X1 == x && r.Y2 >= y) }

  /** The binary search over canonical runs decides membership. */
  method SearchRuns(runs: seq<Bounds>, x: int, y: int) returns (found: bool)
    requires Canonical(runs)
    ensures found == InRuns(runs, x, y)
  {
    forall i, j | 0 <= i <= j < |runs| && EndsFrom(runs[i], x, y) ensures EndsFrom(runs[j], x, y) {
      if i < j { assert Before(runs[i], runs[j]); }
    }
    var f := i => 0 <= i < |runs| && EndsFrom(runs[i], x, y);
    var k := Search(|runs|, f);
    assert k < |runs| ==> f(k);
    found := k < |runs| && runs[k].X1 == x && runs[k].Y1 <= y;
    if InRuns(runs, x, y) {
      var m :| 0 <= m < |runs| && runs[m].Has(x, y);
      assert f(m);
      if k < m { assert Before(runs[k], runs[m]); }
    }
  }

  method Contains(s: Selection, p: Point) returns (b: bool)
    requires s.Valid()
    ensures b == s.Has(p)
  {
    if s.Sparse() { ShiftedMembers(s.runs, s.offset.X, s.offset.Y, p.X, p.Y); }
    if s.runBased {
      if p.Z != s.z { return false; }
      var q := p.Minus(s.offset);
      b := SearchRuns(s.runs, q.X, q.Y);
    } else if s.Sparse() {
      b := p.Minus(s.offset) in s.members.value;
    } else {
      b := p.Z == s.z && s.z != 0 && s.area.Has(p.X, p.Y);
      if s.z != 0 { Product(s.area.X2 - s.area.X1, s.area.Y2 - s.area.Y1); }
      assert InRuns([s.area], p.X, p.Y) <==> [s.area][0].Has(p.X, p.Y);
    }
  }

  /** Len is the number of selected tiles. */
  lemma LenIsCardinality(s: Selection)
    requires s.Valid()
    ensures s.Len() == |RunCells(s.AbsRuns())|
  {
    if s.Sparse() {
      ShiftedCanonical(s.runs, s.offset.X, s.offset.Y);
      CanonicalIsDisjoint(s.AbsRuns());
      CountIsCardinality(s.AbsRuns());
      ShiftedCount(s.runs, s.offset.X, s.offset.Y);
    } else if s.z != 0 {
      Product(s.area.X2 - s.area.X1, s.area.Y2 - s.area.Y1);
      assert s.AbsRuns() == [s.area];
      assert RunCells([s.area]) == RunCells([]) + RectCells(s.area);
      RectSize(s.area);
    }
  }

  lemma TranslateMembers(s: Selection, shift: Point, p: Point)
    requires s.Valid() && (s.Sparse() || (s.z == 0 <==> s.z + shift.Z == 0))
    ensures s.Translate(shift).Has(p) <==> s.Has(p.Minus(shift))
  {
    var t := s.Translate(shift);
    if s.Sparse() {
      ShiftedMembers(s.runs, s.offset.X, s.offset.Y, p.X - shift.X, p.Y - shift.Y);
      ShiftedMembers(s.runs, t.offset.X, t.offset.Y, p.X, p.Y);
    } else if s.z != 0 {
      Product(s.area.X2 - s.area.X1, s.area.Y2 - s.area.Y1);
      assert InRuns([s.area], p.X - shift.X, p.Y - shift.Y) <==> [s.area][0].Has(p.X - shift.X, p.Y - shift.Y);
      assert InRuns([t.area], p.X, p.Y) <==> [t.area][0].Has(p.X, p.Y);
    }
  }

  /** An empty selection has no members. */
  lemma EmptyHasNothing(s: Selection, p: Point)
    requires s.Valid() && s.Len() == 0
    ensures !s.Has(p)
  {
    if s.Sparse() { CountPositive(s.runs); }
  }

  /** The run-based selection a sweep's mask becomes. */
  function FromMask(m: Mask, z: int): Selection {
    NO_SELECTION.(area := m.area, z := z, runs := m.runs, runBased := true, runCount := m.count)
  }

  lemma FromMaskMeaning(m: Mask, z: int)
    requires MaskOk(m)
    ensures FromMask(m, z).Valid() && FromMask(m, z).AbsRuns() == m.runs
    ensures m.runs != [] && z >= 1 ==> FromMask(m, z).IsTight()
  {
    assert Shifted(m.runs, 0, 0) == m.runs;
  }

  // ---- point masks --------------------------------------------------------------------------

  predicate PointLe(a: Point, b: Point) { a.X < b.X || (a.X == b.X && a.Y <= b.Y) }

  predicate OnOneLevel(points: seq<Point>) {
    forall k :: 0 <= k < |points| ==>
      points[k].X >= 1 && points[k].Y >= 1 && points[k].Z >= 1 && points[k].Z == points[0].Z
  }

  function Include(area: Bounds, p: Point): Bounds {
    Bounds(Min(area.X1, p.X), Min(area.Y1, p.Y), Max(area.X2, p.X), Max(area.Y2, p.Y))
  }

  /** The smallest rectangle around a nonempty list of points. */
  ghost predicate TightAround(area: Bounds, ps: seq<Point>) {
    && (forall p :: p in ps ==> area.Has(p.X, p.Y))
    && (exists p :: p in ps && p.X == area.X1) && (exists p :: p in ps && p.X == area.X2)
    && (exists p :: p in ps && p.Y == area.Y1) && (exists p :: p in ps && p.Y == area.Y2)
  }

  lemma IncludeTight(area: Bounds, ps: seq<Point>, p: Point)
    requires ps != [] ==> TightAround(area, ps)
    ensures TightAround(if ps == [] then Bounds(p.X, p.Y, p.X, p.Y) else Include(area, p), ps + [p])
  {
    assert p in ps + [p];
    if ps != [] {
      var a :| a in ps && a.X == area.X1;
      var b :| b in ps && b.X == area.X2;
      var c :| c in ps && c.Y == area.Y1;
      var d :| d in ps && d.Y == area.Y2;
      assert a in ps + [p] && b in ps + [p] && c in ps + [p] && d in ps + [p];
    }
  }

  lemma IncludeSelf(p: Point)
    ensures Include(Bounds(p.X, p.Y, p.X, p.Y), p) == Bounds(p.X, p.Y, p.X, p.Y)
  {
  }

  /** Drops duplicates and keeps the bounds; stops at the first invalid point. */
  method CollectPoints(points: seq<Point>) returns (ok: bool, list: seq<Point>, members: set<Point>, area: Bounds)
    ensures ok <==> OnOneLevel(points)
    ensures ok ==>
      Distinct(list) && (forall p :: p in list <==> p in points) && (forall p :: p in members <==> p in points)
    ensures ok && points != [] ==> TightAround(area, list)
  {
    hide TightAround, Include, Distinct;
    list, members, area := [], {}, Bounds(0, 0, 0, 0);
    EmptyDistinct<Point>();
    var z := 0;
    for k := 0 to |points|
      invariant OnOneLevel(points[..k])
      invariant Distinct(list) && (forall p :: p in list <==> p in points[..k]) &&
        (forall p :: p in members <==> p in list)
      invariant z == (if k == 0 then 0 else points[0].Z) && (k > 0 <==> list != [])
      invariant list != [] ==> TightAround(area, list)
    {
      var p := points[k];
      assert points[..k + 1] == points[..k] + [p];
      if p.X < 1 || p.Y < 1 || p.Z < 1 || (z != 0 && p.Z != z) {
        ok := false;
        return;
      }
      if z == 0 {
        area := Bounds(p.X, p.Y, p.X, p.Y);
        z := p.Z;
      }
      if p !in members {
        IncludeTight(area, list, p);
        IncludeSelf(p);
        DistinctSnoc(list, p);
        area := Include(area, p);
        members, list := members + {p}, list + [p];
      }
    }
    assert points[..|points|] == points;
    ok := true;
  }

  /** One of the first n points lies in the cell. */
  ghost predicate Lists(ps: seq<Point>, n: nat, x: int, y: int)
    requires n <= |ps|
  {
    exists k :: 0 <= k < n && ps[k].X == x && ps[k].Y == y
  }

  lemma ListsNext(ps: seq<Point>, n: nat, x: int, y: int)
    requires n < |ps|
    ensures Lists(ps, n + 1, x, y) <==> Lists(ps, n, x, y) || (ps[n].X == x && ps[n].Y == y)
  {
    if Lists(ps, n, x, y) {
      var k :| 0 <= k < n && ps[k].X == x && ps[k].Y == y;
      assert 0 <= k < n + 1;
    }
  }

  /** Builds the runs of distinct sorted points of one level. */
  method RunsOfPoints(ps: seq<Point>) returns (runs: seq<Bounds>)
    requires Distinct(ps) && SortedBy(ps, PointLe) && (forall p :: p in ps ==> p.Z == ps[0].Z)
    ensures Canonical(runs) && CountRuns(runs) == |ps|
    ensures forall x, y :: InRuns(runs, x, y) <==> Lists(ps, |ps|, x, y)
  {
    hide InRuns, Lists, Canonical, CountRuns;
    runs := [];
    EmptyRuns(ps);
    for n := 0 to |ps|
      invariant Canonical(runs) && CountRuns(runs) == n && (n > 0 <==> runs != [])
      invariant n > 0 ==> runs[|runs| - 1].X1 == ps[n - 1].X && runs[|runs| - 1].Y2 == ps[n - 1].Y
      invariant forall x, y :: InRuns(runs, x, y) <==> Lists(ps, n, x, y)
    {
      var p := ps[n];
      var r := Run(p.X, p.Y, p.Y);
      if n > 0 {
        assert PointLe(ps[n - 1], p) && ps[n - 1] != p;
        assert ps[n - 1] in ps && p in ps;
      }
      ExtendCanonical(runs, r);
      ExtendCount(runs, r);
      forall x, y ensures InRuns(Extend(runs, r), x, y) <==> Lists(ps, n + 1, x, y) {
        ExtendMembers(runs, r, x, y);
        ListsNext(ps, n, x, y);
      }
      runs := Extend(runs, r);
    }
  }

  lemma EmptyRuns(ps: seq<Point>)
    ensures Canonical([]) && CountRuns([]) == 0 && forall x, y :: InRuns([], x, y) <==> Lists(ps, 0, x, y)
  {
  }

  /** MaskSelection: an error exactly when some point is off the map or on another level. */
  method MaskSelection(points: seq<Point>) returns (ok: bool, s: Selection)
    ensures ok <==> OnOneLevel(points)
    ensures ok ==> s.Valid() && (forall p: Point :: s.Has(p) <==> p in points)
    ensures ok && points != [] ==> s.IsTight() && s.z == points[0].Z
    ensures ok ==> s.Sparse() && s.offset == Point(0, 0, 0)
  {
    s := NO_SELECTION;
    var list, members, area;
    ok, list, members, area := CollectPoints(points);
    if !ok { return; }
    var sorted := Sort(list, PointLe);
    SortKeepsMembers(list, sorted);
    var runs := RunsOfPoints(sorted);
    var z := if points == [] then 0 else points[0].Z;
    s := NO_SELECTION.(area := area, z := z, points := sorted, members := Some(members), runs := runs);
    MaskMeaning(s, points, list);
  }

  lemma SortKeepsMembers(list: seq<Point>, sorted: seq<Point>)
    requires Distinct(list) && multiset(sorted) == multiset(list)
    ensures Distinct(sorted) && forall p :: p in sorted <==> p in list
  {
    DistinctCounts(list);
    CountsDistinct(sorted);
    assert forall p :: p in sorted <==> p in multiset(sorted);
    assert forall p :: p in list <==> p in multiset(list);
  }

  lemma MaskMeaning(s: Selection, points: seq<Point>, list: seq<Point>)
    requires OnOneLevel(points) && (forall p :: p in list <==> p in points)
    requires !s.runBased && s.members.Some? && s.offset == Point(0, 0, 0) && Canonical(s.runs)
    requires s.z == (if points == [] then 0 else points[0].Z) && |s.points| == CountRuns(s.runs) && Distinct(s.points)
    requires forall p :: p in s.points <==> p in points
    requires forall p :: p in s.members.value <==> p in points
    requires points != [] ==> TightAround(s.area, list)
    requires forall x, y :: InRuns(s.runs, x, y) <==> Lists(s.points, |s.points|, x, y)
    ensures s.Valid() && forall p: Point :: s.Has(p) <==> p in points
    ensures points != [] ==> s.IsTight()
  {
    assert Shifted(s.runs, 0, 0) == s.runs;
    assert forall p :: p in points ==> p.Z == s.z && s.z >= 1;
    forall p: Point ensures p in points <==> p.Z == s.z && InRuns(s.runs, p.X, p.Y) {
      if p in points {
        var k :| 0 <= k < |s.points| && s.points[k] == p;
        assert s.points[k].X == p.X && s.points[k].Y == p.Y;
      }
      if p.Z == s.z && InRuns(s.runs, p.X, p.Y) {
        var k :| 0 <= k < |s.points| && s.points[k].X == p.X && s.points[k].Y == p.Y;
        assert s.points[k] in points;
        assert s.points[k] == p;
      }
    }
    if points != [] {
      MaskTight(s, points, list);
    }
  }

  lemma MaskTight(s: Selection, points: seq<Point>, list: seq<Point>)
    requires TightAround(s.area, list) && (forall p :: p in list <==> p in points)
    requires forall p: Point :: p in points <==> p.Z == s.z && InRuns(s.runs, p.X, p.Y)
    ensures Tight(s.area, s.runs)
  {
    forall x, y | InRuns(s.runs, x, y) ensures s.area.Has(x, y) {
      assert Point(x, y, s.z) in points;
    }
    var a :| a in list && a.X == s.area.X1;
    var b :| b in list && b.X == s.area.X2;
    var c :| c in list && c.Y == s.area.Y1;
    var d :| d in list && d.Y == s.area.Y2;
    assert InRuns(s.runs, s.area.X1, a.Y) && InRuns(s.runs, s.area.X2, b.Y);
    assert InRuns(s.runs, c.X, s.area.Y1) && InRuns(s.runs, d.X, s.area.Y2);
  }

  // ---- visiting ---------------------------------------------------------------------------------

  /** The tiles visited so far: whole runs, then whole columns and part of a column of the next run. */
  ghost predicate Visited(out: seq<Point>, runs: seq<Bounds>, k: nat, z: int, x: int, y: int)
    requires k <= |runs|
  {
    && Distinct(out)
    && forall p: Point :: p in out <==>
         (p.Z == z &&
          (InRuns(runs[..k], p.X, p.Y) || (k < |runs| && runs[k].Has(p.X, p.Y) && (p.X < x || (p.X == x && p.Y < y)))))
  }

  /** No cell lies in two runs. */
  ghost predicate Apart(runs: seq<Bounds>) {
    forall i, j, x, y :: 0 <= i < j < |runs| && runs[i].Has(x, y) ==> !runs[j].Has(x, y)
  }

  lemma ApartFromEarlier(runs: seq<Bounds>, k: nat, x: int, y: int)
    requires Apart(runs) && k < |runs| && runs[k].Has(x, y)
    ensures !InRuns(runs[..k], x, y)
  {
  }

  lemma InRunsNext(runs: seq<Bounds>, k: nat, x: int, y: int)
    requires k < |runs|
    ensures InRuns(runs[..k + 1], x, y) <==> InRuns(runs[..k], x, y) || runs[k].Has(x, y)
  {
    if InRuns(runs[..k], x, y) {
      var i :| 0 <= i < k && runs[..k][i].Has(x, y);
      assert runs[..k + 1][i].Has(x, y);
    }
    if runs[k].Has(x, y) { assert runs[..k + 1][k].Has(x, y); }
    if InRuns(runs[..k + 1], x, y) && !runs[k].Has(x, y) {
      var i :| 0 <= i < k + 1 && runs[..k + 1][i].Has(x, y);
      assert runs[..k][i].Has(x, y);
    }
  }

  method VisitColumn(out0: seq<Point>, runs: seq<Bounds>, k: nat, z: int, x: int) returns (out: seq<Point>)
    requires k < |runs| && Apart(runs) && runs[k].X1 <= x <= runs[k].X2 && runs[k].Y1 <= runs[k].Y2
    requires Visited(out0, runs, k, z, x, runs[k].Y1)
    ensures Visited(out, runs, k, z, x + 1, runs[k].Y1)
  {
    hide InRuns, Distinct, Apart;
    out := out0;
    var y := runs[k].Y1;
    while y <= runs[k].Y2
      invariant runs[k].Y1 <= y <= runs[k].Y2 + 1 && Visited(out, runs, k, z, x, y)
    {
      var p := Point(x, y, z);
      ApartFromEarlier(runs, k, x, y);
      DistinctSnoc(out, p);
      out := out + [p];
      y := y + 1;
    }
  }

  /** Visit, over runs: every tile of every run once. */
  method VisitRunTiles(runs: seq<Bounds>, z: int) returns (out: seq<Point>)
    requires Apart(runs) && forall k :: 0 <= k < |runs| ==> runs[k].X1 <= runs[k].X2 && runs[k].Y1 <= runs[k].Y2
    ensures Distinct(out) && forall p: Point :: p in out <==> p.Z == z && InRuns(runs, p.X, p.Y)
  {
    hide InRuns, Distinct, Apart;
    out := [];
    EmptyDistinct<Point>();
    assert runs[..0] == [];
    forall x, y ensures !InRuns([], x, y) { NoRuns(x, y); }
    for k := 0 to |runs|
      invariant Visited(out, runs, k, z, if k < |runs| then runs[k].X1 else 0, if k < |runs| then runs[k].Y1 else 0)
    {
      var x := runs[k].X1;
      while x <= runs[k].X2
        invariant runs[k].X1 <= x <= runs[k].X2 + 1 && Visited(out, runs, k, z, x, runs[k].Y1)
      {
        out := VisitColumn(out, runs, k, z, x);
        x := x + 1;
      }
      forall u, v ensures InRuns(runs[..k + 1], u, v) <==> InRuns(runs[..k], u, v) || runs[k].Has(u, v) {
        InRunsNext(runs, k, u, v);
      }
    }
    assert runs[..|runs|] == runs;
  }

  lemma ValidRunsApart(s: Selection)
    requires s.Valid()
    ensures Apart(s.AbsRuns())
    ensures forall k ::
      0 <= k < |s.AbsRuns()| ==> s.AbsRuns()[k].X1 <= s.AbsRuns()[k].X2 && s.AbsRuns()[k].Y1 <= s.AbsRuns()[k].Y2
  {
    if s.Sparse() {
      ShiftedCanonical(s.runs, s.offset.X, s.offset.Y);
      var runs := s.AbsRuns();
      forall i, j, x, y | 0 <= i < j < |runs| && runs[i].Has(x, y) ensures !runs[j].Has(x, y) {
        assert Before(runs[i], runs[j]);
      }
    }
  }

  /** Coordinates: every selected tile exactly once. */
  method Coordinates(s: Selection) returns (out: seq<Point>)
    requires s.Valid()
    ensures Distinct(out) && forall p: Point :: p in out <==> s.Has(p)
  {
    if s.Sparse() && !s.runBased {
      out := seq(|s.points|, k requires 0 <= k < |s.points| => s.points[k].Plus(s.offset));
      PointsVisited(s, out);
    } else {
      hide InRuns, Canonical, Distinct, Apart;
      ValidRunsApart(s);
      out := VisitRunTiles(s.AbsRuns(), s.z);
    }
  }

  lemma PointsVisited(s: Selection, out: seq<Point>)
    requires s.Valid() && s.Sparse() && !s.runBased
    requires |out| == |s.points| && forall k :: 0 <= k < |out| ==> out[k] == s.points[k].Plus(s.offset)
    ensures Distinct(out) && forall p: Point :: p in out <==> s.Has(p)
  {
    hide Canonical, InRuns;
    forall i, j | 0 <= i < j < |out| ensures out[i] != out[j] { assert s.points[i] != s.points[j]; }
    forall p: Point ensures p in out <==> s.Has(p) {
      ShiftedMembers(s.runs, s.offset.X, s.offset.Y, p.X, p.Y);
      var c := p.Minus(s.offset);
      if c in s.points {
        var k :| 0 <= k < |s.points| && s.points[k] == c;
        assert out[k] == p;
      }
      if p in out {
        var k :| 0 <= k < |out| && out[k] == p;
        assert s.points[k] == c;
      }
    }
  }
}
