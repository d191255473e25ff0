/** Selecting a map area: the resumable bitset traversal and the simple flood fill
    (internal/aphelion/editing: area_query.go, area_selection.go). */
module AreaSelection {
  import opened Basics
  import opened Runs
  import opened SelectionModel

  /** The map as the traversal sees it: its size and the area content key of each tile,
      "" where a tile has no area. */
  datatype AreaMap = AreaMap(maxX: nat, maxY: nat, maxZ: nat, key: Point -> string) {
    predicate HasTile(p: Point) { 1 <= p.X <= maxX && 1 <= p.Y <= maxY && 1 <= p.Z <= maxZ }
  }

  /** One level of a map, with the key being looked for. */
  datatype Query = Query(m: AreaMap, z: int, target: string) {
    predicate OnMap(c: Cell) { 1 <= c.0 <= m.maxX && 1 <= c.1 <= m.maxY }

    predicate Matches(c: Cell) { OnMap(c) && m.key(Point(c.0, c.1, z)) == target }

    ghost function AllCells(): set<Cell> { RectCells(Bounds(1, 1, m.maxX, m.maxY)) }
  }

  function Neighbours(c: Cell): seq<Cell> {
    [(c.0 + 1, c.1), (c.0 - 1, c.1), (c.0, c.1 + 1), (c.0, c.1 - 1)]
  }

  /** A tile of the map with the area content that is looked for. */
  ghost predicate OfArea(q: Query, c: Cell) {
    1 <= c.0 <= q.m.maxX && 1 <= c.1 <= q.m.maxY && q.m.key(Point(c.0, c.1, q.z)) == q.target
  }

  function Distance(c: Cell, d: Cell): int { Abs(d.0 - c.0) + Abs(d.1 - c.1) }

  /** The tiles looked at from a tile are those one step up, down, left or right of it. */
  lemma NeighboursAreSteps(c: Cell, n: Cell)
    ensures n in Neighbours(c) <==> Distance(c, n) == 1
  {
    var s := Neighbours(c);
    assert n in s <==> n == s[0] || n == s[1] || n == s[2] || n == s[3];
  }

  /** A walk over matching tiles from start to c, one step at a time. */
  ghost predicate Walk(q: Query, path: seq<Cell>, start: Cell, c: Cell) {
    && |path| > 0 && path[0] == start && path[|path| - 1] == c
    && (forall k :: 0 <= k < |path| ==> OfArea(q, path[k]))
    && (forall k :: 0 < k < |path| ==> Distance(path[k - 1], path[k]) == 1)
  }

  ghost predicate Connected(q: Query, start: Cell, c: Cell) { exists path :: Walk(q, path, start, c) }

  /** The area to select: all matching tiles, or those 4-connected to the start. */
  ghost predicate InArea(q: Query, start: Cell, all: bool, c: Cell) {
    OfArea(q, c) && (all || Connected(q, start, c))
  }

  lemma ConnectedStart(q: Query, start: Cell)
    requires q.Matches(start)
    ensures Connected(q, start, start)
  {
    assert Walk(q, [start], start, start);
  }

  lemma ConnectedNext(q: Query, start: Cell, c: Cell, n: Cell)
    requires Connected(q, start, c) && n in Neighbours(c) && q.Matches(n)
    ensures Connected(q, start, n)
  {
    var path :| Walk(q, path, start, c);
    NeighboursAreSteps(c, n);
    assert Walk(q, path + [n], start, n);
  }

  /** A set closed under matching neighbours contains every walk that starts in it. */
  lemma {:induction false} ClosedHoldsWalk(q: Query, s: set<Cell>, path: seq<Cell>, start: Cell, c: Cell)
    requires Walk(q, path, start, c) && start in s
    requires forall d, n :: d in s && n in Neighbours(d) && q.Matches(n) ==> n in s
    ensures c in s
    decreases |path|
  {
    if |path| > 1 {
      var init := path[..|path| - 1];
      ClosedHoldsWalk(q, s, init, start, init[|init| - 1]);
      NeighboursAreSteps(init[|init| - 1], c);
    }
  }

  // ---- the flood fill, abstractly -------------------------------------------------------

  /** State of a flood fill while the neighbours of p from position k on are still unread;
      p has no unread neighbours when k is 4. */
  ghost predicate Flood(q: Query, start: Cell, seen: set<Cell>, selected: set<Cell>, frontier: seq<Cell>, p: Cell,
                        k: nat)
    requires k <= 4
  {
    && start in seen && selected <= seen && (forall f :: f in frontier ==> f in seen)
    && (forall c :: c in seen ==> q.OnMap(c))
    && (forall c :: c in selected || c in frontier ==> q.Matches(c) && Connected(q, start, c))
    && (forall c :: c in seen && q.Matches(c) ==> c in selected || c in frontier)
    && (forall c, n :: c in selected && c != p && n in Neighbours(c) && q.OnMap(n) ==> n in seen)
    && (p in selected ==> forall n :: n in Neighbours(p)[..k] && q.OnMap(n) ==> n in seen)
  }

  lemma FloodStart(q: Query, start: Cell)
    requires q.Matches(start)
    ensures Flood(q, start, {start}, {}, [start], start, 4)
  {
    ConnectedStart(q, start);
  }

  lemma FloodPop(q: Query, start: Cell, seen: set<Cell>, selected: set<Cell>, frontier: seq<Cell>, p0: Cell)
    requires Flood(q, start, seen, selected, frontier, p0, 4) && frontier != []
    ensures Flood(q, start, seen, selected + {frontier[0]}, frontier[1..], frontier[0], 0)
  {
    hide Connected;
    var p := frontier[0];
    assert Neighbours(p0)[..4] == Neighbours(p0);
    assert frontier == [p] + frontier[1..];
    forall c | c in seen && q.Matches(c) ensures c in selected + {p} || c in frontier[1..] {
      assert c in selected || c in frontier;
    }
    assert forall c :: c in frontier[1..] ==> c in frontier;
  }

  lemma FloodLook(q: Query, start: Cell, seen: set<Cell>, selected: set<Cell>, frontier: seq<Cell>, p: Cell, k: nat)
    requires k < 4 && Flood(q, start, seen, selected, frontier, p, k) && p in selected
    ensures var n := Neighbours(p)[k];
      Flood(q, start, if q.OnMap(n) then seen + {n} else seen, selected,
            if q.Matches(n) && n !in seen then frontier + [n] else frontier, p, k + 1)
  {
    hide Connected;
    var n := Neighbours(p)[k];
    assert Neighbours(p)[..k + 1] == Neighbours(p)[..k] + [n];
    if q.Matches(n) { ConnectedNext(q, start, p, n); }
  }

  /** An exhausted flood fill has found exactly the connected area. */
  lemma FloodDone(q: Query, start: Cell, seen: set<Cell>, selected: set<Cell>, p: Cell, c: Cell)
    requires Flood(q, start, seen, selected, [], p, 4) && q.Matches(start)
    ensures c in selected <==> InArea(q, start, false, c)
  {
    assert Neighbours(p)[..4] == Neighbours(p);
    if Connected(q, start, c) {
      var path :| Walk(q, path, start, c);
      ClosedHoldsWalk(q, selected, path, start, c);
    }
  }

  // ---- the simple fill ----------------------------------------------------------------------

  /** SelectAreaMask. */
  method SelectAreaMask(m: AreaMap, start: Point, all: bool) returns (ok: bool, s: Selection)
    ensures ok <==> m.HasTile(start) && m.key(start) != ""
    ensures ok ==> s.Valid() && s.z == start.Z && forall p: Point ::
      s.Has(p) <==> p.Z == start.Z && InArea(Query(m, start.Z, m.key(start)), (start.X, start.Y), all, (p.X, p.Y))
  {
    s := NO_SELECTION;
    if !m.HasTile(start) || m.key(start) == "" { return false, s; }
    var q := Query(m, start.Z, m.key(start));
    var cells;
    if all { cells := MatchingCells(q); } else { cells := FloodFill(q, (start.X, start.Y)); }
    var points := seq(|cells|, k requires 0 <= k < |cells| => Point(cells[k].0, cells[k].1, start.Z));
    forall p: Point ensures p in points <==> p.Z == start.Z && (p.X, p.Y) in cells {
      if p.Z == start.Z && (p.X, p.Y) in cells {
        var k :| 0 <= k < |cells| && cells[k] == (p.X, p.Y);
        assert points[k] == p;
      }
    }
    assert InArea(q, (start.X, start.Y), all, (start.X, start.Y)) by { ConnectedStart(q, (start.X, start.Y)); }
    assert start in points;
    ok, s := MaskSelection(points);
  }

  method MatchingCells(q: Query) returns (cells: seq<Cell>)
    ensures forall c :: c in cells <==> q.Matches(c)
  {
    cells := [];
    for x := 1 to q.m.maxX + 1
      invariant forall c :: c in cells <==> q.Matches(c) && c.0 < x
    {
      for y := 1 to q.m.maxY + 1
        invariant forall c :: c in cells <==> q.Matches(c) && (c.0 < x || (c.0 == x && c.1 < y))
      {
        if q.Matches((x, y)) { cells := cells + [(x, y)]; }
      }
    }
  }

  /** Looks at the four neighbours of p. */
  method LookAround(q: Query, ghost start: Cell, p: Cell, seen: set<Cell>, ghost selected: set<Cell>, queue: seq<Cell>,
                    next: nat)
    returns (seen': set<Cell>, queue': seq<Cell>)
    requires next <= |queue| && seen <= q.AllCells() && p in selected
    requires Flood(q, start, seen, selected, queue[next..], p, 0)
    ensures next <= |queue'| && seen' <= q.AllCells()
    ensures Flood(q, start, seen', selected, queue'[next..], p, 4)
    ensures |q.AllCells() - seen'| + |queue'| <= |q.AllCells() - seen| + |queue|
  {
    hide Flood;
    seen', queue' := seen, queue;
    var ns := Neighbours(p);
    for k := 0 to 4
      invariant next <= |queue'| && seen' <= q.AllCells()
      invariant Flood(q, start, seen', selected, queue'[next..], p, k)
      invariant |q.AllCells() - seen'| + |queue'| <= |q.AllCells() - seen| + |queue|
    {
      var n := ns[k];
      FloodLook(q, start, seen', selected, queue'[next..], p, k);
      if n !in seen' && q.OnMap(n) {
        assert n in q.AllCells() - seen';
        assert q.AllCells() - (seen' + {n}) == q.AllCells() - seen' - {n};
        seen' := seen' + {n};
        if q.Matches(n) {
          assert (queue' + [n])[next..] == queue'[next..] + [n];
          queue' := queue' + [n];
        }
      } else {
        assert q.OnMap(n) ==> seen' + {n} == seen';
      }
    }
  }

  method FloodFill(q: Query, start: Cell) returns (points: seq<Cell>)
    requires q.Matches(start)
    ensures forall c :: c in points <==> InArea(q, start, false, c)
  {
    hide Flood, Connected, InArea;
    var seen, queue, next: nat := {start}, [start], 0;
    ghost var selected, last := {}, start;
    points := [];
    FloodStart(q, start);
    FloodBounds(q, start, seen, selected, queue, start, 4);
    while next < |queue|
      invariant next <= |queue| && seen <= q.AllCells()
      invariant forall c :: c in points <==> c in selected
      invariant Flood(q, start, seen, selected, queue[next..], last, 4)
      decreases |q.AllCells() - seen| + |queue| - next
    {
      var p := queue[next];
      FloodPop(q, start, seen, selected, queue[next..], last);
      next, points, selected, last := next + 1, points + [p], selected + {p}, p;
      assert queue[next - 1..][1..] == queue[next..];
      seen, queue := LookAround(q, start, p, seen, selected, queue, next);
    }
    forall c ensures c in selected <==> InArea(q, start, false, c) {
      assert queue[next..] == [];
      FloodDone(q, start, seen, selected, last, c);
    }
  }

  lemma FloodBounds(q: Query, start: Cell, seen: set<Cell>, selected: set<Cell>, frontier: seq<Cell>, p: Cell, k: nat)
    requires k <= 4 && Flood(q, start, seen, selected, frontier, p, k)
    ensures seen <= q.AllCells() && selected <= seen
  {
  }
}
