/** Recursive shadowcasting over eight octants (internal/aphelion/lighting/compute.go):
    what a source sees, as a function of the level, and its locality. */
module ShadowCast {
  import opened Basics
  import opened LightingTypes

  type Tile = (int, int)

  /** One octant of the view from (cx, cy): row j, column dx is a map tile. */
  datatype Octant = Octant(cx: int, cy: int, xx: int, xy: int, yx: int, yy: int) {
    function X(dx: int, j: int): int { cx + dx * xx - j * xy }

    function Y(dx: int, j: int): int { cy + dx * yx - j * yy }
  }

  /** The eight octants, in table order. */
  function OctantOf(cx: int, cy: int, oct: nat): Octant
    requires oct < 8
  {
    Octant(cx, cy,
           [1, 0, 0, -1, -1, 0, 0, 1][oct], [0, 1, -1, 0, 0, -1, 1, 0][oct],
           [0, 1, 1, 0, 0, -1, -1, 0][oct], [1, 0, 0, 1, -1, 0, 0, -1][oct])
  }

  function LeftSlope(dx: int, j: int): real
    requires j >= 1
  {
    (dx as real - 0.5) / (0.5 - j as real)
  }

  function RightSlope(dx: int, j: int): real
    requires j >= 1
  {
    (dx as real + 0.5) / (-(j as real) - 0.5)
  }

  /** Tiles marked by a cast that starts at `row` with the given sight interval. */
  function CastTiles(l: Level, o: Octant, radius: int, row: int, start: real, end: real): set<Tile>
    requires row >= 1
    decreases radius - row + 1, 1, 0
  {
    if start < end then {} else RowTiles(l, o, radius, row, start, end, 0.0)
  }

  /** Tiles marked from the beginning of row j on. */
  function RowTiles(l: Level, o: Octant, radius: int, j: int, start: real, end: real, newStart: real): set<Tile>
    requires j >= 1
    decreases radius - j + 1, 0, 0
  {
    if j > radius then {} else CellTiles(l, o, radius, j, -j, start, end, newStart, false)
  }

  /** The scan state after a cell: the sight start, the pending start and the blocked flag. */
  function NextState(start: real, newStart: real, blocked: bool, opaque_: bool, deeper: bool, right: real)
    : (real, real, bool)
  {
    if blocked then (if opaque_ then (start, right, true) else (newStart, newStart, false))
    else if opaque_ && deeper then (start, right, true)
    else (start, newStart, false)
  }

  /** Tiles marked from column dx of row j on; the scan of a row runs to column 1. */
  function CellTiles(l: Level, o: Octant, radius: int, j: int, dx: int, start: real, end: real,
                     newStart: real, blocked: bool): set<Tile>
    requires 1 <= j <= radius && dx <= 2
    decreases radius - j, 1, 2 - dx
  {
    if dx > 1 then
      if blocked then {} else RowTiles(l, o, radius, j + 1, start, end, newStart)
    else if start < RightSlope(dx, j) then
      CellTiles(l, o, radius, j, dx + 1, start, end, newStart, blocked)
    else if end > LeftSlope(dx, j) then
      if blocked then {} else RowTiles(l, o, radius, j + 1, start, end, newStart)
    else
      var x, y := o.X(dx, j), o.Y(dx, j);
      var here := if l.Inside(x, y) then {(x, y)} else {};
      var opaque_ := l.Blocked(x, y);
      var (s, ns, b) := NextState(start, newStart, blocked, opaque_, j < radius, RightSlope(dx, j));
      here +
      (if !blocked && opaque_ && j < radius then CastTiles(l, o, radius, j + 1, start, LeftSlope(dx, j)) else {}) +
      CellTiles(l, o, radius, j, dx + 1, s, end, ns, b)
  }

  /** Every tile a source at (cx, cy) marks with view radius `radius`. */
  function ViewTiles(l: Level, cx: int, cy: int, radius: int): set<Tile> {
    {(cx, cy)} + OctantsFrom(l, cx, cy, radius, 0)
  }

  function OctantsFrom(l: Level, cx: int, cy: int, radius: int, oct: nat): set<Tile>
    requires oct <= 8
    decreases 8 - oct
  {
    if oct == 8 then {}
    else CastTiles(l, OctantOf(cx, cy, oct), radius, 1, 1.0, 0.0) + OctantsFrom(l, cx, cy, radius, oct + 1)
  }

  /** Corner (i, j) is one of the four corners of tile t. */
  predicate CornerOf(t: Tile, i: int, j: int) {
    t.0 <= i <= t.0 + 1 && t.1 <= j <= t.1 + 1
  }

  /** Corner (i, j) belongs to a transparent tile of the emitter's square view. */
  ghost predicate Lit(l: Level, e: EffSource, i: int, j: int) {
    exists t :: t in ViewTiles(l, e.src.X, e.src.Y, e.wr) && !l.Occ(t.0, t.1) && CornerOf(t, i, j)
  }

  // ---- the view is local ------------------------------------------------------

  ghost predicate Near(cx: int, cy: int, r: int, t: Tile) {
    Abs(t.0 - cx) <= r && Abs(t.1 - cy) <= r
  }

  /** The two levels block sight at the same tiles of the square of radius r. */
  ghost predicate SameSight(l: Level, l': Level, cx: int, cy: int, r: int) {
    && l.W == l'.W && l.H == l'.H
    && forall t: Tile :: Near(cx, cy, r, t) && l.Inside(t.0, t.1) ==> l.Occ(t.0, t.1) == l'.Occ(t.0, t.1)
  }

  ghost predicate UnitOctant(o: Octant) {
    || (Abs(o.xx) == 1 && o.xy == 0 && o.yx == 0 && Abs(o.yy) == 1)
    || (o.xx == 0 && Abs(o.xy) == 1 && Abs(o.yx) == 1 && o.yy == 0)
  }

  lemma OctantTileNear(o: Octant, dx: int, j: int)
    requires UnitOctant(o) && 1 <= j && -j <= dx <= 1
    ensures Near(o.cx, o.cy, j, (o.X(dx, j), o.Y(dx, j)))
  {
  }

  /** Marked tiles lie inside the level and inside the square view. */
  lemma {:induction false} CellTilesNear(l: Level, o: Octant, radius: int, j: int, dx: int, start: real,
                                         end: real, newStart: real, blocked: bool, t: Tile)
    requires UnitOctant(o) && 1 <= j <= radius && -j <= dx <= 2
    requires t in CellTiles(l, o, radius, j, dx, start, end, newStart, blocked)
    ensures l.Inside(t.0, t.1) && Near(o.cx, o.cy, radius, t)
    decreases radius - j, 1, 2 - dx
  {
    if dx > 1 || (start >= RightSlope(dx, j) && end > LeftSlope(dx, j)) {
      RowTilesNear(l, o, radius, j + 1, start, end, newStart, t);
    } else if start < RightSlope(dx, j) {
      CellTilesNear(l, o, radius, j, dx + 1, start, end, newStart, blocked, t);
    } else {
      OctantTileNear(o, dx, j);
      var opaque_ := l.Blocked(o.X(dx, j), o.Y(dx, j));
      var (s, ns, b) := NextState(start, newStart, blocked, opaque_, j < radius, RightSlope(dx, j));
      if t in CellTiles(l, o, radius, j, dx + 1, s, end, ns, b) {
        CellTilesNear(l, o, radius, j, dx + 1, s, end, ns, b, t);
      } else if !blocked && opaque_ && j < radius && t in CastTiles(l, o, radius, j + 1, start, LeftSlope(dx, j)) {
        RowTilesNear(l, o, radius, j + 1, start, LeftSlope(dx, j), 0.0, t);
      }
    }
  }

  lemma {:induction false} RowTilesNear(l: Level, o: Octant, radius: int, j: int, start: real, end: real,
                                        newStart: real, t: Tile)
    requires UnitOctant(o) && j >= 1
    requires t in RowTiles(l, o, radius, j, start, end, newStart)
    ensures l.Inside(t.0, t.1) && Near(o.cx, o.cy, radius, t)
    decreases radius - j + 1, 0, 0
  {
    CellTilesNear(l, o, radius, j, -j, start, end, newStart, false, t);
  }

  /** A cast reads only tiles of the square view. */
  lemma {:induction false} CellTilesLocal(l: Level, l': Level, o: Octant, radius: int, j: int, dx: int,
                                          start: real, end: real, newStart: real, blocked: bool)
    requires UnitOctant(o) && 1 <= j <= radius && -j <= dx <= 2
    requires SameSight(l, l', o.cx, o.cy, radius)
    ensures CellTiles(l, o, radius, j, dx, start, end, newStart, blocked)
         == CellTiles(l', o, radius, j, dx, start, end, newStart, blocked)
    decreases radius - j, 1, 2 - dx
  {
    if dx > 1 || (start >= RightSlope(dx, j) && end > LeftSlope(dx, j)) {
      if !blocked { RowTilesLocal(l, l', o, radius, j + 1, start, end, newStart); }
    } else if start < RightSlope(dx, j) {
      CellTilesLocal(l, l', o, radius, j, dx + 1, start, end, newStart, blocked);
    } else {
      OctantTileNear(o, dx, j);
      var x, y := o.X(dx, j), o.Y(dx, j);
      assert Near(o.cx, o.cy, radius, (x, y));
      var opaque_ := l.Blocked(x, y);
      assert opaque_ == l'.Blocked(x, y);
      var (s, ns, b) := NextState(start, newStart, blocked, opaque_, j < radius, RightSlope(dx, j));
      CellTilesLocal(l, l', o, radius, j, dx + 1, s, end, ns, b);
      if !blocked && opaque_ && j < radius {
        RowTilesLocal(l, l', o, radius, j + 1, start, LeftSlope(dx, j), 0.0);
      }
    }
  }

  lemma {:induction false} RowTilesLocal(l: Level, l': Level, o: Octant, radius: int, j: int, start: real,
                                         end: real, newStart: real)
    requires UnitOctant(o) && j >= 1 && SameSight(l, l', o.cx, o.cy, radius)
    ensures RowTiles(l, o, radius, j, start, end, newStart) == RowTiles(l', o, radius, j, start, end, newStart)
    decreases radius - j + 1, 0, 0
  {
    if j <= radius { CellTilesLocal(l, l', o, radius, j, -j, start, end, newStart, false); }
  }

  lemma {:induction false} OctantsNear(l: Level, cx: int, cy: int, radius: int, oct: nat, t: Tile)
    requires oct <= 8 && t in OctantsFrom(l, cx, cy, radius, oct)
    ensures l.Inside(t.0, t.1) && Near(cx, cy, radius, t)
    decreases 8 - oct
  {
    var o := OctantOf(cx, cy, oct);
    if t in CastTiles(l, o, radius, 1, 1.0, 0.0) {
      RowTilesNear(l, o, radius, 1, 1.0, 0.0, 0.0, t);
    } else {
      OctantsNear(l, cx, cy, radius, oct + 1, t);
    }
  }

  lemma {:induction false} OctantsLocal(l: Level, l': Level, cx: int, cy: int, radius: int, oct: nat)
    requires oct <= 8 && SameSight(l, l', cx, cy, radius)
    ensures OctantsFrom(l, cx, cy, radius, oct) == OctantsFrom(l', cx, cy, radius, oct)
    decreases 8 - oct
  {
    if oct < 8 {
      RowTilesLocal(l, l', OctantOf(cx, cy, oct), radius, 1, 1.0, 0.0, 0.0);
      OctantsLocal(l, l', cx, cy, radius, oct + 1);
    }
  }

  /** A lit corner is within the working range of its emitter. */
  lemma LitIsNear(l: Level, e: EffSource, i: int, j: int)
    requires Lit(l, e, i, j) && e.wr >= 0
    ensures e.src.X - e.wr <= i <= e.src.X + e.wr + 1
    ensures e.src.Y - e.wr <= j <= e.src.Y + e.wr + 1
  {
    var t :| t in ViewTiles(l, e.src.X, e.src.Y, e.wr) && !l.Occ(t.0, t.1) && CornerOf(t, i, j);
    if t != (e.src.X, e.src.Y) { OctantsNear(l, e.src.X, e.src.Y, e.wr, 0, t); }
  }

  /** Which corners an emitter lights depends only on the tiles within its working range. */
  lemma LitIsLocal(l: Level, l': Level, e: EffSource, i: int, j: int)
    requires l.Inside(e.src.X, e.src.Y) && e.wr >= 0
    requires SameSight(l, l', e.src.X, e.src.Y, e.wr)
    ensures Lit(l, e, i, j) == Lit(l', e, i, j)
  {
    var cx, cy := e.src.X, e.src.Y;
    OctantsLocal(l, l', cx, cy, e.wr, 0);
    forall t | t in ViewTiles(l, cx, cy, e.wr)
      ensures l.Occ(t.0, t.1) == l'.Occ(t.0, t.1)
    {
      if t != (cx, cy) { OctantsNear(l, cx, cy, e.wr, 0, t); }
      assert Near(cx, cy, e.wr, t);
    }
  }

  // ---- a wider view sees no more of a narrow square --------------------------------

  /** Row j of an octant lies at distance j. */
  lemma OctantTileFar(o: Octant, r: int, dx: int, j: int)
    requires UnitOctant(o) && 0 <= r < j && -j <= dx <= 1
    ensures !Near(o.cx, o.cy, r, (o.X(dx, j), o.Y(dx, j)))
  {
  }

  /** The rows beyond r mark nothing within r. */
  lemma {:induction false} DeepCells(l: Level, o: Octant, radius: int, r: int, j: int, dx: int, start: real, end: real,
                                     newStart: real, blocked: bool, t: Tile)
    requires UnitOctant(o) && 0 <= r < j <= radius && -j <= dx <= 2 && Near(o.cx, o.cy, r, t)
    ensures t !in CellTiles(l, o, radius, j, dx, start, end, newStart, blocked)
    decreases radius - j, 1, 2 - dx
  {
    if dx > 1 || (start >= RightSlope(dx, j) && end > LeftSlope(dx, j)) {
      DeepRows(l, o, radius, r, j + 1, start, end, newStart, t);
    } else if start < RightSlope(dx, j) {
      DeepCells(l, o, radius, r, j, dx + 1, start, end, newStart, blocked, t);
    } else {
      OctantTileFar(o, r, dx, j);
      var opaque_ := l.Blocked(o.X(dx, j), o.Y(dx, j));
      var (s, ns, b) := NextState(start, newStart, blocked, opaque_, j < radius, RightSlope(dx, j));
      DeepCells(l, o, radius, r, j, dx + 1, s, end, ns, b, t);
      DeepRows(l, o, radius, r, j + 1, start, LeftSlope(dx, j), 0.0, t);
    }
  }

  lemma {:induction false} DeepRows(l: Level, o: Octant, radius: int, r: int, j: int, start: real, end: real,
                                    newStart: real, t: Tile)
    requires UnitOctant(o) && 0 <= r < j && Near(o.cx, o.cy, r, t)
    ensures t !in RowTiles(l, o, radius, j, start, end, newStart)
    ensures t !in CastTiles(l, o, radius, j, start, end)
    decreases radius - j + 1, 0, 0
  {
    if j <= radius {
      DeepCells(l, o, radius, r, j, -j, start, end, newStart, false, t);
      DeepCells(l, o, radius, r, j, -j, start, end, 0.0, false, t);
    }
  }

  lemma RightSlopeFalls(dx: int, j: int)
    requires j >= 1
    ensures RightSlope(dx + 1, j) < RightSlope(dx, j)
  {
    var n, d := dx as real + 0.5, -(j as real) - 0.5;
    assert n / d - (n + 1.0) / d == -1.0 / d;
    assert (n + 1.0) / d < n / d;
  }

  /** The last row of the narrow view: a wider one keeps scanning it, from a start that an opaque
      tile may have lowered, to a tile that is not skipped either way. */
  lemma {:induction false} LastRow(l: Level, o: Octant, radius: int, r: int, dx: int, start: real, start': real,
                                   end: real, newStart: real, newStart': real, blocked: bool, t: Tile)
    requires UnitOctant(o) && 1 <= r < radius && -r <= dx <= 2 && Near(o.cx, o.cy, r, t)
    requires start == start' || (start' <= start && start' > RightSlope(dx, r))
    requires blocked ==> newStart' > RightSlope(dx, r) && newStart' <= start
    ensures t in CellTiles(l, o, r, r, dx, start, end, newStart, false)
       <==> t in CellTiles(l, o, radius, r, dx, start', end, newStart', blocked)
    decreases 2 - dx
  {
    if dx > 1 || (start >= RightSlope(dx, r) && end > LeftSlope(dx, r)) {
      DeepRows(l, o, radius, r, r + 1, start', end, newStart', t);
    } else {
      RightSlopeFalls(dx, r);
      var x, y := o.X(dx, r), o.Y(dx, r);
      if start < RightSlope(dx, r) {
        LastRow(l, o, radius, r, dx + 1, start, start', end, newStart, newStart', blocked, t);
      } else {
        var (s, ns, b) := NextState(start', newStart', blocked, l.Blocked(x, y), true, RightSlope(dx, r));
        LastRow(l, o, radius, r, dx + 1, start, s, end, newStart, ns, b, t);
        DeepRows(l, o, radius, r, r + 1, start', LeftSlope(dx, r), 0.0, t);
      }
    }
  }

  /** Within the narrow square the two casts mark the same tiles. */
  lemma {:induction false} CellTilesWider(l: Level, o: Octant, radius: int, r: int, j: int, dx: int, start: real,
                                          end: real, newStart: real, blocked: bool, t: Tile)
    requires UnitOctant(o) && 1 <= j <= r < radius && -j <= dx <= 2 && Near(o.cx, o.cy, r, t)
    requires j == r ==> !blocked && dx == -r
    ensures t in CellTiles(l, o, r, j, dx, start, end, newStart, blocked)
       <==> t in CellTiles(l, o, radius, j, dx, start, end, newStart, blocked)
    decreases r - j, 1, 2 - dx
  {
    if j == r {
      LastRow(l, o, radius, r, dx, start, start, end, newStart, newStart, false, t);
    } else if dx > 1 || (start >= RightSlope(dx, j) && end > LeftSlope(dx, j)) {
      RowTilesWider(l, o, radius, r, j + 1, start, end, newStart, t);
    } else if start < RightSlope(dx, j) {
      CellTilesWider(l, o, radius, r, j, dx + 1, start, end, newStart, blocked, t);
    } else {
      var (s, ns, b) := NextState(start, newStart, blocked, l.Blocked(o.X(dx, j), o.Y(dx, j)), true, RightSlope(dx, j));
      CellTilesWider(l, o, radius, r, j, dx + 1, s, end, ns, b, t);
      RowTilesWider(l, o, radius, r, j + 1, start, LeftSlope(dx, j), 0.0, t);
    }
  }

  lemma {:induction false} RowTilesWider(l: Level, o: Octant, radius: int, r: int, j: int, start: real, end: real,
                                         newStart: real, t: Tile)
    requires UnitOctant(o) && 1 <= j <= r < radius && Near(o.cx, o.cy, r, t)
    ensures t in RowTiles(l, o, r, j, start, end, newStart) <==> t in RowTiles(l, o, radius, j, start, end, newStart)
    decreases r - j + 1, 0, 0
  {
    CellTilesWider(l, o, radius, r, j, -j, start, end, newStart, false, t);
  }

  lemma {:induction false} OctantsWider(l: Level, cx: int, cy: int, radius: int, r: int, oct: nat, t: Tile)
    requires oct <= 8 && 1 <= r < radius && Near(cx, cy, r, t)
    ensures t in OctantsFrom(l, cx, cy, r, oct) <==> t in OctantsFrom(l, cx, cy, radius, oct)
    decreases 8 - oct
  {
    if oct < 8 {
      RowTilesWider(l, OctantOf(cx, cy, oct), radius, r, 1, 1.0, 0.0, 0.0, t);
      OctantsWider(l, cx, cy, radius, r, oct + 1, t);
    }
  }

  lemma ViewWider(l: Level, cx: int, cy: int, r: int, r': int, t: Tile)
    requires r >= 1 && r' >= 1 && Near(cx, cy, r, t) && Near(cx, cy, r', t)
    ensures t in ViewTiles(l, cx, cy, r) <==> t in ViewTiles(l, cx, cy, r')
  {
    hide OctantsFrom;
    if r < r' { OctantsWider(l, cx, cy, r', r, 0, t); }
    if r' < r { OctantsWider(l, cx, cy, r, r', 0, t); }
  }

  lemma CornerNear(e: EffSource, i: int, j: int, t: Tile)
    requires Inner(e, i - e.src.X, j - e.src.Y) && CornerOf(t, i, j)
    ensures Near(e.src.X, e.src.Y, e.wr, t)
  {
  }

  /** Two emitters on one tile light the same of the corners that lie inside both views. */
  lemma LitInside(l: Level, e: EffSource, e': EffSource, i: int, j: int)
    requires e.src.X == e'.src.X && e.src.Y == e'.src.Y && e.wr >= 1 && e'.wr >= 1
    requires Inner(e, i - e.src.X, j - e.src.Y) && Inner(e', i - e.src.X, j - e.src.Y)
    ensures Lit(l, e, i, j) == Lit(l, e', i, j)
  {
    hide ViewTiles, Near, Inner, CornerOf;
    forall t: Tile | CornerOf(t, i, j)
      ensures t in ViewTiles(l, e.src.X, e.src.Y, e.wr) <==> t in ViewTiles(l, e.src.X, e.src.Y, e'.wr)
    {
      CornerNear(e, i, j, t);
      CornerNear(e', i, j, t);
      ViewWider(l, e.src.X, e.src.Y, e.wr, e'.wr, t);
    }
  }

  // ---- an open line of sight --------------------------------------------------

  /** No tile of the octant up to the radius blocks sight. */
  ghost predicate OpenOctant(l: Level, o: Octant, radius: int) {
    forall dx, j :: 1 <= j <= radius && -j <= dx <= 1 ==> !l.Blocked(o.X(dx, j), o.Y(dx, j))
  }

  lemma {:induction false} OpenMarked(l: Level, o: Octant, radius: int, j: int, dx: int, newStart: real, c: int, k: int)
    requires OpenOctant(l, o, radius) && 1 <= j <= k <= radius && -k <= c <= 0 && -j <= dx <= 2 && (j == k ==> dx <= c)
    requires l.Inside(o.X(c, k), o.Y(c, k))
    ensures (o.X(c, k), o.Y(c, k)) in CellTiles(l, o, radius, j, dx, 1.0, 0.0, newStart, false)
    decreases k - j, 2 - dx
  {
    assert dx <= 0 ==> LeftSlope(dx, j) > 0.0;
    assert RightSlope(dx, j) <= 1.0 by { FirstSlope(dx, j); }
    if dx > 1 || 0.0 > LeftSlope(dx, j) {
      OpenMarked(l, o, radius, j + 1, -j - 1, newStart, c, k);
    } else if j < k || dx < c {
      assert !l.Blocked(o.X(dx, j), o.Y(dx, j));
      OpenMarked(l, o, radius, j, dx + 1, newStart, c, k);
    } else {
      assert !l.Blocked(o.X(dx, j), o.Y(dx, j));
    }
  }

  lemma FirstSlope(dx: int, j: int)
    requires j >= 1 && dx >= -j
    ensures RightSlope(dx, j) <= 1.0
  {
    var n, d := dx as real + 0.5, -(j as real) - 0.5;
    assert n >= d && d < 0.0;
    assert n / d <= 1.0;
  }

  /** The octant, column and row that contain a tile of the square view. */
  lemma OctantOfTile(cx: int, cy: int, x: int, y: int) returns (oct: nat, c: int, k: int)
    requires x != 0 || y != 0
    ensures oct < 8 && k == Max(Abs(x), Abs(y)) && -k <= c <= 0 && k >= 1
    ensures OctantOf(cx, cy, oct).X(c, k) == cx + x && OctantOf(cx, cy, oct).Y(c, k) == cy + y
  {
    if Abs(y) >= Abs(x) {
      k, c := Abs(y), -Abs(x);
      oct := if y < 0 then if x <= 0 then 0 else 3 else if x <= 0 then 7 else 4;
    } else {
      k, c := Abs(x), -Abs(y);
      oct := if x < 0 then if y <= 0 then 1 else 6 else if y <= 0 then 2 else 5;
    }
  }

  lemma {:induction false} InSomeOctant(l: Level, cx: int, cy: int, radius: int, oct: nat, from: nat, t: Tile)
    requires from <= oct < 8 && t in CastTiles(l, OctantOf(cx, cy, oct), radius, 1, 1.0, 0.0)
    ensures t in OctantsFrom(l, cx, cy, radius, from)
    decreases oct - from
  {
    if from < oct { InSomeOctant(l, cx, cy, radius, oct, from + 1, t); }
  }

  /** No tile of the square blocks sight. */
  ghost predicate OpenSquare(l: Level, cx: int, cy: int, r: int) {
    forall t: Tile :: Near(cx, cy, r, t) ==> l.Inside(t.0, t.1) && !l.Blocked(t.0, t.1)
  }

  lemma OpenSquareOctant(l: Level, cx: int, cy: int, r: int, oct: nat)
    requires OpenSquare(l, cx, cy, r) && oct < 8
    ensures OpenOctant(l, OctantOf(cx, cy, oct), r)
  {
    var o := OctantOf(cx, cy, oct);
    forall dx, j | 1 <= j <= r && -j <= dx <= 1 ensures !l.Blocked(o.X(dx, j), o.Y(dx, j)) {
      OctantTileNear(o, dx, j);
      var t: Tile := (o.X(dx, j), o.Y(dx, j));
      assert Near(cx, cy, r, t);
    }
  }

  /** Every tile of an open square view is seen. */
  lemma OpenSeen(l: Level, cx: int, cy: int, r: int, t: Tile)
    requires OpenSquare(l, cx, cy, r) && Near(cx, cy, r, t)
    ensures t in ViewTiles(l, cx, cy, r)
  {
    hide OpenSquare;
    if t != (cx, cy) {
      var oct, c, k := OctantOfTile(cx, cy, t.0 - cx, t.1 - cy);
      OpenSquareOctant(l, cx, cy, r, oct);
      InsideSquare(l, cx, cy, r, t);
      OpenMarked(l, OctantOf(cx, cy, oct), r, 1, -1, 0.0, c, k);
      assert t in CastTiles(l, OctantOf(cx, cy, oct), r, 1, 1.0, 0.0);
      InSomeOctant(l, cx, cy, r, oct, 0, t);
    }
  }

  lemma InsideSquare(l: Level, cx: int, cy: int, r: int, t: Tile)
    requires OpenSquare(l, cx, cy, r) && Near(cx, cy, r, t)
    ensures l.Inside(t.0, t.1) && !l.Occ(t.0, t.1)
  {
  }

  /** In an open view an emitter lights exactly the corners of its square. */
  lemma OpenLit(l: Level, e: EffSource, i: int, j: int)
    requires OpenSquare(l, e.src.X, e.src.Y, e.wr) && e.wr >= 0
    ensures Lit(l, e, i, j) <==> InView(e, i - e.src.X, j - e.src.Y)
  {
    hide ViewTiles, OpenSquare;
    if Lit(l, e, i, j) { LitIsNear(l, e, i, j); }
    if InView(e, i - e.src.X, j - e.src.Y) {
      var t: Tile := (Min(i, e.src.X + e.wr), Min(j, e.src.Y + e.wr));
      OpenSeen(l, e.src.X, e.src.Y, e.wr, t);
      InsideSquare(l, e.src.X, e.src.Y, e.wr, t);
      assert CornerOf(t, i, j);
    }
  }
}
