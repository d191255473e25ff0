/** What the recursive shadowcast means (internal/aphelion/lighting/compute.go:242-311): walls cast
    shadows, and a tile is seen along every unobstructed line of sight. */
module Shadows {
  import opened Basics
  import opened LightingTypes
  import opened ShadowCast

  /** The tile in column d of row j blocks sight. */
  predicate BlocksAt(l: Level, o: Octant, d: int, j: int) { l.Blocked(o.X(d, j), o.Y(d, j)) }

  /** Seen from the source, tile (c, k) lies strictly between the edges of tile (d, j). */
  predicate Covers(d: int, j: int, c: int, k: int)
    requires j >= 1 && k >= 1
  {
    RightSlope(d, j) < RightSlope(c, k) && LeftSlope(c, k) < LeftSlope(d, j)
  }

  /** The line of slope s from the source runs through tile (c, k). */
  predicate Through(s: real, c: int, k: int)
    requires k >= 1
  {
    RightSlope(c, k) < s < LeftSlope(c, k)
  }

  /** No blocked tile of an earlier row touches the line. */
  ghost predicate Clear(l: Level, o: Octant, s: real, k: int) {
    forall d, j :: 1 <= j < k && -j <= d <= 0 && BlocksAt(l, o, d, j) ==>
      s < RightSlope(d, j) || LeftSlope(d, j) < s
  }

  lemma OctantInjective(o: Octant, dx: int, j: int, c: int, k: int)
    requires UnitOctant(o) && o.X(dx, j) == o.X(c, k) && o.Y(dx, j) == o.Y(c, k)
    ensures dx == c && j == k
  {
  }

  lemma Quotients(a: real, b: real, n: real)
    requires n > 0.0
    ensures a < b ==> a / n < b / n
    ensures a <= b ==> a / n <= b / n
  {
  }

  /** The slopes as quotients with a positive denominator. */
  lemma SlopesAre(dx: int, j: int)
    requires j >= 1
    ensures LeftSlope(dx, j) == (0.5 - dx as real) / (j as real - 0.5)
    ensures RightSlope(dx, j) == (-(dx as real) - 0.5) / (j as real + 0.5)
  {
  }

  /** From left to right the slopes of a row fall. */
  lemma SlopesFall(dx: int, d: int, j: int)
    requires j >= 1 && dx < d
    ensures LeftSlope(dx, j) > LeftSlope(d, j) && RightSlope(dx, j) > RightSlope(d, j)
  {
    SlopesAre(dx, j);
    SlopesAre(d, j);
    Quotients(0.5 - d as real, 0.5 - dx as real, j as real - 0.5);
    Quotients(-(d as real) - 0.5, -(dx as real) - 0.5, j as real + 0.5);
  }

  // ---- shadows -----------------------------------------------------------------------------------

  /** The sight interval does not touch tile (c, k). */
  predicate Misses(start: real, end: real, c: int, k: int)
    requires k >= 1
  {
    start < RightSlope(c, k) || end > LeftSlope(c, k)
  }

  /** Sight intervals only shrink, so a tile they miss is never marked. */
  lemma {:induction false} MissedCells(l: Level, o: Octant, radius: int, j: int, dx: int, start: real, end: real,
                                       newStart: real, blocked: bool, c: int, k: int)
    requires UnitOctant(o) && 1 <= j <= radius && -j <= dx <= 2 && k >= 1
    requires Misses(start, end, c, k) && (blocked ==> newStart <= start)
    ensures (o.X(c, k), o.Y(c, k)) !in CellTiles(l, o, radius, j, dx, start, end, newStart, blocked)
    decreases radius - j, 1, 2 - dx
  {
    if dx > 1 || (start >= RightSlope(dx, j) && end > LeftSlope(dx, j)) {
      MissedRows(l, o, radius, j + 1, start, end, newStart, c, k);
    } else if start < RightSlope(dx, j) {
      MissedCells(l, o, radius, j, dx + 1, start, end, newStart, blocked, c, k);
    } else {
      if o.X(dx, j) == o.X(c, k) && o.Y(dx, j) == o.Y(c, k) { OctantInjective(o, dx, j, c, k); }
      var opaque_ := BlocksAt(l, o, dx, j);
      var (s, ns, b) := NextState(start, newStart, blocked, opaque_, j < radius, RightSlope(dx, j));
      MissedCells(l, o, radius, j, dx + 1, s, end, ns, b, c, k);
      MissedRows(l, o, radius, j + 1, start, LeftSlope(dx, j), 0.0, c, k);
    }
  }

  lemma {:induction false} MissedRows(l: Level, o: Octant, radius: int, j: int, start: real, end: real, newStart: real,
                                      c: int, k: int)
    requires UnitOctant(o) && j >= 1 && k >= 1 && Misses(start, end, c, k)
    ensures (o.X(c, k), o.Y(c, k)) !in RowTiles(l, o, radius, j, start, end, newStart)
    decreases radius - j + 1, 0, 0
  {
    if j <= radius { MissedCells(l, o, radius, j, -j, start, end, newStart, false, c, k); }
  }

  /** Behind column d of its row the scan of a row that hit the wall resumes below the shadow. */
  lemma {:induction false} PastCells(l: Level, o: Octant, radius: int, j: int, dx: int, start: real, end: real,
                                     newStart: real, d: int, c: int, k: int)
    requires UnitOctant(o) && 1 <= j < k && j <= radius && -j <= d < dx <= 2 && Covers(d, j, c, k)
    requires newStart <= start && newStart < RightSlope(c, k)
    ensures (o.X(c, k), o.Y(c, k)) !in CellTiles(l, o, radius, j, dx, start, end, newStart, true)
    decreases 2 - dx
  {
    if dx <= 1 {
      SlopesFall(d, dx, j);
      if start < RightSlope(dx, j) {
        PastCells(l, o, radius, j, dx + 1, start, end, newStart, d, c, k);
      } else if end <= LeftSlope(dx, j) {
        if o.X(dx, j) == o.X(c, k) && o.Y(dx, j) == o.Y(c, k) { OctantInjective(o, dx, j, c, k); }
        if BlocksAt(l, o, dx, j) {
          PastCells(l, o, radius, j, dx + 1, start, end, RightSlope(dx, j), d, c, k);
        } else {
          MissedCells(l, o, radius, j, dx + 1, newStart, end, newStart, false, c, k);
        }
      }
    }
  }

  /** A blocked tile (d, j) hides every tile (c, k) that it covers, whatever happened before. */
  lemma {:induction false} HiddenCells(l: Level, o: Octant, radius: int, i: int, dx: int, start: real, end: real,
                                       newStart: real, blocked: bool, d: int, j: int, c: int, k: int)
    requires UnitOctant(o) && 1 <= i <= j < k <= radius && -i <= dx <= 2 && -j <= d <= 0 && (i == j ==> dx <= d)
    requires BlocksAt(l, o, d, j) && Covers(d, j, c, k) && (blocked ==> newStart <= start)
    ensures (o.X(c, k), o.Y(c, k)) !in CellTiles(l, o, radius, i, dx, start, end, newStart, blocked)
    decreases radius - i, 1, 2 - dx
  {
    if i == j && dx < d { SlopesFall(dx, d, j); }
    if dx > 1 || (start >= RightSlope(dx, i) && end > LeftSlope(dx, i)) {
      if i < j {
        HiddenRows(l, o, radius, i + 1, start, end, newStart, d, j, c, k);
      } else {
        MissedRows(l, o, radius, i + 1, start, end, newStart, c, k);
      }
    } else if start < RightSlope(dx, i) {
      if i == j && dx == d {
        MissedCells(l, o, radius, i, dx + 1, start, end, newStart, blocked, c, k);
      } else {
        HiddenCells(l, o, radius, i, dx + 1, start, end, newStart, blocked, d, j, c, k);
      }
    } else {
      if o.X(dx, i) == o.X(c, k) && o.Y(dx, i) == o.Y(c, k) { OctantInjective(o, dx, i, c, k); }
      var (s, ns, b) := NextState(start, newStart, blocked, BlocksAt(l, o, dx, i), i < radius, RightSlope(dx, i));
      if i < j {
        HiddenRows(l, o, radius, i + 1, start, LeftSlope(dx, i), 0.0, d, j, c, k);
      } else {
        MissedRows(l, o, radius, i + 1, start, LeftSlope(dx, i), 0.0, c, k);
      }
      if i == j && dx == d {
        PastCells(l, o, radius, i, dx + 1, s, end, ns, d, c, k);
      } else {
        HiddenCells(l, o, radius, i, dx + 1, s, end, ns, b, d, j, c, k);
      }
    }
  }

  lemma {:induction false} HiddenRows(l: Level, o: Octant, radius: int, i: int, start: real, end: real, newStart: real,
                                      d: int, j: int, c: int, k: int)
    requires UnitOctant(o) && 1 <= i <= j < k <= radius && -j <= d <= 0
    requires BlocksAt(l, o, d, j) && Covers(d, j, c, k)
    ensures (o.X(c, k), o.Y(c, k)) !in RowTiles(l, o, radius, i, start, end, newStart)
    decreases radius - i + 1, 0, 0
  {
    HiddenCells(l, o, radius, i, -i, start, end, newStart, false, d, j, c, k);
  }

  // ---- sight -------------------------------------------------------------------------------------

  /** The row of the tile itself: the scan reaches it. */
  lemma {:induction false} ReachedCell(l: Level, o: Octant, radius: int, k: int, dx: int, start: real, end: real,
                                       newStart: real, blocked: bool, c: int)
    requires 1 <= k <= radius && -k <= dx <= c <= 0 && l.Inside(o.X(c, k), o.Y(c, k))
    requires start >= RightSlope(c, k) && end <= LeftSlope(c, k) && (blocked ==> newStart >= RightSlope(c, k))
    ensures (o.X(c, k), o.Y(c, k)) in CellTiles(l, o, radius, k, dx, start, end, newStart, blocked)
    decreases 2 - dx
  {
    if dx < c {
      SlopesFall(dx, c, k);
      if start < RightSlope(dx, k) {
        ReachedCell(l, o, radius, k, dx + 1, start, end, newStart, blocked, c);
      } else {
        var (s, ns, b) := NextState(start, newStart, blocked, BlocksAt(l, o, dx, k), k < radius, RightSlope(dx, k));
        ReachedCell(l, o, radius, k, dx + 1, s, end, ns, b, c);
      }
    }
  }

  /** Each row has a tile that the line runs through. */
  lemma LineCrosses(s: real, i: int) returns (m: int)
    requires 0.0 < s < 1.0 && i >= 1
    ensures -i <= m <= 0 && RightSlope(m, i) <= s <= LeftSlope(m, i)
  {
    var y := s * i as real;
    assert 0.0 <= y <= i as real;
    var n := (y + 0.5).Floor;
    m := -n;
    SlopesAre(m, i);
    assert n as real - 0.5 <= y && y <= n as real + 0.5;
    assert s * (i as real + 0.5) >= n as real - 0.5;
    assert s * (i as real - 0.5) <= n as real + 0.5;
    QuotientBounds(n as real - 0.5, s, i as real + 0.5);
    QuotientBounds(n as real + 0.5, s, i as real - 0.5);
  }

  lemma QuotientBounds(a: real, s: real, n: real)
    requires n > 0.0
    ensures a <= s * n ==> a / n <= s
    ensures s * n <= a ==> s <= a / n
  {
    Quotients(a, s * n, n);
    Quotients(s * n, a, n);
    assert s * n / n == s;
  }

  /** A cast whose sight interval contains a clear line marks the tile the line runs through. While
      the scan is behind a wall, the line is still ahead of it. */
  lemma {:induction false} SeenCells(l: Level, o: Octant, radius: int, i: int, dx: int, start: real, end: real,
                                     newStart: real, blocked: bool, s: real, m: int, c: int, k: int)
    requires 1 <= i < k <= radius && -i <= dx <= 2 && -k <= c <= 0 && l.Inside(o.X(c, k), o.Y(c, k))
    requires 0.0 < s < 1.0 && Clear(l, o, s, k) && Through(s, c, k) && 0.0 <= end <= s <= start
    requires -i <= m <= 0 && RightSlope(m, i) <= s <= LeftSlope(m, i)
    requires blocked ==> s <= newStart && dx <= m
    ensures (o.X(c, k), o.Y(c, k)) in CellTiles(l, o, radius, i, dx, start, end, newStart, blocked)
    decreases k - i, 1, 2 - dx
  {
    if dx < m { SlopesFall(dx, m, i); }
    if dx > m { SlopesFall(m, dx, i); }
    if dx > 1 || (start >= RightSlope(dx, i) && end > LeftSlope(dx, i)) {
      SeenRows(l, o, radius, i + 1, start, end, newStart, s, c, k);
    } else if start < RightSlope(dx, i) {
      SeenCells(l, o, radius, i, dx + 1, start, end, newStart, blocked, s, m, c, k);
    } else {
      RightColumn(i, dx);
      var opaque_ := BlocksAt(l, o, dx, i);
      if !blocked && opaque_ && LeftSlope(dx, i) < s {
        SeenRows(l, o, radius, i + 1, start, LeftSlope(dx, i), 0.0, s, c, k);
      } else {
        var (t, ns, b) := NextState(start, newStart, blocked, opaque_, i < radius, RightSlope(dx, i));
        SeenCells(l, o, radius, i, dx + 1, t, end, ns, b, s, m, c, k);
      }
    }
  }

  /** Tiles right of the axis lie below every line of sight. */
  lemma RightColumn(j: int, dx: int)
    requires j >= 1
    ensures dx >= 1 ==> LeftSlope(dx, j) < 0.0
    ensures dx <= 0 ==> LeftSlope(dx, j) > 0.0
  {
    SlopesAre(dx, j);
  }

  lemma {:induction false} SeenRows(l: Level, o: Octant, radius: int, i: int, start: real, end: real, newStart: real,
                                    s: real, c: int, k: int)
    requires 1 <= i <= k <= radius && -k <= c <= 0 && l.Inside(o.X(c, k), o.Y(c, k))
    requires 0.0 < s < 1.0 && Clear(l, o, s, k) && Through(s, c, k) && 0.0 <= end <= s <= start
    ensures (o.X(c, k), o.Y(c, k)) in RowTiles(l, o, radius, i, start, end, newStart)
    decreases k - i + 1, 0, 0
  {
    if i == k {
      ReachedCell(l, o, radius, k, -k, start, end, newStart, false, c);
    } else {
      var m := LineCrosses(s, i);
      SeenCells(l, o, radius, i, -i, start, end, newStart, false, s, m, c, k);
    }
  }

  // ---- the eight octants -------------------------------------------------------------------------

  /** The tile stands in column c of row k of an octant. */
  predicate StandsAt(o: Octant, c: int, k: int, t: Tile) { k >= 1 && -k <= c <= 0 && t == (o.X(c, k), o.Y(c, k)) }

  /** Some wall covers the tile, in whichever octant one looks for it. */
  ghost predicate InShadow(l: Level, cx: int, cy: int, t: Tile) {
    t != (cx, cy) && forall oct: nat, c, k :: oct < 8 && StandsAt(OctantOf(cx, cy, oct), c, k, t) ==>
      exists d, j :: 1 <= j < k && -j <= d <= 0 && BlocksAt(l, OctantOf(cx, cy, oct), d, j) && Covers(d, j, c, k)
  }

  /** A clear line of slope s runs through the tile. */
  ghost predicate SeenAlong(l: Level, o: Octant, s: real, c: int, k: int, t: Tile) {
    StandsAt(o, c, k, t) && 0.0 < s < 1.0 && Through(s, c, k) && Clear(l, o, s, k)
  }

  /** A clear line of sight runs through the tile, in some octant. */
  ghost predicate InSight(l: Level, cx: int, cy: int, t: Tile) {
    t == (cx, cy) || exists oct: nat, c, k, s :: oct < 8 && SeenAlong(l, OctantOf(cx, cy, oct), s, c, k, t)
  }

  /** Where in an octant a marked tile stands. */
  lemma {:induction false} MarkedCell(l: Level, o: Octant, radius: int, j: int, dx: int, start: real, end: real,
                                      newStart: real, blocked: bool, t: Tile)
    returns (c: int, k: int)
    requires 1 <= j <= radius && -j <= dx <= 2 && end >= 0.0
    requires t in CellTiles(l, o, radius, j, dx, start, end, newStart, blocked)
    ensures StandsAt(o, c, k, t) && k <= radius
    decreases radius - j, 1, 2 - dx
  {
    if dx > 1 || (start >= RightSlope(dx, j) && end > LeftSlope(dx, j)) {
      c, k := MarkedRow(l, o, radius, j + 1, start, end, newStart, t);
    } else if start < RightSlope(dx, j) {
      c, k := MarkedCell(l, o, radius, j, dx + 1, start, end, newStart, blocked, t);
    } else {
      RightColumn(j, dx);
      var opaque_ := l.Blocked(o.X(dx, j), o.Y(dx, j));
      var (s, ns, b) := NextState(start, newStart, blocked, opaque_, j < radius, RightSlope(dx, j));
      if t == (o.X(dx, j), o.Y(dx, j)) {
        c, k := dx, j;
      } else if t in CellTiles(l, o, radius, j, dx + 1, s, end, ns, b) {
        c, k := MarkedCell(l, o, radius, j, dx + 1, s, end, ns, b, t);
      } else {
        c, k := MarkedRow(l, o, radius, j + 1, start, LeftSlope(dx, j), 0.0, t);
      }
    }
  }

  lemma {:induction false} MarkedRow(l: Level, o: Octant, radius: int, j: int, start: real, end: real, newStart: real,
                                     t: Tile)
    returns (c: int, k: int)
    requires j >= 1 && end >= 0.0 && t in RowTiles(l, o, radius, j, start, end, newStart)
    ensures StandsAt(o, c, k, t) && k <= radius
    decreases radius - j + 1, 0, 0
  {
    c, k := MarkedCell(l, o, radius, j, -j, start, end, newStart, false, t);
  }

  lemma {:induction false} OctantsHidden(l: Level, cx: int, cy: int, radius: int, oct: nat, t: Tile)
    requires oct <= 8 && InShadow(l, cx, cy, t)
    ensures t !in OctantsFrom(l, cx, cy, radius, oct)
    decreases 8 - oct
  {
    hide CellTiles, BlocksAt, Covers;
    if oct < 8 {
      OctantsHidden(l, cx, cy, radius, oct + 1, t);
      var o := OctantOf(cx, cy, oct);
      if t in RowTiles(l, o, radius, 1, 1.0, 0.0, 0.0) {
        var c, k := MarkedRow(l, o, radius, 1, 1.0, 0.0, 0.0, t);
        var d, j :| 1 <= j < k && -j <= d <= 0 && BlocksAt(l, o, d, j) && Covers(d, j, c, k);
        HiddenRows(l, o, radius, 1, 1.0, 0.0, 0.0, d, j, c, k);
        assert false;
      }
    }
  }

  /** A tile in the shadow of a wall is not seen. */
  lemma ShadowUnseen(l: Level, cx: int, cy: int, radius: int, t: Tile)
    requires InShadow(l, cx, cy, t)
    ensures t !in ViewTiles(l, cx, cy, radius)
  {
    hide InShadow;
    OctantsHidden(l, cx, cy, radius, 0, t);
    assert t != (cx, cy) by { NotTheSource(l, cx, cy, t); }
  }

  lemma NotTheSource(l: Level, cx: int, cy: int, t: Tile)
    requires InShadow(l, cx, cy, t)
    ensures t != (cx, cy)
  {
  }

  /** A tile of the square view that a clear line runs through is seen. */
  lemma SightSeen(l: Level, cx: int, cy: int, radius: int, t: Tile)
    requires InSight(l, cx, cy, t) && l.Inside(t.0, t.1) && Near(cx, cy, radius, t)
    ensures t in ViewTiles(l, cx, cy, radius)
  {
    hide OctantOf, CellTiles, RowTiles, SeenAlong, OctantsFrom;
    if t != (cx, cy) {
      var oct: nat, c, k, s :| oct < 8 && SeenAlong(l, OctantOf(cx, cy, oct), s, c, k, t);
      OctantSeen(l, cx, cy, radius, oct, s, c, k, t);
      InSomeOctant(l, cx, cy, radius, oct, 0, t);
    }
  }

  lemma OctantSeen(l: Level, cx: int, cy: int, radius: int, oct: nat, s: real, c: int, k: int, t: Tile)
    requires oct < 8 && SeenAlong(l, OctantOf(cx, cy, oct), s, c, k, t) && l.Inside(t.0, t.1) && Near(cx, cy, radius, t)
    ensures t in CastTiles(l, OctantOf(cx, cy, oct), radius, 1, 1.0, 0.0)
  {
    hide RowTiles;
    RowDistance(cx, cy, radius, oct, c, k, t);
    hide OctantOf;
    SeenRows(l, OctantOf(cx, cy, oct), radius, 1, 1.0, 0.0, 0.0, s, c, k);
  }

  lemma RowDistance(cx: int, cy: int, radius: int, oct: nat, c: int, k: int, t: Tile)
    requires oct < 8 && StandsAt(OctantOf(cx, cy, oct), c, k, t) && Near(cx, cy, radius, t)
    ensures k <= radius
  {
  }

  /** No light reaches a corner whose four tiles are opaque or in shadow. */
  lemma ShadowedCorner(l: Level, e: EffSource, i: int, j: int)
    requires forall t: Tile :: CornerOf(t, i, j) ==> l.Occ(t.0, t.1) || InShadow(l, e.src.X, e.src.Y, t)
    ensures !Lit(l, e, i, j)
  {
    hide ViewTiles, CornerOf;
    forall t: Tile | t in ViewTiles(l, e.src.X, e.src.Y, e.wr) && !l.Occ(t.0, t.1) ensures !CornerOf(t, i, j) {
      if CornerOf(t, i, j) {
        ShadowUnseen(l, e.src.X, e.src.Y, e.wr, t);
        assert false;
      }
    }
  }

  /** Light reaches every corner of a transparent tile in sight. */
  lemma SightedCorner(l: Level, e: EffSource, t: Tile, i: int, j: int)
    requires InSight(l, e.src.X, e.src.Y, t) && l.Inside(t.0, t.1) && !l.Occ(t.0, t.1)
    requires Near(e.src.X, e.src.Y, e.wr, t) && CornerOf(t, i, j)
    ensures Lit(l, e, i, j)
  {
    SightSeen(l, e.src.X, e.src.Y, e.wr, t);
  }
}
