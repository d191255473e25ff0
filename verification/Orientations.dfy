/** Orientations of a paste template (internal/aphelion/editing/payload.go:120-168,
    template_transform.go): a keypress history only matters through its orientation. */
module Orientations {
  import opened Basics
  import opened Runs
  import opened Sorting
  import opened MoveJournal

  /** A signed orthogonal matrix. */
  datatype Orientation = Orientation(A: int, B: int, C: int, D: int)

  function Identity(): Orientation { Orientation(1, 0, 0, 1) }

  function MatrixOf(t: PlacementTransform): Orientation {
    match t
    case RotateRight => Orientation(0, 1, -1, 0)
    case RotateLeft => Orientation(0, -1, 1, 0)
    case MirrorHorizontal => Orientation(-1, 0, 0, 1)
    case MirrorVertical => Orientation(1, 0, 0, -1)
  }

  /** Orientation.Transform: the transform applied after o. */
  function Transform(o: Orientation, t: PlacementTransform): Orientation {
    var m := MatrixOf(t);
    Orientation(m.A * o.A + m.B * o.C, m.A * o.B + m.B * o.D, m.C * o.A + m.D * o.C, m.C * o.B + m.D * o.D)
  }

  /** The orientation a keypress history leads to. */
  function Fold(ts: seq<PlacementTransform>): Orientation {
    if ts == [] then Identity() else Transform(Fold(ts[..|ts| - 1]), ts[|ts| - 1])
  }

  /** The eight symmetries: one entry of each row and column is 1 or -1, the other 0. */
  predicate IsSymmetry(o: Orientation) {
    || (o.B == 0 && o.C == 0 && (o.A == 1 || o.A == -1) && (o.D == 1 || o.D == -1))
    || (o.A == 0 && o.D == 0 && (o.B == 1 || o.B == -1) && (o.C == 1 || o.C == -1))
  }

  lemma {:induction false} FoldIsSymmetry(ts: seq<PlacementTransform>)
    ensures IsSymmetry(Fold(ts))
  {
    hide Transform, IsSymmetry;
    if ts == [] {
      EightAreSymmetries();
    } else {
      FoldIsSymmetry(ts[..|ts| - 1]);
      TransformSymmetry(Fold(ts[..|ts| - 1]), ts[|ts| - 1]);
    }
  }

  lemma EightAreSymmetries()
    ensures IsSymmetry(Identity())
  {
  }

  /** The matrix product, written out for each transform. */
  lemma TransformRows(o: Orientation, t: PlacementTransform)
    ensures Transform(o, t) == match t
      case RotateRight => Orientation(o.C, o.D, -o.A, -o.B)
      case RotateLeft => Orientation(-o.C, -o.D, o.A, o.B)
      case MirrorHorizontal => Orientation(-o.A, -o.B, o.C, o.D)
      case MirrorVertical => Orientation(o.A, o.B, -o.C, -o.D)
  {
    match t
    case RotateRight => assert MatrixOf(t) == Orientation(0, 1, -1, 0);
    case RotateLeft => assert MatrixOf(t) == Orientation(0, -1, 1, 0);
    case MirrorHorizontal => assert MatrixOf(t) == Orientation(-1, 0, 0, 1);
    case MirrorVertical => assert MatrixOf(t) == Orientation(1, 0, 0, -1);
  }

  lemma TransformSymmetry(o: Orientation, t: PlacementTransform)
    requires IsSymmetry(o)
    ensures IsSymmetry(Transform(o, t))
  {
    hide Transform;
    TransformRows(o, t);
  }

  // ---- coordinates ---------------------------------------------------------------------------------

  /** Where each tile of a template is, by an arbitrary tile name. */
  type Layout = map<int, Point>

  /** The bounding box of a layout on level z. */
  ghost predicate IsTightBox(b: Bounds, z: int, m: Layout) {
    && (forall k :: k in m ==> b.Has(m[k].X, m[k].Y) && m[k].Z == z)
    && (exists k :: k in m && m[k].X == b.X1) && (exists k :: k in m && m[k].X == b.X2)
    && (exists k :: k in m && m[k].Y == b.Y1) && (exists k :: k in m && m[k].Y == b.Y2)
  }

  /** One transform of a tile: relative to the lower corner of the box, then turned. */
  function Moved(t: PlacementTransform, b: Bounds, p: Point): Point {
    TransformCoord(t, Bounds(1, 1, b.X2 - b.X1 + 1, b.Y2 - b.Y1 + 1), p.Z, Point(p.X - b.X1 + 1, p.Y - b.Y1 + 1, p.Z))
  }

  /** A template after one transform. */
  ghost predicate StepTo(t: PlacementTransform, m: Layout, m': Layout) {
    m'.Keys == m.Keys && exists b, z :: IsTightBox(b, z, m) && forall k :: k in m ==> m'[k] == Moved(t, b, m[k])
  }

  /** A template after a keypress history, one transform at a time. */
  ghost predicate HistoryTo(ts: seq<PlacementTransform>, m: Layout, m': Layout) {
    if ts == [] then m' == m
    else
      var init, last := ts[..|ts| - 1], ts[|ts| - 1];
      exists mid :: HistoryTo(init, m, mid) && StepTo(last, mid, m')
  }

  /** A row of the matrix, whose entries are 1, -1 and 0, applied to a point. */
  function Row(a: int, b: int, x: int, y: int): int { Signed(a, x) + Signed(b, y) }

  function Signed(a: int, x: int): int { if a == 1 then x else if a == -1 then -x else 0 }

  /** The least and the greatest value of a row of the matrix over a box. */
  function Least(a: int, b: int, box: Bounds): int
  {
    Row(a, b, if a == 1 then box.X1 else box.X2, if b == 1 then box.Y1 else box.Y2)
  }

  function Most(a: int, b: int, box: Bounds): int
  {
    Row(a, b, if a == 1 then box.X2 else box.X1, if b == 1 then box.Y2 else box.Y1)
  }

  /** The orientation applied to the template, moved to the lower corner (1, 1). */
  function Place(o: Orientation, b: Bounds, p: Point): Point {
    Point(Row(o.A, o.B, p.X, p.Y) - Least(o.A, o.B, b) + 1, Row(o.C, o.D, p.X, p.Y) - Least(o.C, o.D, b) + 1, p.Z)
  }

  /** The box of the template after it was placed. */
  function PlacedBox(o: Orientation, b: Bounds): Bounds {
    Bounds(1, 1, Most(o.A, o.B, b) - Least(o.A, o.B, b) + 1, Most(o.C, o.D, b) - Least(o.C, o.D, b) + 1)
  }

  lemma PlaceInBox(o: Orientation, b: Bounds, p: Point)
    requires IsSymmetry(o) && b.Has(p.X, p.Y)
    ensures var q := Place(o, b, p); PlacedBox(o, b).Has(q.X, q.Y) && q.Z == p.Z
  {
  }

  /** A row with one entry takes its least value on one side of the box and its greatest on the
      opposite one. */
  lemma RowEnds(a: int, c: int, b: Bounds, z: int, m: Layout) returns (lo: int, hi: int)
    requires IsTightBox(b, z, m) && ((c == 0 && (a == 1 || a == -1)) || (a == 0 && (c == 1 || c == -1)))
    ensures lo in m && hi in m && Row(a, c, m[lo].X, m[lo].Y) == Least(a, c, b) &&
      Row(a, c, m[hi].X, m[hi].Y) == Most(a, c, b)
  {
    if c == 0 {
      lo :| lo in m && m[lo].X == if a == 1 then b.X1 else b.X2;
      hi :| hi in m && m[hi].X == if a == 1 then b.X2 else b.X1;
    } else {
      lo :| lo in m && m[lo].Y == if c == 1 then b.Y1 else b.Y2;
      hi :| hi in m && m[hi].Y == if c == 1 then b.Y2 else b.Y1;
    }
  }

  lemma PlacedBoxTight(o: Orientation, b: Bounds, z: int, m: Layout, m': Layout)
    requires IsSymmetry(o) && IsTightBox(b, z, m) && m'.Keys == m.Keys && forall k :: k in m ==>
      m'[k] == Place(o, b, m[k])
    ensures IsTightBox(PlacedBox(o, b), z, m')
  {
    hide Row, Least, Most;
    var x1, x2 := RowEnds(o.A, o.B, b, z, m);
    var y1, y2 := RowEnds(o.C, o.D, b, z, m);
    forall k | k in m' ensures PlacedBox(o, b).Has(m'[k].X, m'[k].Y) && m'[k].Z == z { PlaceInBox(o, b, m[k]); }
    var c := PlacedBox(o, b);
    assert m'[x1].X == c.X1 && m'[x2].X == c.X2 && m'[y1].Y == c.Y1 && m'[y2].Y == c.Y2;
  }

  lemma BoxUnique(b: Bounds, c: Bounds, y: int, z: int, m: Layout)
    requires IsTightBox(b, y, m) && IsTightBox(c, z, m)
    ensures b == c && y == z
  {
  }

  /** Turning a placed template once more is placing it with the next orientation. */
  lemma MovedPlace(o: Orientation, t: PlacementTransform, b: Bounds, p: Point)
    requires IsSymmetry(o)
    ensures Moved(t, PlacedBox(o, b), Place(o, b, p)) == Place(Transform(o, t), b, p)
  {
    hide Transform;
    TransformRows(o, t);
  }

  /** The first transform does not need the lower corner to be (1, 1). */
  lemma MovedFirst(t: PlacementTransform, b: Bounds, p: Point)
    ensures Moved(t, b, p) == Place(Transform(Identity(), t), b, p)
  {
    hide Transform;
    TransformRows(Identity(), t);
  }

  /** A history of at least one transform puts every tile where its orientation says. */
  lemma {:induction false} HistoryPlaces(ts: seq<PlacementTransform>, b: Bounds, z: int, m: Layout, m': Layout)
    requires ts != [] && IsTightBox(b, z, m) && HistoryTo(ts, m, m')
    ensures m'.Keys == m.Keys && forall k :: k in m ==> m'[k] == Place(Fold(ts), b, m[k])
  {
    hide IsTightBox, Moved, Place, Transform;
    var init, t := ts[..|ts| - 1], ts[|ts| - 1];
    assert IsTightBox(b, z, m);
    var mid :| HistoryTo(init, m, mid) && StepTo(t, mid, m');
    var c, y :| IsTightBox(c, y, mid) && forall k :: k in mid ==> m'[k] == Moved(t, c, mid[k]);
    if init == [] {
      BoxUnique(b, c, z, y, m);
      forall k | k in m ensures m'[k] == Place(Fold(ts), b, m[k]) { MovedFirst(t, b, m[k]); }
    } else {
      HistoryPlaces(init, b, z, m, mid);
      FoldIsSymmetry(init);
      PlacedBoxTight(Fold(init), b, z, m, mid);
      BoxUnique(PlacedBox(Fold(init), b), c, z, y, mid);
      forall k | k in m ensures m'[k] == Place(Fold(ts), b, m[k]) { MovedPlace(Fold(init), t, b, m[k]); }
    }
  }

  // ---- Prepare ---------------------------------------------------------------------------------------

  /** A template tile; its contents are named by a tag. */
  datatype Tile = Tile(tag: int, coord: Point)

  ghost predicate HasLayout(tiles: seq<Tile>, m: Layout) {
    && (forall t :: t in tiles ==> t.tag in m && m[t.tag] == t.coord)
    && (forall k :: k in m ==> Tile(k, m[k]) in tiles)
  }

  /** What TransformPlacementTemplate accepts. */
  ghost predicate ValidTemplate(tiles: seq<Tile>) {
    && tiles != []
    && (forall i ::
        0 <= i < |tiles| ==> tiles[i].coord.X >= 1 && tiles[i].coord.Y >= 1 && tiles[i].coord.Z == tiles[0].coord.Z)
    && (forall i, j :: 0 <= i < j < |tiles| ==> tiles[i].coord != tiles[j].coord)
  }

  method CheckAndMeasure(tiles: seq<Tile>) returns (ok: bool, b: Bounds)
    requires tiles != []
    ensures ok <==> ValidTemplate(tiles)
    ensures ok ==> IsBoxOf(b, tiles)
  {
    hide Touched;
    var first := tiles[0].coord;
    b := Bounds(first.X, first.Y, first.X, first.Y);
    var seen: set<Point> := {};
    TouchedFirst(tiles);
    for k := 0 to |tiles|
      invariant seen == set i | 0 <= i < k :: tiles[i].coord
      invariant forall i :: 0 <= i < k ==> tiles[i].coord.X >= 1 && tiles[i].coord.Y >= 1 && tiles[i].coord.Z == first.Z
      invariant forall i, j :: 0 <= i < j < k ==> tiles[i].coord != tiles[j].coord
      invariant forall i :: 0 <= i < k ==> b.Has(tiles[i].coord.X, tiles[i].coord.Y)
      invariant Touched(b, tiles)
    {
      var c := tiles[k].coord;
      TouchedNext(b, tiles, k);
      if c.X < 1 || c.Y < 1 || c.Z != first.Z { return false, b; }
      if c in seen {
        var i :| 0 <= i < k && tiles[i].coord == c;
        return false, b;
      }
      forall i | 0 <= i < k ensures tiles[i].coord != c { assert tiles[i].coord in seen; }
      seen := seen + {c};
      b := Bounds(Min(b.X1, c.X), Min(b.Y1, c.Y), Max(b.X2, c.X), Max(b.Y2, c.Y));
    }
    ok := true;
  }

  lemma TouchedFirst(tiles: seq<Tile>)
    requires tiles != []
    ensures var c := tiles[0].coord; Touched(Bounds(c.X, c.Y, c.X, c.Y), tiles)
  {
    assert tiles[0] in tiles;
  }

  lemma TouchedNext(b: Bounds, tiles: seq<Tile>, k: nat)
    requires Touched(b, tiles) && k < |tiles|
    ensures var c := tiles[k].coord; Touched(Bounds(Min(b.X1, c.X), Min(b.Y1, c.Y), Max(b.X2, c.X), Max(b.Y2, c.Y)),
                                             tiles)
  {
    assert tiles[k] in tiles;
  }

  ghost predicate Touched(b: Bounds, tiles: seq<Tile>) {
    && (exists t :: t in tiles && t.coord.X == b.X1) && (exists t :: t in tiles && t.coord.X == b.X2)
    && (exists t :: t in tiles && t.coord.Y == b.Y1) && (exists t :: t in tiles && t.coord.Y == b.Y2)
  }

  ghost predicate IsBoxOf(b: Bounds, tiles: seq<Tile>) {
    Touched(b, tiles) && forall i :: 0 <= i < |tiles| ==> b.Has(tiles[i].coord.X, tiles[i].coord.Y)
  }

  lemma BoxOfLayout(b: Bounds, tiles: seq<Tile>, m: Layout)
    requires HasLayout(tiles, m) && IsBoxOf(b, tiles) && ValidTemplate(tiles)
    ensures IsTightBox(b, tiles[0].coord.Z, m)
  {
    forall k | k in m ensures b.Has(m[k].X, m[k].Y) && m[k].Z == tiles[0].coord.Z {
      var i :| 0 <= i < |tiles| && tiles[i] == Tile(k, m[k]);
    }
  }

  predicate TileLe(a: Tile, b: Tile) { a.coord.Y < b.coord.Y || (a.coord.Y == b.coord.Y && a.coord.X <= b.coord.X) }

  ghost function MovedLayout(t: PlacementTransform, b: Bounds, m: Layout): Layout
  {
    map k | k in m :: Moved(t, b, m[k])
  }

  function MovedTiles(t: PlacementTransform, b: Bounds, tiles: seq<Tile>): seq<Tile> {
    seq(|tiles|, i requires 0 <= i < |tiles| => Tile(tiles[i].tag, Moved(t, b, tiles[i].coord)))
  }

  lemma MovedTilesOk(t: PlacementTransform, b: Bounds, tiles: seq<Tile>, m: Layout)
    requires HasLayout(tiles, m) && IsBoxOf(b, tiles) && ValidTemplate(tiles)
    ensures HasLayout(MovedTiles(t, b, tiles), MovedLayout(t, b, m)) && ValidTemplate(MovedTiles(t, b, tiles))
  {
    hide Touched;
    var out, m' := MovedTiles(t, b, tiles), MovedLayout(t, b, m);
    forall u | u in out ensures u.tag in m' && m'[u.tag] == u.coord {
      var i :| 0 <= i < |out| && out[i] == u;
      assert tiles[i] in tiles;
    }
    forall k | k in m' ensures Tile(k, m'[k]) in out {
      var i :| 0 <= i < |tiles| && tiles[i] == Tile(k, m[k]);
      assert out[i] == Tile(k, m'[k]);
    }
  }

  lemma PermutedTiles(xs: seq<Tile>, ys: seq<Tile>, m: Layout)
    requires multiset(xs) == multiset(ys) && HasLayout(xs, m) && ValidTemplate(xs)
    ensures HasLayout(ys, m) && ValidTemplate(ys)
  {
    assert forall t :: t in xs <==> t in multiset(xs);
    assert forall t :: t in ys <==> t in multiset(ys);
    forall i, j | 0 <= i < j < |xs| ensures xs[i] != xs[j] { assert xs[i].coord != xs[j].coord; }
    DistinctCounts(xs);
    CountsDistinct(ys);
    assert |multiset(xs)| == |xs| && |multiset(ys)| == |ys|;
    forall i | 0 <= i < |ys| ensures exists a :: 0 <= a < |xs| && xs[a] == ys[i] { assert ys[i] in xs; }
    forall i, j | 0 <= i < j < |ys| ensures ys[i].coord != ys[j].coord {
      var a :| 0 <= a < |xs| && xs[a] == ys[i];
      var b :| 0 <= b < |xs| && xs[b] == ys[j];
      assert a != b;
      assert a < b || b < a;
    }
  }

  /** TransformPlacementTemplate, for the coordinates. `m` names the tiles. */
  method TransformTemplate(tiles: seq<Tile>, t: PlacementTransform, ghost m: Layout)
    returns (ok: bool, out: seq<Tile>, ghost m': Layout)
    requires HasLayout(tiles, m)
    ensures ok <==> ValidTemplate(tiles)
    ensures ok ==> HasLayout(out, m') && ValidTemplate(out) && StepTo(t, m, m')
    ensures ok ==> forall i, j :: 0 <= i < j < |out| ==>
      var a, b := out[i].coord, out[j].coord; a.Y < b.Y || (a.Y == b.Y && a.X <= b.X)
  {
    hide HasLayout, ValidTemplate, IsBoxOf, Moved, IsTightBox;
    out, m' := tiles, m;
    if tiles == [] { EmptyInvalid(tiles); return false, out, m'; }
    var b;
    ok, b := CheckAndMeasure(tiles);
    if !ok { return; }
    var moved := MovedTiles(t, b, tiles);
    m' := MovedLayout(t, b, m);
    BoxOfLayout(b, tiles, m);
    MovedTilesOk(t, b, tiles, m);
    out := Sort(moved, TileLe);
    PermutedTiles(moved, out, m');
  }

  lemma EmptyInvalid(tiles: seq<Tile>)
    requires tiles == []
    ensures !ValidTemplate(tiles)
  {
  }

  lemma FoldSnoc(ts: seq<PlacementTransform>, t: PlacementTransform)
    ensures Fold(ts + [t]) == Transform(Fold(ts), t)
  {
    assert (ts + [t])[..|ts|] == ts;
  }

  /** The orientation the search is at after `turns` turns, with or without the mirror. */
  function Visited(mirrored: bool, turns: int): Orientation {
    if mirrored then
      if turns == 0 then Orientation(-1, 0, 0, 1) else if turns == 1 then Orientation(0, 1, 1, 0)
      else if turns == 2 then Orientation(1, 0, 0, -1) else Orientation(0, -1, -1, 0)
    else
      if turns == 0 then Orientation(1, 0, 0, 1) else if turns == 1 then Orientation(0, 1, -1, 0)
      else if turns == 2 then Orientation(-1, 0, 0, -1) else Orientation(0, -1, 1, 0)
  }

  lemma VisitedNext(mirrored: bool, turns: int)
    requires 0 <= turns < 4
    ensures Transform(Visited(mirrored, turns), RotateRight) == Visited(mirrored, (turns + 1) % 4)
    ensures Transform(Identity(), MirrorHorizontal) == Visited(true, 0)
  {
    hide Transform;
    TransformRows(Visited(mirrored, turns), RotateRight);
    TransformRows(Identity(), MirrorHorizontal);
  }

  /** Trying every orientation visits all eight symmetries. */
  lemma VisitedAll(o: Orientation)
    ensures IsSymmetry(o) <==> exists mirrored, turns :: 0 <= turns < 4 && Visited(mirrored, turns) == o
  {
    if IsSymmetry(o) {
      if o.B == 0 {
        if o.A == o.D { assert Visited(false, if o.A == 1 then 0 else 2) == o; }
        else { assert Visited(true, if o.A == 1 then 2 else 0) == o; }
      } else {
        if o.B == o.C { assert Visited(true, if o.B == 1 then 1 else 3) == o; }
        else { assert Visited(false, if o.B == 1 then 1 else 3) == o; }
      }
    }
  }

  /** The four turns of one pass of the search. */
  method SearchTurns(o: Orientation, mirrored: bool) returns (path: Option<seq<PlacementTransform>>)
    ensures path.Some? <==> exists turns :: 0 <= turns < 4 && Visited(mirrored, turns) == o
    ensures path.Some? ==> Fold(path.value) == o && (path.value == [] <==> o == Identity())
  {
    hide Transform, Visited, Fold;
    var current, list := Identity(), [];
    StartOfSearch();
    if mirrored {
      FoldSnoc([], MirrorHorizontal);
      VisitedNext(true, 0);
      current, list := Transform(current, MirrorHorizontal), [MirrorHorizontal];
      assert [] + [MirrorHorizontal] == list;
    }
    for turns := 0 to 4
      invariant current == Fold(list) && current == Visited(mirrored, turns % 4)
      invariant list == [] <==> !mirrored && turns == 0
      invariant forall i :: 0 <= i < turns ==> Visited(mirrored, i) != o
    {
      if current == o {
        OnlyIdentityFirst(mirrored, turns);
        return Some(list);
      }
      VisitedNext(mirrored, turns);
      FoldSnoc(list, RotateRight);
      current, list := Transform(current, RotateRight), list + [RotateRight];
    }
    path := None;
  }

  lemma StartOfSearch()
    ensures Fold([]) == Identity() && Visited(false, 0) == Identity()
  {
  }

  lemma OnlyIdentityFirst(mirrored: bool, turns: int)
    requires 0 <= turns < 4
    ensures Visited(mirrored, turns) == Identity() <==> !mirrored && turns == 0
  {
  }

  /** The canonical path: found exactly for the eight symmetries, empty exactly for the identity. */
  method FindPath(o: Orientation) returns (path: Option<seq<PlacementTransform>>)
    ensures path.Some? <==> IsSymmetry(o)
    ensures path.Some? ==> Fold(path.value) == o && (path.value == [] <==> o == Identity())
  {
    hide IsSymmetry, Visited, Fold;
    VisitedAll(o);
    path := SearchTurns(o, false);
    if path.None? { path := SearchTurns(o, true); }
  }

  /** What Prepare does to the coordinates: nothing for the identity, else a canonical history. */
  ghost predicate Prepared(o: Orientation, m: Layout, m': Layout) {
    if o == Identity() then m' == m else exists path :: path != [] && Fold(path) == o && HistoryTo(path, m, m')
  }

  /** Prepare: it never reports an invalid orientation for a keypress history. */
  method Prepare(o: Orientation, source: seq<Tile>, ghost m: Layout)
    returns (ok: bool, out: seq<Tile>, ghost m': Layout)
    requires HasLayout(source, m)
    ensures ok <==> IsSymmetry(o) && (o == Identity() || ValidTemplate(source))
    ensures ok ==> HasLayout(out, m') && Prepared(o, m, m')
    ensures ok && o == Identity() ==> out == source
  {
    hide IsSymmetry, Fold, HasLayout, ValidTemplate, StepTo;
    out, m' := source, m;
    var found := FindPath(o);
    if found.None? { return false, out, m'; }
    var path := found.value;
    for k := 0 to |path|
      invariant HistoryTo(path[..k], m, m') && HasLayout(out, m')
      invariant k == 0 ==> out == source && m' == m
      invariant k > 0 ==> ValidTemplate(out) && ValidTemplate(source)
    {
      ghost var mid := m';
      ok, out, m' := TransformTemplate(out, path[k], m');
      if !ok { return; }
      assert path[..k + 1][..k] == path[..k];
      assert HistoryTo(path[..k + 1], m, m');
    }
    assert path[..|path|] == path;
    ok := true;
  }

  /** Preparing the folded orientation puts every tile where the keypresses, one by one, put it,
      exactly unless the history returns to the identity and the lower corner is not (1, 1). */
  lemma PrepareAgrees(ts: seq<PlacementTransform>, b: Bounds, z: int, m: Layout, stepped: Layout, prepared: Layout)
    requires IsTightBox(b, z, m) && HistoryTo(ts, m, stepped) && Prepared(Fold(ts), m, prepared)
    ensures prepared == stepped <==> ts == [] || Fold(ts) != Identity() || (b.X1 == 1 && b.Y1 == 1)
  {
    hide IsTightBox, Place, Transform, StepTo;
    if ts == [] {
      StartOfSearch();
    } else {
      HistoryPlaces(ts, b, z, m, stepped);
      if Fold(ts) == Identity() {
        IdentityPlaces(b, z, m, stepped);
      } else {
        var path :| path != [] && Fold(path) == Fold(ts) && HistoryTo(path, m, prepared);
        HistoryPlaces(path, b, z, m, prepared);
        assert forall k :: k in m ==> prepared[k] == stepped[k];
      }
    }
  }

  /** One tile at (2, 2), turned right and back: the keypresses move it to (1, 1), preparing the
      orientation leaves it where it was. */
  lemma TurnedBackMoves()
    ensures var ts, m := [RotateRight, RotateLeft], map[0 := Point(2, 2, 1)];
      && Fold(ts) == Identity() && HistoryTo(ts, m, map[0 := Point(1, 1, 1)])
      && forall prepared :: Prepared(Fold(ts), m, prepared) <==> prepared == m
  {
    hide StepTo, Fold;
    var m, home := map[0 := Point(2, 2, 1)], map[0 := Point(1, 1, 1)];
    TurnAndBack();
    SingleStep(RotateRight, Point(2, 2, 1));
    SingleStep(RotateLeft, Point(1, 1, 1));
    HistoryNext([], RotateRight, m, m, home);
    HistoryNext([RotateRight], RotateLeft, m, home, home);
    assert [] + [RotateRight] == [RotateRight] && [RotateRight] + [RotateLeft] == [RotateRight, RotateLeft];
  }

  lemma TurnAndBack()
    ensures Fold([RotateRight, RotateLeft]) == Identity()
  {
    assert [RotateRight, RotateLeft][..1] == [RotateRight] && [RotateRight][..0] == [];
    assert Fold([RotateRight]) == Orientation(0, 1, -1, 0);
  }

  lemma HistoryNext(ts: seq<PlacementTransform>, t: PlacementTransform, m: Layout, mid: Layout, m': Layout)
    requires HistoryTo(ts, m, mid) && StepTo(t, mid, m')
    ensures HistoryTo(ts + [t], m, m')
  {
    hide StepTo;
    assert (ts + [t])[..|ts|] == ts;
  }

  lemma SingleStep(t: PlacementTransform, p: Point)
    ensures StepTo(t, map[0 := p], map[0 := Point(1, 1, p.Z)])
  {
    var m := map[0 := p];
    assert 0 in m && m[0] == p;
    assert IsTightBox(Bounds(p.X, p.Y, p.X, p.Y), p.Z, m);
  }

  lemma IdentityPlaces(b: Bounds, z: int, m: Layout, m': Layout)
    requires IsTightBox(b, z, m) && m'.Keys == m.Keys && forall k :: k in m ==> m'[k] == Place(Identity(), b, m[k])
    ensures m' == m <==> b.X1 == 1 && b.Y1 == 1
  {
    assert forall k :: k in m ==> m'[k] == Point(m[k].X - b.X1 + 1, m[k].Y - b.Y1 + 1, m[k].Z);
    var k :| k in m && m[k].X == b.X1;
    assert m'[k] == Point(m[k].X - b.X1 + 1, m[k].Y - b.Y1 + 1, m[k].Z);
  }
}
