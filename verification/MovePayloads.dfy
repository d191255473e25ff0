/** The immutable payload of a selection move and the changes it commits
    (internal/aphelion/editing: move_payload.go, move_rotation.go:79-141). */
module MovePayloads {
  import opened Basics
  import opened Runs
  import opened Sorting
  import opened SelectionModel
  import opened MovePose
  import opened MoveJournal

  /** A selected tile and the visible contents captured there. */
  datatype PayloadTile = PayloadTile(source: Point, state: Contents)

  /** A destination, relative to the origin of the move, and the contents that land there. */
  datatype LandedTile = LandedTile(local: Cell, state: Contents)

  datatype MovePayload = MovePayload(selection: Selection, turns: int, tiles: seq<PayloadTile>, landed: seq<LandedTile>)

  /** Where a source tile lands before the shift, as the rotation loop computes it. */
  function LocalImage(area: Bounds, turns: int, p: Point): Cell {
    var c := ImageOf(area, turns, (p.X, p.Y));
    (c.0 - area.X1 + 1, c.1 - area.Y1 + 1)
  }

  /** The prefab after some quarter turns, if it has one. */
  type Rotation = (int, Prefab) -> Option<Prefab>

  /** The same instances, in order, possibly as other prefabs. */
  ghost predicate SameIds(a: Contents, b: Contents) {
    |a| == |b| && forall k :: 0 <= k < |a| ==> a[k].stableID == b[k].stableID
  }

  /** Each instance keeps its identity and becomes its rotated prefab. */
  ghost predicate IsRotated(turns: int, rotate: Rotation, state: Contents, out: Contents) {
    && SameIds(out, state)
    && forall k :: 0 <= k < |out| ==> rotate(turns, state[k].prefab) == Some(out[k].prefab)
  }

  predicate CanRotate(turns: int, rotate: Rotation, state: Contents) {
    forall k :: 0 <= k < |state| ==> rotate(turns, state[k].prefab).Some?
  }

  /** Unrotated contents stay as they are, rotated ones become their rotated prefabs. */
  ghost predicate IsMoved(turns: int, rotate: Rotation, state: Contents, out: Contents) {
    if turns == 0 then out == state else IsRotated(turns, rotate, state, out)
  }

  /** Tile by tile, the rotated position and contents of the captured tiles. */
  ghost predicate AreImages(area: Bounds, turns: int, rotate: Rotation, tiles: seq<PayloadTile>,
                            images: seq<LandedTile>) {
    && |images| == |tiles|
    && forall k :: 0 <= k < |tiles| ==>
         images[k].local == LocalImage(area, turns, tiles[k].source) &&
           IsMoved(turns, rotate, tiles[k].state, images[k].state)
  }

  ghost predicate DistinctSources(tiles: seq<PayloadTile>) {
    forall i, j :: 0 <= i < j < |tiles| ==> tiles[i].source != tiles[j].source
  }

  /** The payload covers each selected tile once, and its landed tiles are their images. */
  ghost predicate PayloadOk(p: MovePayload, rotate: Rotation) {
    && p.selection.Valid() && 0 <= p.turns < 4 && DistinctSources(p.tiles)
    && (forall t :: t in p.tiles ==> p.selection.Has(t.source))
    && (forall c: Point :: p.selection.Has(c) ==> exists t :: t in p.tiles && t.source == c)
    && exists images ::
      AreImages(p.selection.area, p.turns, rotate, p.tiles, images) && multiset(images) == multiset(p.landed)
  }

  // ---- compiling ------------------------------------------------------------------------------

  ghost function Ids(xs: Contents): set<string> { set x | x in xs :: x.stableID }

  ghost predicate DistinctIds(xs: Contents) { forall i, j :: 0 <= i < j < |xs| ==> xs[i].stableID != xs[j].stableID }

  predicate TileLe(a: PayloadTile, b: PayloadTile) { PointYLe(a.source, b.source) }

  predicate LandedLe(a: LandedTile, b: LandedTile) {
    a.local.1 < b.local.1 || (a.local.1 == b.local.1 && a.local.0 <= b.local.0)
  }

  /** What a compiled payload captured: the visible contents of every listed tile. */
  ghost predicate Captured(tiles: seq<PayloadTile>, coords: seq<Point>, lookup: TileMap, visible: string -> bool) {
    && |tiles| == |coords|
    && (forall k :: 0 <= k < |coords| ==> coords[k] in lookup)
    && (forall k :: 0 <= k < |coords| ==> tiles[k] == PayloadTile(coords[k], Visible(lookup[coords[k]], visible)))
  }

  ghost predicate ValidIds(xs: Contents, validID: string -> bool) { forall x :: x in xs ==> validID(x.stableID) }

  /** Checks the identities of one tile against those seen before. */
  method CheckIds(state: Contents, seen: set<string>, validID: string -> bool) returns (ok: bool, seen': set<string>)
    ensures ok <==> DistinctIds(state) && Ids(state) !! seen && ValidIds(state, validID)
    ensures ok ==> seen' == seen + Ids(state)
  {
    seen' := seen;
    for k := 0 to |state|
      invariant DistinctIds(state[..k]) && Ids(state[..k]) !! seen && seen' == seen + Ids(state[..k])
      invariant ValidIds(state[..k], validID)
    {
      var id := state[k].stableID;
      assert state[k] in state && id in Ids(state);
      assert state[..k + 1] == state[..k] + [state[k]];
      if !validID(id) || id in seen' {
        if id in Ids(state[..k]) {
          var x :| x in state[..k] && x.stableID == id;
          var i :| 0 <= i < k && state[..k][i] == x;
          assert state[i].stableID == state[k].stableID;
        }
        return false, seen';
      }
      forall i | 0 <= i < k ensures state[i].stableID != id { assert state[..k][i] in state[..k]; }
      assert Ids(state[..k + 1]) == Ids(state[..k]) + {id};
      seen' := seen' + {id};
    }
    assert state[..|state|] == state;
    ok := true;
  }

  predicate HasEmptyPath(xs: Contents) { exists k :: 0 <= k < |xs| && xs[k].prefab.path == "" }

  /** One selected tile can be captured on its own. */
  ghost predicate Capturable(p: Point, visible: string -> bool, lookup: TileMap, validID: string -> bool) {
    && p.X >= 1 && p.Y >= 1 && p in lookup && !HasEmptyPath(lookup[p])
    && DistinctIds(Visible(lookup[p], visible)) && ValidIds(Visible(lookup[p], visible), validID)
  }

  /** The selected tiles can be captured together: no visible identity occurs twice. */
  ghost predicate AllCapturable(coords: seq<Point>, visible: string -> bool, lookup: TileMap, validID: string -> bool) {
    && (forall k :: 0 <= k < |coords| ==> Capturable(coords[k], visible, lookup, validID))
    && (forall i, j :: 0 <= i < j < |coords| ==>
          Ids(Visible(lookup[coords[i]], visible)) !! Ids(Visible(lookup[coords[j]], visible)))
  }

  /** The identities of the tiles listed so far. */
  ghost predicate SeenIds(seen: set<string>, coords: seq<Point>, visible: string -> bool, lookup: TileMap)
    requires forall k :: 0 <= k < |coords| ==> coords[k] in lookup
  {
    forall id :: id in seen <==> exists k :: 0 <= k < |coords| && id in Ids(Visible(lookup[coords[k]], visible))
  }

  method CaptureTiles(coords: seq<Point>, visible: string -> bool, lookup: TileMap, validID: string -> bool)
    returns (ok: bool, tiles: seq<PayloadTile>)
    ensures ok <==> AllCapturable(coords, visible, lookup, validID)
    ensures ok ==> Captured(tiles, coords, lookup, visible)
  {
    hide Visible, Ids, DistinctIds, ValidIds, HasEmptyPath;
    tiles := [];
    var seen: set<string> := {};
    for k := 0 to |coords|
      invariant AllCapturable(coords[..k], visible, lookup, validID)
      invariant Captured(tiles, coords[..k], lookup, visible)
      invariant SeenIds(seen, coords[..k], visible, lookup)
    {
      var p := coords[k];
      if p.X < 1 || p.Y < 1 || p !in lookup || HasEmptyPath(lookup[p]) {
        assert !Capturable(coords[k], visible, lookup, validID);
        return false, tiles;
      }
      var state := Visible(lookup[p], visible);
      var seen';
      ok, seen' := CheckIds(state, seen, validID);
      if !ok {
        CannotCapture(coords, k, visible, lookup, validID, seen);
        return;
      }
      CapturableNext(coords, k, visible, lookup, validID, seen, seen');
      tiles, seen := tiles + [PayloadTile(p, state)], seen';
    }
    assert coords[..|coords|] == coords;
    ok := true;
  }

  lemma CannotCapture(coords: seq<Point>, k: nat, visible: string -> bool, lookup: TileMap, validID: string -> bool,
                      seen: set<string>)
    requires k < |coords| && AllCapturable(coords[..k], visible, lookup, validID) &&
      SeenIds(seen, coords[..k], visible, lookup)
    requires coords[k] in lookup
    requires var state := Visible(lookup[coords[k]], visible);
      !(DistinctIds(state) && Ids(state) !! seen && ValidIds(state, validID))
    ensures !AllCapturable(coords, visible, lookup, validID)
  {
    hide Visible, Ids, DistinctIds, ValidIds, HasEmptyPath;
    var state := Visible(lookup[coords[k]], visible);
    if exists id :: id in Ids(state) && id in seen {
      var id :| id in Ids(state) && id in seen;
      var i :| 0 <= i < k && id in Ids(Visible(lookup[coords[..k][i]], visible));
      assert id in Ids(Visible(lookup[coords[i]], visible));
    } else {
      assert !Capturable(coords[k], visible, lookup, validID);
    }
  }

  lemma CapturableNext(coords: seq<Point>, k: nat, visible: string -> bool, lookup: TileMap, validID: string -> bool,
                       seen: set<string>, seen': set<string>)
    requires k < |coords| && AllCapturable(coords[..k], visible, lookup, validID) &&
      SeenIds(seen, coords[..k], visible, lookup)
    requires Capturable(coords[k], visible, lookup, validID)
    requires var ids := Ids(Visible(lookup[coords[k]], visible)); ids !! seen && seen' == seen + ids
    ensures AllCapturable(coords[..k + 1], visible, lookup, validID) && SeenIds(seen', coords[..k + 1], visible, lookup)
  {
    hide Visible, Ids, DistinctIds, ValidIds, HasEmptyPath;
    var cs := coords[..k + 1];
    forall i | 0 <= i < |cs| ensures Capturable(cs[i], visible, lookup, validID) {
      if i < k { assert Capturable(coords[..k][i], visible, lookup, validID); }
    }
    var last := Ids(Visible(lookup[coords[k]], visible));
    forall i, j | 0 <=
      i < j < |cs| ensures Ids(Visible(lookup[cs[i]], visible)) !! Ids(Visible(lookup[cs[j]], visible)) {
      if j < k {
        assert Ids(Visible(lookup[coords[..k][i]], visible)) !! Ids(Visible(lookup[coords[..k][j]], visible));
      } else {
        assert forall id :: id in Ids(Visible(lookup[coords[..k][i]], visible)) ==> id in seen;
      }
    }
    forall id ensures id in seen' <==> exists i :: 0 <= i < |cs| && id in Ids(Visible(lookup[cs[i]], visible)) {
      if id in seen {
        var i :| 0 <= i < k && id in Ids(Visible(lookup[coords[..k][i]], visible));
        assert id in Ids(Visible(lookup[cs[i]], visible));
      }
      if id in last { assert id in Ids(Visible(lookup[cs[k]], visible)); }
      if i :| 0 <= i < |cs| && id in Ids(Visible(lookup[cs[i]], visible)) {
        if i < k { assert id in Ids(Visible(lookup[coords[..k][i]], visible)); }
      }
    }
  }

  lemma StartImages(area: Bounds, rotate: Rotation, tiles: seq<PayloadTile>, images: seq<LandedTile>)
    requires |images| == |tiles| && forall k :: 0 <= k < |tiles| ==>
      images[k] == LandedTile((tiles[k].source.X - area.X1 + 1, tiles[k].source.Y - area.Y1 + 1), tiles[k].state)
    ensures AreImages(area, 0, rotate, tiles, images)
  {
  }

  /** Every selected tile is available and no two visible identities among them are equal. */
  ghost predicate Movable(selection: Selection, visible: string -> bool, lookup: TileMap, validID: string -> bool) {
    && (forall p: Point :: selection.Has(p) ==> Capturable(p, visible, lookup, validID))
    && (forall p: Point, q: Point :: selection.Has(p) && selection.Has(q) && p != q ==>
          Ids(Visible(lookup[p], visible)) !! Ids(Visible(lookup[q], visible)))
  }

  lemma MovableList(selection: Selection, coords: seq<Point>, visible: string -> bool, lookup: TileMap,
                    validID: string -> bool)
    requires Distinct(coords) && forall p: Point :: p in coords <==> selection.Has(p)
    ensures Movable(selection, visible, lookup, validID) <==> AllCapturable(coords, visible, lookup, validID)
  {
    hide Capturable, Visible, Ids;
    assert forall k :: 0 <= k < |coords| ==> coords[k] in coords;
    if AllCapturable(coords, visible, lookup, validID) {
      forall p: Point | selection.Has(p) ensures Capturable(p, visible, lookup, validID) {
        var k :| 0 <= k < |coords| && coords[k] == p;
      }
      CapturableFound(coords, visible, lookup, validID);
      forall p: Point, q: Point | selection.Has(p) && selection.Has(q) && p != q
        ensures Ids(Visible(lookup[p], visible)) !! Ids(Visible(lookup[q], visible))
      {
        var i :| 0 <= i < |coords| && coords[i] == p;
        var j :| 0 <= j < |coords| && coords[j] == q;
        assert i < j || j < i;
      }
    }
  }

  lemma CapturableFound(coords: seq<Point>, visible: string -> bool, lookup: TileMap, validID: string -> bool)
    requires AllCapturable(coords, visible, lookup, validID)
    ensures forall p :: p in coords ==> p in lookup
  {
    forall p | p in coords ensures p in lookup {
      var k :| 0 <= k < |coords| && coords[k] == p;
      assert Capturable(coords[k], visible, lookup, validID);
    }
  }

  /** CompileMovePayload: an unrotated payload of every selected tile, or an error. */
  method CompileMovePayload(selection: Selection, visible: string -> bool, lookup: TileMap, validID: string -> bool)
    returns (ok: bool, p: MovePayload)
    requires selection.Valid()
    ensures ok <==> selection.Len() != 0 && selection.z >= 1 && WholeTileBounds(selection.area) &&
                    Movable(selection, visible, lookup, validID)
    ensures ok ==> p.turns == 0 && p.selection == selection && forall rotate :: PayloadOk(p, rotate)
    ensures ok ==> forall t :: t in p.tiles ==> t.source in lookup && t.state == Visible(lookup[t.source], visible)
    ensures ok ==> forall i, j :: 0 <= i < j < |p.tiles| ==>
      var a, b := p.tiles[i].source, p.tiles[j].source; a.Y < b.Y || (a.Y == b.Y && a.X <= b.X)
  {
    p := MovePayload(selection, 0, [], []);
    if selection.Len() == 0 || selection.z < 1 || !WholeTileBounds(selection.area) { return false, p; }
    var coords := Coordinates(selection);
    MovableList(selection, coords, visible, lookup, validID);
    hide Movable, AllCapturable, Visible;
    var tiles;
    ok, tiles := CaptureTiles(coords, visible, lookup, validID);
    if !ok { return; }
    var sorted := Sort(tiles, TileLe);
    var area := selection.area;
    var landed := seq(|sorted|, k requires 0 <= k < |sorted| =>
      LandedTile((sorted[k].source.X - area.X1 + 1, sorted[k].source.Y - area.Y1 + 1), sorted[k].state));
    p := MovePayload(selection, 0, sorted, landed);
    forall rotate ensures PayloadOk(p, rotate) {
      StartImages(area, rotate, sorted, landed);
      CompiledOk(p, rotate, coords, tiles, lookup, visible);
    }
    CapturedTiles(p, coords, tiles, lookup, visible);
  }

  lemma CapturedTiles(p: MovePayload, coords: seq<Point>, tiles: seq<PayloadTile>, lookup: TileMap,
                      visible: string -> bool)
    requires Captured(tiles, coords, lookup, visible) && multiset(tiles) == multiset(p.tiles)
    ensures forall t :: t in p.tiles ==> t.source in lookup && t.state == Visible(lookup[t.source], visible)
  {
    hide Visible;
    assert forall t :: t in p.tiles <==> t in multiset(p.tiles);
    assert forall t :: t in tiles <==> t in multiset(tiles);
    forall t | t in tiles ensures t.source in lookup && t.state == Visible(lookup[t.source], visible) {
      var k :| 0 <= k < |tiles| && tiles[k] == t;
    }
  }

  lemma CompiledOk(p: MovePayload, rotate: Rotation, coords: seq<Point>, tiles: seq<PayloadTile>, lookup: TileMap,
                   visible: string -> bool)
    requires p.selection.Valid() && p.turns == 0 && Captured(tiles, coords, lookup, visible) &&
      multiset(tiles) == multiset(p.tiles)
    requires Distinct(coords) && forall c: Point :: c in coords <==> p.selection.Has(c)
    requires AreImages(p.selection.area, 0, rotate, p.tiles, p.landed)
    ensures PayloadOk(p, rotate)
  {
    hide AreImages, Visible;
    assert forall t :: t in p.tiles <==> t in multiset(p.tiles);
    assert forall t :: t in tiles <==> t in multiset(tiles);
    forall t | t in tiles ensures t.source in coords && t.source in lookup &&
      t.state == Visible(lookup[t.source], visible) {
      var k :| 0 <= k < |tiles| && tiles[k] == t;
    }
    forall c: Point | p.selection.Has(c) ensures exists t :: t in p.tiles && t.source == c {
      var k :| 0 <= k < |coords| && coords[k] == c;
      assert tiles[k] in tiles && tiles[k].source == c;
    }
    SortedSourcesDistinct(coords, tiles, p.tiles, lookup, visible);
  }

  lemma SortedSourcesDistinct(coords: seq<Point>, tiles: seq<PayloadTile>, sorted: seq<PayloadTile>, lookup: TileMap,
                              visible: string -> bool)
    requires Captured(tiles, coords, lookup, visible) && Distinct(coords) && multiset(tiles) == multiset(sorted)
    ensures DistinctSources(sorted)
  {
    hide Visible;
    forall i, j | 0 <= i < j < |tiles| ensures tiles[i] != tiles[j] { assert coords[i] != coords[j]; }
    DistinctCounts(tiles);
    CountsDistinct(sorted);
    forall i, j | 0 <= i < j < |sorted| ensures sorted[i].source != sorted[j].source {
      assert sorted[i] in multiset(tiles) && sorted[j] in multiset(tiles);
      var a :| 0 <= a < |tiles| && tiles[a] == sorted[i];
      var b :| 0 <= b < |tiles| && tiles[b] == sorted[j];
      assert sorted[i] != sorted[j];
      assert coords[a] != coords[b];
    }
  }

  // ---- rotating ---------------------------------------------------------------------------------

  /** The per-turn rotation of a zero-based local coordinate. */
  method RotateLocal(area: Bounds, turns: int, p: Point) returns (c: Cell)
    requires 0 <= turns < 4
    ensures c == LocalImage(area, turns, p)
  {
    var x, y, w, h := p.X - area.X1, p.Y - area.Y1, area.X2 - area.X1 + 1, area.Y2 - area.Y1 + 1;
    for n := 0 to turns
      invariant (x + 1, y + 1) == LocalImage(area, n, p)
      invariant w == (if n % 2 == 0 then area.X2 - area.X1 + 1 else area.Y2 - area.Y1 + 1)
      invariant h == (if n % 2 == 0 then area.Y2 - area.Y1 + 1 else area.X2 - area.X1 + 1)
    {
      x, y, w, h := y, w - 1 - x, h, w;
    }
    c := (x + 1, y + 1);
  }

  method RotateState(turns: int, state: Contents, rotate: Rotation) returns (ok: bool, out: Contents)
    ensures ok <==> CanRotate(turns, rotate, state)
    ensures ok ==> IsRotated(turns, rotate, state, out)
  {
    out := [];
    for k := 0 to |state|
      invariant IsRotated(turns, rotate, state[..k], out)
      invariant forall i :: 0 <= i < k ==> rotate(turns, state[i].prefab).Some?
    {
      var prefab := rotate(turns, state[k].prefab);
      if prefab.None? { return false, out; }
      out := out + [Instance(state[k].stableID, prefab.value)];
    }
    assert state[..|state|] == state;
    ok := true;
  }

  /** MovePayload.Rotated: derived from the unrotated payload; zero turns give it back. */
  method Rotated(base: MovePayload, turns: int, rotate: Rotation) returns (ok: bool, p: MovePayload)
    requires PayloadOk(base, rotate) && base.turns == 0 && turns >= 0
    ensures ok <==> turns % 4 == 0 || forall k :: 0 <= k < |base.tiles| ==>
      CanRotate(turns % 4, rotate, base.tiles[k].state)
    ensures ok ==>
      PayloadOk(p, rotate) && p.turns == turns % 4 && p.selection == base.selection && p.tiles == base.tiles
    ensures ok && turns % 4 == 0 ==> p == base
    ensures ok && turns % 4 != 0 ==> forall i, j :: 0 <= i < j < |p.landed| ==>
      var a, b := p.landed[i].local, p.landed[j].local; a.1 < b.1 || (a.1 == b.1 && a.0 <= b.0)
  {
    hide AreImages, CanRotate;
    p := base;
    var t := turns % 4;
    if t == 0 { return true, p; }
    var images: seq<LandedTile>;
    ok, images := RotateTiles(base.selection.area, t, base.tiles, rotate);
    if !ok { return; }
    var landed := Sort(images, LandedLe);
    p := MovePayload(base.selection, t, base.tiles, landed);
  }

  /** The rotated position and contents of every captured tile, in capture order. */
  method RotateTiles(area: Bounds, turns: int, tiles: seq<PayloadTile>, rotate: Rotation)
    returns (ok: bool, images: seq<LandedTile>)
    requires 0 < turns < 4
    ensures ok <==> forall k :: 0 <= k < |tiles| ==> CanRotate(turns, rotate, tiles[k].state)
    ensures ok ==> AreImages(area, turns, rotate, tiles, images)
  {
    hide SameIds, CanRotate, LocalImage;
    images := [];
    for k := 0 to |tiles|
      invariant AreImages(area, turns, rotate, tiles[..k], images)
      invariant forall i :: 0 <= i < k ==> CanRotate(turns, rotate, tiles[i].state)
    {
      var local := RotateLocal(area, turns, tiles[k].source);
      var state;
      ok, state := RotateState(turns, tiles[k].state, rotate);
      if !ok { return; }
      images := images + [LandedTile(local, state)];
    }
    assert tiles[..|tiles|] == tiles;
    ok := true;
  }
}
