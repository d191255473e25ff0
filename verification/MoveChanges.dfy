/** What committing a move does to the map (internal/aphelion/editing/move_payload.go:234-305,
    306-360): contents are conserved, tiles get their base back and identities stay unique. */
module MoveChanges {
  import opened Basics
  import opened Runs
  import opened Paths
  import opened Sorting
  import opened SelectionModel
  import opened MovePose
  import opened MoveJournal
  import opened MovePayloads

  /** The map tile a landed tile goes to. */
  function DestOf(p: MovePayload, shift: Point, t: LandedTile): Point {
    Point(p.selection.area.X1 + t.local.0 - 1 + shift.X, p.selection.area.Y1 + t.local.1 - 1 + shift.Y, p.selection.z)
  }

  ghost function Dests(p: MovePayload, shift: Point, landed: seq<LandedTile>): set<Point> {
    set t | t in landed :: DestOf(p, shift, t)
  }

  ghost function Sources(tiles: seq<PayloadTile>): set<Point> { set t | t in tiles :: t.source }

  /** The contents that land on a tile. */
  function Incoming(p: MovePayload, shift: Point, landed: seq<LandedTile>, c: Point): Contents {
    if landed == [] then []
    else if DestOf(p, shift, landed[|landed| - 1]) == c then landed[|landed| - 1].state
    else Incoming(p, shift, landed[..|landed| - 1], c)
  }

  ghost predicate InUnion(p: MovePayload, shift: Point, c: Point) {
    c in Sources(p.tiles) || c in Dests(p, shift, p.landed)
  }

  /** A tile after the move: its hidden contents in place and order, then what lands on it. */
  ghost function ComposedTile(p: MovePayload, shift: Point, visible: string -> bool, before: Contents, c: Point):
    Contents
  {
    if InUnion(p, shift, c) then Hidden(before, visible) + Incoming(p, shift, p.landed, c) else before
  }

  /** The base prefabs a touched tile must not lack, and the identity drawn for the one added to a
      tile; drawing may fail. */
  datatype Defaults = Defaults(area: Prefab, turf: Prefab, draw: (Point, string) -> Option<string>)

  predicate HasType(state: Contents, path: string) {
    exists k :: 0 <= k < |state| && HasPrefix(state[k].prefab.path, path)
  }

  /** ensureMoveDefault, given the identity it draws. */
  function Ensured(state: Contents, path: string, base: Prefab, id: Option<string>): Option<Contents> {
    if base.path == "" then None
    else if HasType(state, path) then Some(state)
    else match id
      case None => None
      case Some(stableID) => Some(state + [Instance(stableID, base)])
  }

  /** First the area, then the turf; without defaults the tile stays as composed. */
  function Refilled(d: Option<Defaults>, c: Point, state: Contents): Option<Contents> {
    match d
    case None => Some(state)
    case Some(base) =>
      match Ensured(state, "/area", base.area, base.draw(c, "/area"))
      case None => None
      case Some(whole) => Ensured(whole, "/turf", base.turf, base.draw(c, "/turf"))
  }

  /** A tile as the move commits it, if it can. */
  ghost function Committed(p: MovePayload, shift: Point, visible: string -> bool, d: Option<Defaults>, before: Contents,
                           c: Point): Option<Contents> {
    if InUnion(p, shift, c) then Refilled(d, c, ComposedTile(p, shift, visible, before, c)) else Some(before)
  }

  // ---- validation ---------------------------------------------------------------------------

  /** The source still shows what was captured. */
  ghost predicate SourceValid(p: MovePayload, visible: string -> bool, m: TileMap) {
    forall t :: t in p.tiles ==> t.source in m && !HasEmptyPath(m[t.source]) && Visible(m[t.source], visible) == t.state
  }

  lemma VisibleNext(xs: Contents, k: nat, visible: string -> bool)
    requires k < |xs|
    ensures Visible(xs[..k + 1], visible) == Visible(xs[..k], visible) + if visible(xs[k].prefab.path) then [xs[k]]
      else []
  {
    assert xs[..k + 1][..k] == xs[..k];
  }

  /** Compares the visible prefabs of a tile with the captured ones, one by one. */
  method MatchVisible(current: Contents, state: Contents, visible: string -> bool) returns (ok: bool)
    ensures ok <==> !HasEmptyPath(current) && Visible(current, visible) == state
  {
    var matched, count := true, 0;
    for k := 0 to |current|
      invariant forall i :: 0 <= i < k ==> current[i].prefab.path != ""
      invariant count == |Visible(current[..k], visible)|
      invariant matched <==> count <= |state| && Visible(current[..k], visible) == state[..count]
    {
      if current[k].prefab.path == "" { return false; }
      VisibleNext(current, k, visible);
      if visible(current[k].prefab.path) {
        var v := Visible(current[..k], visible);
        if matched && count < |state| { assert state[..count + 1] == state[..count] + [state[count]]; }
        assert (v + [current[k]])[..count] == v;
        if count < |state| && state[..count + 1] == v + [current[k]] {
          assert state[..count + 1][..count] == state[..count];
        }
        if count >= |state| || current[k] != state[count] { matched := false; }
        count := count + 1;
      }
    }
    assert current[..|current|] == current;
    if matched && count == |state| { assert state[..count] == state; }
    ok := matched && count == |state|;
  }

  method ValidateSource(p: MovePayload, visible: string -> bool, m: TileMap) returns (ok: bool)
    ensures ok <==> SourceValid(p, visible, m)
  {
    hide Visible, HasEmptyPath;
    for k := 0 to |p.tiles|
      invariant forall i :: 0 <= i < k ==> p.tiles[i].source in m
      invariant forall i :: 0 <= i < k ==> !HasEmptyPath(m[p.tiles[i].source])
      invariant forall i :: 0 <= i < k ==> Visible(m[p.tiles[i].source], visible) == p.tiles[i].state
    {
      var t := p.tiles[k];
      assert t in p.tiles;
      if t.source !in m { return false; }
      var same := MatchVisible(m[t.source], t.state, visible);
      if !same { return false; }
    }
    ok := true;
  }

  // ---- destinations -----------------------------------------------------------------------------

  ghost predicate DistinctDests(p: MovePayload, shift: Point, landed: seq<LandedTile>) {
    forall i, j :: 0 <= i < j < |landed| ==> DestOf(p, shift, landed[i]) != DestOf(p, shift, landed[j])
  }

  lemma LocalInjective(area: Bounds, turns: int, a: Point, b: Point)
    requires a.Z == b.Z && LocalImage(area, turns, a) == LocalImage(area, turns, b)
    ensures a == b
  {
    ImageRoundTrip(area, turns, (a.X, a.Y));
    ImageRoundTrip(area, turns, (b.X, b.Y));
  }

  /** Different source tiles land on different tiles. */
  lemma LandedDistinct(p: MovePayload, rotate: Rotation, shift: Point, images: seq<LandedTile>)
    requires PayloadOk(p, rotate) && AreImages(p.selection.area, p.turns, rotate, p.tiles, images) &&
      multiset(images) == multiset(p.landed)
    ensures DistinctDests(p, shift, images) && DistinctDests(p, shift, p.landed)
  {
    hide IsMoved, LocalImage;
    forall i, j | 0 <= i < j < |images| ensures images[i].local != images[j].local {
      assert p.tiles[i] in p.tiles && p.tiles[j] in p.tiles;
      if images[i].local == images[j].local {
        LocalInjective(p.selection.area, p.turns, p.tiles[i].source, p.tiles[j].source);
      }
    }
    PermutedDests(p, shift, images, p.landed);
  }

  lemma PermutedDests(p: MovePayload, shift: Point, images: seq<LandedTile>, landed: seq<LandedTile>)
    requires multiset(images) == multiset(landed) && forall i, j :: 0 <= i < j < |images| ==>
      images[i].local != images[j].local
    ensures DistinctDests(p, shift, images) && DistinctDests(p, shift, landed)
  {
    assert Distinct(images);
    DistinctCounts(images);
    CountsDistinct(landed);
    forall i, j | 0 <= i < j < |landed| ensures DestOf(p, shift, landed[i]) != DestOf(p, shift, landed[j]) {
      assert landed[i] in multiset(images) && landed[j] in multiset(images);
      var a :| 0 <= a < |images| && images[a] == landed[i];
      var b :| 0 <= b < |images| && images[b] == landed[j];
      assert a != b;
    }
  }

  lemma {:induction false} IncomingAt(p: MovePayload, shift: Point, landed: seq<LandedTile>, k: nat)
    requires DistinctDests(p, shift, landed) && k < |landed|
    ensures Incoming(p, shift, landed, DestOf(p, shift, landed[k])) == landed[k].state
  {
    if k < |landed| - 1 {
      assert landed[..|landed| - 1][k] == landed[k];
      IncomingAt(p, shift, landed[..|landed| - 1], k);
    }
  }

  lemma {:induction false} IncomingElsewhere(p: MovePayload, shift: Point, landed: seq<LandedTile>, c: Point)
    requires c !in Dests(p, shift, landed)
    ensures Incoming(p, shift, landed, c) == []
  {
    if landed != [] {
      assert landed[|landed| - 1] in landed;
      assert forall t :: t in landed[..|landed| - 1] ==> t in landed;
      IncomingElsewhere(p, shift, landed[..|landed| - 1], c);
    }
  }

  // ---- building the changes ------------------------------------------------------------------------

  datatype TileChange = TileChange(coord: Point, before: Contents, after: Contents)

  function ApplyChanges(m: TileMap, changes: seq<TileChange>): TileMap {
    if changes == [] then m
    else
      var last := changes[|changes| - 1];
      ApplyChanges(m, changes[..|changes| - 1])[last.coord := last.after]
  }

  /** Collects the touched tiles and what lands on each destination. */
  method Collect(p: MovePayload, shift: Point) returns (union: set<Point>, incoming: TileMap)
    requires |p.tiles| == |p.landed| && DistinctDests(p, shift, p.landed)
    ensures forall c :: c in union <==> InUnion(p, shift, c)
    ensures forall c :: (if c in incoming then incoming[c] else []) == Incoming(p, shift, p.landed, c)
  {
    union, incoming := {}, map[];
    for k := 0 to |p.tiles|
      invariant union == Sources(p.tiles[..k]) + Dests(p, shift, p.landed[..k])
      invariant incoming.Keys <= Dests(p, shift, p.landed[..k])
      invariant forall c :: (if c in incoming then incoming[c] else []) == Incoming(p, shift, p.landed[..k], c)
    {
      var source, t := p.tiles[k].source, p.landed[k];
      var destination := DestOf(p, shift, t);
      CollectNext(p, shift, k);
      union := union + {source} + {destination};
      if t.state != [] { incoming := incoming[destination := t.state]; }
    }
    assert p.tiles[..|p.tiles|] == p.tiles && p.landed[..|p.landed|] == p.landed;
  }

  lemma CollectNext(p: MovePayload, shift: Point, k: nat)
    requires k < |p.tiles| == |p.landed| && DistinctDests(p, shift, p.landed)
    ensures Sources(p.tiles[..k + 1]) == Sources(p.tiles[..k]) + {p.tiles[k].source}
    ensures Dests(p, shift, p.landed[..k + 1]) == Dests(p, shift, p.landed[..k]) + {DestOf(p, shift, p.landed[k])}
    ensures DestOf(p, shift, p.landed[k]) !in Dests(p, shift, p.landed[..k])
    ensures Incoming(p, shift, p.landed[..k], DestOf(p, shift, p.landed[k])) == []
    ensures forall c :: Incoming(p, shift, p.landed[..k + 1], c)
                     == if c == DestOf(p, shift, p.landed[k]) then p.landed[k].state
                       else Incoming(p, shift, p.landed[..k], c)
  {
    assert p.tiles[..k + 1] == p.tiles[..k] + [p.tiles[k]];
    assert p.landed[..k + 1] == p.landed[..k] + [p.landed[k]];
    assert p.landed[..k + 1][..k] == p.landed[..k];
    forall t | t in p.landed[..k] ensures DestOf(p, shift, t) != DestOf(p, shift, p.landed[k]) {
      var i :| 0 <= i < k && p.landed[..k][i] == t;
      assert p.landed[i] == t;
    }
    IncomingElsewhere(p, shift, p.landed[..k], DestOf(p, shift, p.landed[k]));
  }

  /** The first n coordinates have been composed. */
  ghost predicate ComposedUpTo(p: MovePayload, shift: Point, visible: string -> bool, d: Option<Defaults>, m: TileMap,
                               changes: seq<TileChange>, coords: seq<Point>)
  {
    var out := ApplyChanges(m, changes);
    && out.Keys == m.Keys
    && (forall c :: c in m ==>
          Some(out[c]) == if c in coords then Committed(p, shift, visible, d, m[c], c) else Some(m[c]))
    && (forall ch ::
        ch in changes ==> ch.coord in coords && ch.coord in m && ch.before == m[ch.coord] && ch.before != ch.after)
  }

  lemma ComposedNext(p: MovePayload, shift: Point, visible: string -> bool, d: Option<Defaults>, m: TileMap,
                     changes: seq<TileChange>, coords: seq<Point>, c: Point, after: Contents)
    requires ComposedUpTo(p, shift, visible, d, m, changes, coords) && c in m && c !in coords
    requires Some(after) == Committed(p, shift, visible, d, m[c], c)
    ensures var changes' := if m[c] == after then changes else changes + [TileChange(c, m[c], after)];
      ComposedUpTo(p, shift, visible, d, m, changes', coords + [c])
  {
    hide Committed, ApplyChanges;
    if m[c] != after {
      var ch := TileChange(c, m[c], after);
      AppliedLast(m, changes, ch);
      assert forall x :: x in changes + [ch] <==> x in changes || x == ch;
    }
    assert forall e :: e in coords + [c] <==> e in coords || e == c;
  }

  lemma AppliedLast(m: TileMap, changes: seq<TileChange>, ch: TileChange)
    ensures ApplyChanges(m, changes + [ch]) == ApplyChanges(m, changes)[ch.coord := ch.after]
  {
    assert (changes + [ch])[..|changes|] == changes;
  }

  /** buildMoveChanges: the exact sparse changes of the move, or an error. */
  method BuildMoveChanges(p: MovePayload, ghost rotate: Rotation, shift: Point, visible: string -> bool, m: TileMap,
                          d: Option<Defaults>)
    returns (ok: bool, changes: seq<TileChange>)
    requires PayloadOk(p, rotate)
    ensures ok <==>
      shift.Z == 0 && SourceValid(p, visible, m) &&
      forall c :: InUnion(p, shift, c) ==> c in m && Committed(p, shift, visible, d, m[c], c).Some?
    ensures ok ==> var m' := ApplyChanges(m, changes);
      m'.Keys == m.Keys && forall c :: c in m ==> Committed(p, shift, visible, d, m[c], c) == Some(m'[c])
    ensures ok ==> forall ch :: ch in changes ==>
      InUnion(p, shift, ch.coord) && ch.coord in m && ch.before == m[ch.coord] && ch.before != ch.after
    ensures ok ==> InRows(CoordsOf(changes))
  {
    hide Visible, Hidden, Incoming, PayloadOk, InUnion, DistinctDests, SourceValid, Committed, ApplyChanges,
         ComposedUpTo, InRows;
    changes := [];
    if shift.Z != 0 { return false, changes; }
    ok := ValidateSource(p, visible, m);
    if !ok { return; }
    LandsApart(p, rotate, shift);
    var union, incoming := Collect(p, shift);
    var coords := SortMoveCoords(union);
    ok, changes := ComposeAll(p, shift, visible, m, d, coords, incoming);
    if ok { ComposedAll(p, shift, visible, d, m, changes, coords); }
  }

  function CoordsOf(changes: seq<TileChange>): seq<Point> {
    seq(|changes|, i requires 0 <= i < |changes| => changes[i].coord)
  }

  lemma RowsNone()
    ensures CoordsOf([]) == [] && InRows([])
  {
  }

  lemma RowsNext(changes: seq<TileChange>, ch: TileChange, coords: seq<Point>, k: nat)
    requires k < |coords| && InRows(coords) && ch.coord == coords[k]
    requires InRows(CoordsOf(changes)) && forall q :: q in CoordsOf(changes) ==> q in coords[..k]
    ensures InRows(CoordsOf(changes + [ch])) && CoordsOf(changes + [ch]) == CoordsOf(changes) + [ch.coord]
  {
    var out := CoordsOf(changes) + [ch.coord];
    assert CoordsOf(changes + [ch]) == out;
    forall i | 0 <= i < |changes| ensures exists n :: 0 <= n < k && coords[n] == out[i] {
      assert out[i] in CoordsOf(changes);
      var n :| 0 <= n < |coords[..k]| && coords[..k][n] == out[i];
      assert coords[n] == out[i];
    }
  }

  /** Composes every touched tile in order; fails on a tile the map does not have or that cannot
      be refilled. */
  method ComposeAll(p: MovePayload, shift: Point, visible: string -> bool, m: TileMap, d: Option<Defaults>,
                    coords: seq<Point>, incoming: TileMap)
    returns (ok: bool, changes: seq<TileChange>)
    requires Distinct(coords) && InRows(coords) && forall c :: c in coords <==> InUnion(p, shift, c)
    requires forall c :: (if c in incoming then incoming[c] else []) == Incoming(p, shift, p.landed, c)
    ensures ok <==> forall c :: InUnion(p, shift, c) ==> c in m && Committed(p, shift, visible, d, m[c], c).Some?
    ensures ok ==> ComposedUpTo(p, shift, visible, d, m, changes, coords) && InRows(CoordsOf(changes))
  {
    hide Hidden, Incoming, InUnion, ComposedUpTo, Distinct, Refilled, InRows, CoordsOf;
    RowsNone();
    changes := [];
    NothingComposed(p, shift, visible, d, m, coords);
    for k := 0 to |coords|
      invariant ComposedUpTo(p, shift, visible, d, m, changes, coords[..k])
      invariant InRows(CoordsOf(changes)) && forall q :: q in CoordsOf(changes) ==> q in coords[..k]
      invariant forall i :: 0 <= i < k ==>
        coords[i] in m && Committed(p, shift, visible, d, m[coords[i]], coords[i]).Some?
    {
      var c := coords[k];
      assert c in coords;
      DistinctEarlier(coords, k);
      if c !in m { return false, changes; }
      var after := Refilled(d, c, Hidden(m[c], visible) + if c in incoming then incoming[c] else []);
      if after.None? { return false, changes; }
      ComposedNext(p, shift, visible, d, m, changes, coords[..k], c, after.value);
      assert coords[..k] + [c] == coords[..k + 1];
      if m[c] != after.value {
        RowsNext(changes, TileChange(c, m[c], after.value), coords, k);
        changes := changes + [TileChange(c, m[c], after.value)];
      }
    }
    assert coords[..|coords|] == coords;
    ok := true;
  }

  lemma ComposedAll(p: MovePayload, shift: Point, visible: string -> bool, d: Option<Defaults>, m: TileMap,
                    changes: seq<TileChange>, coords: seq<Point>)
    requires ComposedUpTo(p, shift, visible, d, m, changes, coords) && forall c :: c in coords <==> InUnion(p, shift, c)
    ensures var m' := ApplyChanges(m, changes);
      m'.Keys == m.Keys && forall c :: c in m ==> Committed(p, shift, visible, d, m[c], c) == Some(m'[c])
    ensures forall ch :: ch in changes ==>
      InUnion(p, shift, ch.coord) && ch.coord in m && ch.before == m[ch.coord] && ch.before != ch.after
  {
    hide ApplyChanges, InUnion, Refilled, ComposedTile;
  }

  lemma LandsApart(p: MovePayload, rotate: Rotation, shift: Point)
    requires PayloadOk(p, rotate)
    ensures |p.tiles| == |p.landed| && DistinctDests(p, shift, p.landed)
  {
    hide AreImages, DistinctDests;
    var images: seq<LandedTile> :|
      AreImages(p.selection.area, p.turns, rotate, p.tiles, images) && multiset(images) == multiset(p.landed);
    LandedDistinct(p, rotate, shift, images);
    SameLength(p, rotate, images);
  }

  lemma SameLength(p: MovePayload, rotate: Rotation, images: seq<LandedTile>)
    requires AreImages(p.selection.area, p.turns, rotate, p.tiles, images) && multiset(images) == multiset(p.landed)
    ensures |p.tiles| == |p.landed|
  {
    assert |multiset(images)| == |images| && |multiset(p.landed)| == |p.landed|;
  }

  lemma NothingComposed(p: MovePayload, shift: Point, visible: string -> bool, d: Option<Defaults>, m: TileMap,
                        coords: seq<Point>)
    ensures ComposedUpTo(p, shift, visible, d, m, [], coords[..0])
  {
  }

  // ---- what the move conserves ---------------------------------------------------------------------

  /** No stable identity occurs twice on the map. */
  ghost predicate UniqueIds(m: TileMap) {
    && (forall c :: c in m ==> DistinctIds(m[c]))
    && (forall c, d :: c in m && d in m && c != d ==> Ids(m[c]) !! Ids(m[d]))
  }

  /** Where the k-th captured tile lands, when `images` are the images of the tiles. */
  function Target(p: MovePayload, shift: Point, k: nat): Point
    requires k < |p.tiles|
  {
    SourceTo(p, shift, p.tiles[k].source)
  }

  lemma ImageDest(p: MovePayload, rotate: Rotation, shift: Point, images: seq<LandedTile>, k: nat)
    requires AreImages(p.selection.area, p.turns, rotate, p.tiles, images) && k < |p.tiles|
    ensures DestOf(p, shift, images[k]) == Target(p, shift, k)
  {
    hide IsMoved, ImageOf;
  }

  lemma SameElements<T>(xs: seq<T>, ys: seq<T>, x: T)
    requires multiset(xs) == multiset(ys) && x in xs
    ensures x in ys
  {
    assert x in multiset(xs);
  }

  lemma IncomingAtTarget(p: MovePayload, rotate: Rotation, shift: Point, images: seq<LandedTile>, k: nat)
    requires PayloadOk(p, rotate) && AreImages(p.selection.area, p.turns, rotate, p.tiles, images) &&
      multiset(images) == multiset(p.landed)
    requires k < |p.tiles|
    ensures Incoming(p, shift, p.landed, Target(p, shift, k)) == images[k].state
    ensures Target(p, shift, k) in Dests(p, shift, p.landed)
  {
    hide PayloadOk, SourceTo, DestOf, Incoming;
    LandedDistinct(p, rotate, shift, images);
    ImageDest(p, rotate, shift, images, k);
    hide AreImages;
    SameElements(images, p.landed, images[k]);
    var j :| 0 <= j < |p.landed| && p.landed[j] == images[k];
    IncomingAt(p, shift, p.landed, j);
    assert p.landed[j] in p.landed;
  }

  lemma IncomingHasSource(p: MovePayload, rotate: Rotation, shift: Point, images: seq<LandedTile>,
                          c: Point) returns (k: nat)
    requires PayloadOk(p, rotate) && AreImages(p.selection.area, p.turns, rotate, p.tiles, images) &&
      multiset(images) == multiset(p.landed)
    requires c in Dests(p, shift, p.landed)
    ensures k < |p.tiles| && Target(p, shift, k) == c && Incoming(p, shift, p.landed, c) == images[k].state
  {
    hide PayloadOk, SourceTo, DestOf, Incoming, IsMoved;
    var t :| t in p.landed && DestOf(p, shift, t) == c;
    SameElements(p.landed, images, t);
    k :| 0 <= k < |images| && images[k] == t;
    ImageDest(p, rotate, shift, images, k);
    hide AreImages;
    IncomingAtTarget(p, rotate, shift, images, k);
  }

  /** The tiles the commit writes to are exactly those the payload's destination test accepts,
      hence (MovePose.SelectionMove.PreviewAgrees) exactly the previewed mask. */
  lemma CommitAgreesWithPreview(p: MovePayload, rotate: Rotation, shift: Point, c: Point)
    requires PayloadOk(p, rotate)
    ensures c in Dests(p, shift, p.landed) <==>
      var o := SourceOf(p.selection.area, p.turns, (c.X - shift.X, c.Y - shift.Y));
      c.Z == p.selection.z && InRuns(p.selection.AbsRuns(), o.0, o.1)
  {
    hide InRuns, AreImages, Dests, SourceOf, ImageOf, Incoming;
    var images: seq<LandedTile> :|
      AreImages(p.selection.area, p.turns, rotate, p.tiles, images) && multiset(images) == multiset(p.landed);
    var o := SourceOf(p.selection.area, p.turns, (c.X - shift.X, c.Y - shift.Y));
    ImageRoundTrip(p.selection.area, p.turns, (c.X - shift.X, c.Y - shift.Y));
    if c in Dests(p, shift, p.landed) {
      var k := IncomingHasSource(p, rotate, shift, images, c);
      var x := p.tiles[k].source;
      assert p.tiles[k] in p.tiles;
      ImageRoundTrip(p.selection.area, p.turns, (x.X, x.Y));
    }
    if c.Z == p.selection.z && InRuns(p.selection.AbsRuns(), o.0, o.1) {
      assert p.selection.Has(Point(o.0, o.1, p.selection.z));
      var t :| t in p.tiles && t.source == Point(o.0, o.1, p.selection.z);
      var k :| 0 <= k < |p.tiles| && p.tiles[k] == t;
      IncomingAtTarget(p, rotate, shift, images, k);
    }
  }

  /** The tile holds its hidden instances, in place and order, and behind them exactly the visible
      instances of the source tile, in order: as they were without turns, with their rotated prefabs
      and their identities otherwise. */
  ghost predicate Received(turns: int, rotate: Rotation, visible: string -> bool, source: Contents, before: Contents,
                           after: Contents) {
    exists hidden, moved, state ::
      Sifted(before, visible, false, hidden) && Sifted(source, visible, true, moved)
      && IsMoved(turns, rotate, moved, state) && after == hidden + state
  }

  /** Every selected visible prefab ends up, rotated, with its identity and in order, behind the hidden
      contents of its rotated and shifted destination; vacated sources keep only hidden contents;
      tiles outside the union do not change. */
  lemma MoveMeaning(p: MovePayload, rotate: Rotation, shift: Point, visible: string -> bool, m: TileMap, c: Point)
    requires PayloadOk(p, rotate) && SourceValid(p, visible, m) && c in m
    ensures !InUnion(p, shift, c) ==> ComposedTile(p, shift, visible, m[c], c) == m[c]
    ensures InUnion(p, shift, c) && c !in Dests(p, shift, p.landed) ==>
      Sifted(m[c], visible, false, ComposedTile(p, shift, visible, m[c], c))
    ensures forall k :: 0 <= k < |p.tiles| && Target(p, shift, k) == c ==>
      Received(p.turns, rotate, visible, m[p.tiles[k].source], m[c], ComposedTile(p, shift, visible, m[c], c))
  {
    hide Hidden, Visible, Incoming, Sifted;
    var images: seq<LandedTile> :|
      AreImages(p.selection.area, p.turns, rotate, p.tiles, images) && multiset(images) == multiset(p.landed);
    SiftedInOrder(m[c], visible);
    if c !in Dests(p, shift, p.landed) {
      IncomingElsewhere(p, shift, p.landed, c);
      assert Hidden(m[c], visible) + [] == Hidden(m[c], visible);
    }
    forall k | 0 <= k < |p.tiles| && Target(p, shift, k) == c
      ensures Received(p.turns, rotate, visible, m[p.tiles[k].source], m[c], ComposedTile(p, shift, visible, m[c], c))
    {
      IncomingAtTarget(p, rotate, shift, images, k);
      assert p.tiles[k] in p.tiles;
      var source := m[p.tiles[k].source];
      SiftedInOrder(source, visible);
      assert IsMoved(p.turns, rotate, Visible(source, visible), images[k].state);
    }
  }

  lemma {:induction false} SplitIds(xs: Contents, visible: string -> bool)
    ensures Ids(Hidden(xs, visible)) + Ids(Visible(xs, visible)) == Ids(xs)
    ensures DistinctIds(xs) ==> DistinctIds(Hidden(xs, visible)) && DistinctIds(Visible(xs, visible))
    ensures DistinctIds(xs) ==> Ids(Hidden(xs, visible)) !! Ids(Visible(xs, visible))
  {
    if xs != [] {
      var init, last := xs[..|xs| - 1], xs[|xs| - 1];
      SplitIds(init, visible);
      assert xs == init + [last];
      IdsSnoc(init, last);
      if visible(last.prefab.path) {
        IdsSnoc(Visible(init, visible), last);
        assert Hidden(xs, visible) == Hidden(init, visible);
      } else {
        IdsSnoc(Hidden(init, visible), last);
        assert Visible(xs, visible) == Visible(init, visible);
      }
    }
  }

  lemma IdsSnoc(xs: Contents, x: Instance)
    ensures Ids(xs + [x]) == Ids(xs) + {x.stableID}
    ensures DistinctIds(xs + [x]) <==> DistinctIds(xs) && x.stableID !in Ids(xs)
  {
    var ys := xs + [x];
    if DistinctIds(ys) {
      forall i, j | 0 <= i < j < |xs| ensures xs[i].stableID != xs[j].stableID {
        assert ys[i] == xs[i] && ys[j] == xs[j];
      }
      forall y | y in xs ensures y.stableID != x.stableID {
        var i :| 0 <= i < |xs| && xs[i] == y;
        assert ys[i] == y && ys[|xs|] == x;
      }
    }
    if DistinctIds(xs) && x.stableID !in Ids(xs) {
      forall i, j | 0 <= i < j < |ys| ensures ys[i].stableID != ys[j].stableID {
        if j == |xs| { assert ys[i] in xs; }
      }
    }
  }

  lemma {:induction false} IdsConcat(a: Contents, b: Contents)
    ensures Ids(a + b) == Ids(a) + Ids(b)
    ensures DistinctIds(a) && DistinctIds(b) && Ids(a) !! Ids(b) ==> DistinctIds(a + b)
  {
    var c := a + b;
    forall id ensures id in Ids(c) <==> id in Ids(a) || id in Ids(b) { }
    if DistinctIds(a) && DistinctIds(b) && Ids(a) !! Ids(b) {
      forall i, j | 0 <= i < j < |c| ensures c[i].stableID != c[j].stableID {
        if i < |a| <= j {
          assert a[i] in a && b[j - |a|] in b;
          assert a[i].stableID in Ids(a) && b[j - |a|].stableID in Ids(b);
        }
      }
    }
  }

  lemma MovedIds(turns: int, rotate: Rotation, state: Contents, out: Contents)
    requires IsMoved(turns, rotate, state, out)
    ensures SameIds(out, state)
  {
  }

  lemma SameIdsSets(a: Contents, b: Contents)
    requires SameIds(a, b)
    ensures Ids(a) == Ids(b) && (DistinctIds(a) <==> DistinctIds(b))
  {
    forall id ensures id in Ids(a) <==> id in Ids(b) {
      if id in Ids(a) {
        var x :| x in a && x.stableID == id;
        var k :| 0 <= k < |a| && a[k] == x;
        assert b[k] in b;
      }
      if id in Ids(b) {
        var x :| x in b && x.stableID == id;
        var k :| 0 <= k < |b| && b[k] == x;
        assert a[k] in a;
      }
    }
    assert forall i :: 0 <= i < |a| ==> a[i].stableID == b[i].stableID;
  }

  /** The identities that land on a tile are those of the visible contents of one source tile. */
  lemma IncomingIds(p: MovePayload, rotate: Rotation, shift: Point, visible: string -> bool, m: TileMap,
                    images: seq<LandedTile>, c: Point)
    returns (s: Option<Point>)
    requires PayloadOk(p, rotate) && AreImages(p.selection.area, p.turns, rotate, p.tiles, images) &&
      multiset(images) == multiset(p.landed)
    requires SourceValid(p, visible, m) && UniqueIds(m)
    ensures s.None? ==> Incoming(p, shift, p.landed, c) == []
    ensures s.Some? ==> s.value in m && Ids(Incoming(p, shift, p.landed, c)) == Ids(Visible(m[s.value], visible))
    ensures s.Some? ==> s.value in Sources(p.tiles)
    ensures s.Some? ==> SourceTo(p, shift, s.value) == c && s.value.Z == p.selection.z
    ensures DistinctIds(Incoming(p, shift, p.landed, c))
  {
    hide Hidden, Visible, Incoming;
    if c in Dests(p, shift, p.landed) {
      var k := IncomingHasSource(p, rotate, shift, images, c);
      assert p.tiles[k] in p.tiles;
      var x := p.tiles[k].source;
      MovedIds(p.turns, rotate, p.tiles[k].state, images[k].state);
      SameIdsSets(images[k].state, p.tiles[k].state);
      SplitIds(m[x], visible);
      s := Some(x);
    } else {
      IncomingElsewhere(p, shift, p.landed, c);
      s := None;
    }
  }

  /** Where a source tile goes. */
  function SourceTo(p: MovePayload, shift: Point, x: Point): Point {
    var c := ImageOf(p.selection.area, p.turns, (x.X, x.Y));
    Point(c.0 + shift.X, c.1 + shift.Y, p.selection.z)
  }

  /** The identities of a tile after the move come from its own hidden contents and from the
      visible contents of at most one source tile. */
  lemma ComposedIds(p: MovePayload, rotate: Rotation, shift: Point, visible: string -> bool, m: TileMap,
                    images: seq<LandedTile>, c: Point)
    returns (own: set<string>, s: Option<Point>)
    requires PayloadOk(p, rotate) && AreImages(p.selection.area, p.turns, rotate, p.tiles, images) &&
      multiset(images) == multiset(p.landed)
    requires SourceValid(p, visible, m) && UniqueIds(m) && c in m
    ensures s.Some? ==> s.value in m && SourceTo(p, shift, s.value) == c && s.value.Z == p.selection.z
    ensures s.Some? ==> s.value in Sources(p.tiles)
    ensures own <= Ids(m[c]) && (InUnion(p, shift, c) ==> own == Ids(Hidden(m[c], visible)))
    ensures !InUnion(p, shift, c) ==> s.None?
    ensures Ids(ComposedTile(p, shift, visible, m[c], c)) == own + if s.Some? then Ids(Visible(m[s.value], visible))
      else {}
    ensures DistinctIds(ComposedTile(p, shift, visible, m[c], c))
  {
    hide Hidden, Visible, Incoming, AreImages;
    SplitIds(m[c], visible);
    if InUnion(p, shift, c) {
      own := Ids(Hidden(m[c], visible));
      s := IncomingIds(p, rotate, shift, visible, m, images, c);
      if s.Some? { SplitIds(m[s.value], visible); }
      IdsConcat(Hidden(m[c], visible), Incoming(p, shift, p.landed, c));
    } else {
      own, s := Ids(m[c]), None;
    }
  }

  /** Composing keeps stable identities globally unique, even when source and destination overlap. */
  lemma ComposingKeepsIds(p: MovePayload, rotate: Rotation, shift: Point, visible: string -> bool, m: TileMap,
                          m': TileMap)
    requires PayloadOk(p, rotate) && SourceValid(p, visible, m) && UniqueIds(m)
    requires m' == map c | c in m :: ComposedTile(p, shift, visible, m[c], c)
    ensures UniqueIds(m')
  {
    hide Hidden, Visible, ComposedTile, AreImages, InUnion, Ids, DistinctIds;
    var images: seq<LandedTile> :|
      AreImages(p.selection.area, p.turns, rotate, p.tiles, images) && multiset(images) == multiset(p.landed);
    forall c | c in m' ensures DistinctIds(m'[c]) {
      var own, s := ComposedIds(p, rotate, shift, visible, m, images, c);
    }
    forall c, d | c in m' && d in m' && c != d ensures Ids(m'[c]) !! Ids(m'[d]) {
      var own, s := ComposedIds(p, rotate, shift, visible, m, images, c);
      var own', s' := ComposedIds(p, rotate, shift, visible, m, images, d);
      SplitIds(m[c], visible);
      SplitIds(m[d], visible);
      if s.Some? {
        SplitIds(m[s.value], visible);
        if s.value == d { SourceInUnion(p, shift, d); }
      }
      if s'.Some? {
        SplitIds(m[s'.value], visible);
        if s'.value == c { SourceInUnion(p, shift, c); }
      }
    }
  }

  lemma SourceInUnion(p: MovePayload, shift: Point, x: Point)
    requires x in Sources(p.tiles)
    ensures InUnion(p, shift, x)
  {
  }

  // ---- refilled tiles ---------------------------------------------------------------------------

  /** What a refill adds behind the composed contents: the area and the turf that are missing, and
      nothing to a tile that has both. Afterwards the tile has both. */
  lemma RefillMeaning(base: Defaults, c: Point, state: Contents)
    requires HasPrefix(base.area.path, "/area") && HasPrefix(base.turf.path, "/turf")
    ensures Refilled(Some(base), c, state).None? <==>
      (!HasType(state, "/area") && base.draw(c, "/area").None?)
      || (!HasType(state, "/turf") && base.draw(c, "/turf").None?)
    ensures Refilled(Some(base), c, state).Some? ==>
      var after := Refilled(Some(base), c, state).value;
      && after == state
           + (if HasType(state, "/area") then [] else [Instance(base.draw(c, "/area").value, base.area)])
           + (if HasType(state, "/turf") then [] else [Instance(base.draw(c, "/turf").value, base.turf)])
      && HasType(after, "/area") && HasType(after, "/turf")
  {
    var area, turf := Instance("", base.area), Instance("", base.turf);
    assert !HasPrefix(base.area.path, "/turf") by { assert base.area.path[1] == 'a'; }
    var whole := Ensured(state, "/area", base.area, base.draw(c, "/area"));
    EnsuredHas(state, "/area", base.area, base.draw(c, "/area"), "/turf");
    if whole.Some? { EnsuredHas(whole.value, "/turf", base.turf, base.draw(c, "/turf"), "/area"); }
  }

  /** Without a base area or a base turf no tile can be refilled, not even one that lacks nothing. */
  lemma RefillNeedsBase(base: Defaults, c: Point, state: Contents)
    requires base.area.path == "" || base.turf.path == ""
    ensures Refilled(Some(base), c, state).None?
  {
  }

  lemma EnsuredHas(state: Contents, path: string, base: Prefab, id: Option<string>, other: string)
    requires HasPrefix(base.path, path) && path != ""
    ensures Ensured(state, path, base, id).Some? ==> HasType(Ensured(state, path, base, id).value, path)
    ensures Ensured(state, path, base, id).Some? && HasType(state, other) ==>
      HasType(Ensured(state, path, base, id).value, other)
    ensures Ensured(state, path, base, id).Some? && !HasPrefix(base.path, other) && !HasType(state, other) ==>
      !HasType(Ensured(state, path, base, id).value, other)
  {
    hide HasPrefix;
    var r := Ensured(state, path, base, id);
    if r.Some? && r.value != state {
      assert r.value[|state|].prefab == base;
      if k :| 0 <= k < |state| && HasPrefix(state[k].prefab.path, other) { assert r.value[k] == state[k]; }
    }
  }

  /** After a move that regenerates base tiles, every vacated and every received tile has an area
      and a turf, and the composed contents are still there, in front. */
  lemma TouchedTilesHaveBase(p: MovePayload, shift: Point, visible: string -> bool, base: Defaults, m: TileMap,
                             m': TileMap, c: Point)
    requires HasPrefix(base.area.path, "/area") && HasPrefix(base.turf.path, "/turf")
    requires m'.Keys == m.Keys &&
      forall e :: e in m ==> Committed(p, shift, visible, Some(base), m[e], e) == Some(m'[e])
    requires c in m && InUnion(p, shift, c)
    ensures HasType(m'[c], "/area") && HasType(m'[c], "/turf")
    ensures ComposedTile(p, shift, visible, m[c], c) <= m'[c]
  {
    hide HasPrefix, HasType, Refilled, ComposedTile, InUnion;
    assert Committed(p, shift, visible, Some(base), m[c], c) == Some(m'[c]);
    RefillMeaning(base, c, ComposedTile(p, shift, visible, m[c], c));
  }

  /** The identities drawn are new: none is on the map and none is drawn twice. */
  ghost predicate DrawsNew(base: Defaults, m: TileMap) {
    && (forall c, path, e :: base.draw(c, path).Some? && e in m ==> base.draw(c, path).value !in Ids(m[e]))
    && (forall c, path, e, other ::
          (c, path) != (e, other) && base.draw(c, path).Some? ==> base.draw(c, path) != base.draw(e, other))
  }

  /** The identities a tile may have been given by a refill. */
  ghost function Drawn(base: Defaults, c: Point): set<string> {
    (if base.draw(c, "/area").Some? then {base.draw(c, "/area").value} else {})
    + (if base.draw(c, "/turf").Some? then {base.draw(c, "/turf").value} else {})
  }

  lemma RefilledIds(base: Defaults, c: Point, state: Contents)
    requires Refilled(Some(base), c, state).Some? && DistinctIds(state) && Ids(state) !! Drawn(base, c)
    requires base.draw(c, "/area").Some? ==> base.draw(c, "/area") != base.draw(c, "/turf")
    ensures Ids(Refilled(Some(base), c, state).value) <= Ids(state) + Drawn(base, c)
    ensures DistinctIds(Refilled(Some(base), c, state).value)
  {
    hide HasType, Ids, DistinctIds;
    var whole := Ensured(state, "/area", base.area, base.draw(c, "/area")).value;
    if whole != state { IdsSnoc(state, Instance(base.draw(c, "/area").value, base.area)); }
    var after := Refilled(Some(base), c, state).value;
    if after != whole { IdsSnoc(whole, Instance(base.draw(c, "/turf").value, base.turf)); }
  }

  /** Composing brings no identity to the map. */
  lemma ComposedFrom(p: MovePayload, rotate: Rotation, shift: Point, visible: string -> bool, m: TileMap, c: Point)
    returns (from: set<Point>)
    requires PayloadOk(p, rotate) && SourceValid(p, visible, m) && UniqueIds(m) && c in m
    ensures from <= m.Keys
    ensures forall id :: id in Ids(ComposedTile(p, shift, visible, m[c], c)) ==>
      exists e :: e in from && id in Ids(m[e])
  {
    hide Hidden, Visible, ComposedTile, AreImages, InUnion, Ids, DistinctIds, UniqueIds, SourceValid;
    var images: seq<LandedTile> :|
      AreImages(p.selection.area, p.turns, rotate, p.tiles, images) && multiset(images) == multiset(p.landed);
    var own, s := ComposedIds(p, rotate, shift, visible, m, images, c);
    from := {c};
    if s.Some? {
      from := {c, s.value};
      SplitIds(m[s.value], visible);
    }
  }

  /** Committing a move keeps stable identities globally unique, even when source and
      destination overlap and tiles are refilled. */
  lemma MoveKeepsIdsUnique(p: MovePayload, rotate: Rotation, shift: Point, visible: string -> bool, d: Option<Defaults>,
                           m: TileMap, m': TileMap)
    requires PayloadOk(p, rotate) && SourceValid(p, visible, m) && UniqueIds(m) && (d.Some? ==> DrawsNew(d.value, m))
    requires m'.Keys == m.Keys && forall c :: c in m ==> Committed(p, shift, visible, d, m[c], c) == Some(m'[c])
    ensures UniqueIds(m')
  {
    hide Hidden, Visible, ComposedTile, AreImages, InUnion, Ids, DistinctIds, PayloadOk, SourceValid, Refilled;
    var composed := map c | c in m :: ComposedTile(p, shift, visible, m[c], c);
    ComposingKeepsIds(p, rotate, shift, visible, m, composed);
    forall c | c in m
      ensures DistinctIds(m'[c])
      ensures Ids(m'[c]) <= Ids(composed[c]) + (if d.Some? then Drawn(d.value, c) else {})
    {
      CommittedIds(p, rotate, shift, visible, d, m, c);
    }
    if d.Some? {
      forall c, e | c in m && e in m && c != e ensures Ids(m'[c]) !! Ids(m'[e]) {
        DrawnApart(p, rotate, shift, visible, d.value, m, c, e);
        DrawnApart(p, rotate, shift, visible, d.value, m, e, c);
      }
    }
  }

  lemma CommittedIds(p: MovePayload, rotate: Rotation, shift: Point, visible: string -> bool, d: Option<Defaults>,
                     m: TileMap, c: Point)
    requires PayloadOk(p, rotate) && SourceValid(p, visible, m) && UniqueIds(m) && (d.Some? ==> DrawsNew(d.value, m))
    requires c in m && Committed(p, shift, visible, d, m[c], c).Some?
    requires DistinctIds(ComposedTile(p, shift, visible, m[c], c))
    ensures DistinctIds(Committed(p, shift, visible, d, m[c], c).value)
    ensures Ids(Committed(p, shift, visible, d, m[c], c).value) <=
      Ids(ComposedTile(p, shift, visible, m[c], c)) + (if d.Some? then Drawn(d.value, c) else {})
  {
    hide Hidden, Visible, Ids, DistinctIds, PayloadOk, SourceValid, UniqueIds, Incoming;
    if InUnion(p, shift, c) && d.Some? {
      hide ComposedTile, InUnion, Refilled;
      DrawnApart(p, rotate, shift, visible, d.value, m, c, c);
      RefilledIds(d.value, c, ComposedTile(p, shift, visible, m[c], c));
    }
  }

  /** What is drawn for one tile is neither composed into another nor drawn for it. */
  lemma DrawnApart(p: MovePayload, rotate: Rotation, shift: Point, visible: string -> bool, base: Defaults, m: TileMap,
                   c: Point, e: Point)
    requires PayloadOk(p, rotate) && SourceValid(p, visible, m) && UniqueIds(m) && DrawsNew(base, m)
    requires c in m && e in m
    ensures Ids(ComposedTile(p, shift, visible, m[c], c)) !! Drawn(base, e)
    ensures c != e ==> Drawn(base, c) !! Drawn(base, e)
    ensures base.draw(c, "/area").Some? ==> base.draw(c, "/area") != base.draw(c, "/turf")
  {
    hide ComposedTile, Ids, PayloadOk, SourceValid, UniqueIds;
    var from := ComposedFrom(p, rotate, shift, visible, m, c);
    assert "/area"[1] != "/turf"[1];
  }
}
