/** Drag and paste gestures over a live map (internal/aphelion/editing: move.go,
    placement_transform.go): captured backgrounds, previews, releases and cancellation. */
module MoveJournal {
  import opened Basics
  import opened Runs
  import opened Sorting

  datatype Prefab = Prefab(path: string, vars: map<string, string>)

  /** A map instance: its collaboration identity and its prefab. */
  datatype Instance = Instance(stableID: string, prefab: Prefab)

  type Contents = seq<Instance>

  /** A tile of the moved selection or of the clipboard template. */
  datatype SourceTile = SourceTile(coord: Point, instances: Contents)

  type TileMap = map<Point, Contents>

  // ---- what a preview shows -------------------------------------------------------------

  function Hidden(xs: Contents, visible: string -> bool): Contents {
    if xs == [] then []
    else
      var last := xs[|xs| - 1];
      Hidden(xs[..|xs| - 1], visible) + if visible(last.prefab.path) then [] else [last]
  }

  function Visible(xs: Contents, visible: string -> bool): Contents {
    if xs == [] then []
    else
      var last := xs[|xs| - 1];
      Visible(xs[..|xs| - 1], visible) + if visible(last.prefab.path) then [last] else []
  }

  /** The positions `at` of xs, in order, are those whose visibility is `want`, and `out` holds what
      stands there. */
  ghost predicate Picks(xs: Contents, visible: string -> bool, want: bool, at: seq<nat>, out: Contents) {
    && |at| == |out| && (forall i, j :: 0 <= i < j < |at| ==> at[i] < at[j])
    && (forall k :: 0 <= k < |at| ==> at[k] < |xs| && out[k] == xs[at[k]])
    && (forall n :: 0 <= n < |xs| ==> (n in at <==> visible(xs[n].prefab.path) == want))
  }

  /** `out` is exactly the visible part of xs, or exactly the hidden part, in order. */
  ghost predicate Sifted(xs: Contents, visible: string -> bool, want: bool, out: Contents) {
    exists at :: Picks(xs, visible, want, at, out)
  }

  lemma PicksNext(xs: Contents, x: Instance, visible: string -> bool, want: bool, at: seq<nat>, out: Contents)
    requires Picks(xs, visible, want, at, out)
    ensures if visible(x.prefab.path) == want then Picks(xs + [x], visible, want, at + [|xs|], out + [x])
            else Picks(xs + [x], visible, want, at, out)
  {
    var ys := xs + [x];
    assert forall n :: 0 <= n < |xs| ==> ys[n] == xs[n];
    assert ys[|xs|] == x && |xs| !in at;
  }

  /** Hidden and Visible keep exactly the instances they name, in place and order. */
  lemma {:induction false} SiftedInOrder(xs: Contents, visible: string -> bool)
    ensures Sifted(xs, visible, false, Hidden(xs, visible)) && Sifted(xs, visible, true, Visible(xs, visible))
  {
    hide Picks;
    if xs == [] {
      NothingPicked(visible);
    } else {
      var init, last := xs[..|xs| - 1], xs[|xs| - 1];
      SiftedInOrder(init, visible);
      var h :| Picks(init, visible, false, h, Hidden(init, visible));
      var v :| Picks(init, visible, true, v, Visible(init, visible));
      PicksNext(init, last, visible, false, h, Hidden(init, visible));
      PicksNext(init, last, visible, true, v, Visible(init, visible));
      assert init + [last] == xs && Hidden(init, visible) + [] == Hidden(init, visible)
             && Visible(init, visible) + [] == Visible(init, visible);
    }
  }

  lemma NothingPicked(visible: string -> bool)
    ensures Picks([], visible, false, [], []) && Picks([], visible, true, [], [])
  {
  }

  /** The contents of the source tile at a coordinate. */
  function SourceAt(source: seq<SourceTile>, c: Point): Contents {
    if source == [] then []
    else if source[|source| - 1].coord == c then source[|source| - 1].instances
    else SourceAt(source[..|source| - 1], c)
  }

  function SourceCoords(source: seq<SourceTile>): set<Point> { set t | t in source :: t.coord }

  /** The tile is a destination of the shifted source, or a cleared source tile of a move. */
  predicate Owns(coords: set<Point>, placement: bool, shift: Point, c: Point) {
    c.Minus(shift) in coords || (!placement && c in coords)
  }

  /** What a tile shows while the source is previewed at a shift, as a function of the
      original map only. */
  function Shown(original: Contents, source: seq<SourceTile>, coords: set<Point>, placement: bool, shift: Point,
                 visible: string -> bool, regenerate: Contents -> Contents, c: Point): Contents
  {
    if !placement && shift == Point(0, 0, 0) then original
    else if Owns(coords, placement, shift, c) then
      regenerate(Hidden(original, visible) + Visible(SourceAt(source, c.Minus(shift)), visible))
    else original
  }

  /** What a preview shows of a tile, instance by instance. Away from the destinations, and from the
      source of a move, it is the original. A destination shows its hidden instances, in place and
      order, below the visible instances of the tile that lands on it, a cleared source tile only its
      hidden ones; then base tiles are regenerated. */
  lemma ShownMeaning(original: Contents, source: seq<SourceTile>, placement: bool, shift: Point,
                     visible: string -> bool, regenerate: Contents -> Contents, c: Point)
    requires DistinctCoords(source)
    ensures var shown := Shown(original, source, SourceCoords(source), placement, shift, visible, regenerate, c);
      && (!placement && shift == Point(0, 0, 0) ==> shown == original)
      && ((forall t :: t in source ==> t.coord.Plus(shift) != c && (placement || t.coord != c)) ==> shown == original)
      && (placement || shift != Point(0, 0, 0) ==>
            (forall t :: t in source && t.coord.Plus(shift) == c ==> exists hidden, moved ::
               Sifted(original, visible, false, hidden) && Sifted(t.instances, visible, true, moved)
               && shown == regenerate(hidden + moved))
            && (!placement && (exists t :: t in source && t.coord == c) &&
                (forall t :: t in source ==> t.coord.Plus(shift) != c) ==>
                  exists hidden :: Sifted(original, visible, false, hidden) && shown == regenerate(hidden)))
  {
    hide Sifted, Hidden, Visible, SourceAt;
    SiftedInOrder(original, visible);
    var coords := SourceCoords(source);
    var from := c.Minus(shift);
    forall t | t in source && t.coord.Plus(shift) == c
      ensures from == t.coord && t.coord in coords && SourceAt(source, from) == t.instances
      ensures Sifted(t.instances, visible, true, Visible(t.instances, visible))
    {
      var k :| 0 <= k < |source| && source[k] == t;
      SourceAtIndex(source, k);
      SiftedInOrder(t.instances, visible);
    }
    if forall t :: t in source ==> t.coord.Plus(shift) != c {
      forall t | t in source ensures t.coord != from { assert t.coord.Plus(shift) != c; }
      assert from !in coords;
      SourceAtOutside(source, from);
      NothingVisible(visible);
      assert Hidden(original, visible) + [] == Hidden(original, visible);
    }
  }

  lemma NothingVisible(visible: string -> bool)
    ensures Visible([], visible) == []
  {
  }

  /** Where the tiles of a source land. */
  ghost function Landing(source: seq<SourceTile>, shift: Point): set<Point>
  {
    set t | t in source :: t.coord.Plus(shift)
  }

  lemma LandingNext(source: seq<SourceTile>, k: nat, shift: Point)
    requires k < |source|
    ensures Landing(source[..k + 1], shift) == Landing(source[..k], shift) + {source[k].coord.Plus(shift)}
  {
    assert source[..k + 1] == source[..k] + [source[k]];
  }

  lemma LandingEnds(source: seq<SourceTile>, shift: Point)
    ensures Landing(source[..0], shift) == {} && source[..|source|] == source
  {
  }

  lemma LandingHas(source: seq<SourceTile>, k: nat, shift: Point)
    requires k < |source|
    ensures source[k].coord.Plus(shift) in Landing(source, shift)
  {
    assert source[k] in source;
  }

  lemma LandingAll(source: seq<SourceTile>, coords: set<Point>, shift: Point)
    requires coords == SourceCoords(source)
    ensures Landing(source, shift) == set c | c in coords :: c.Plus(shift)
  {
  }

  ghost predicate DistinctCoords(source: seq<SourceTile>) {
    forall i, j :: 0 <= i < j < |source| ==> source[i].coord != source[j].coord
  }

  lemma {:induction false} SourceAtOutside(source: seq<SourceTile>, c: Point)
    requires c !in SourceCoords(source)
    ensures SourceAt(source, c) == []
  {
    if source != [] {
      var init := source[..|source| - 1];
      assert forall t :: t in init ==> t in source;
      assert source[|source| - 1] in source;
      SourceAtOutside(init, c);
    }
  }

  lemma {:induction false} SourceAtIndex(source: seq<SourceTile>, k: nat)
    requires k < |source| && DistinctCoords(source)
    ensures SourceAt(source, source[k].coord) == source[k].instances
  {
    if k < |source| - 1 {
      assert source[..|source| - 1][k] == source[k];
      SourceAtIndex(source[..|source| - 1], k);
    }
  }

  // ---- the owners a gesture talks to --------------------------------------------------------

  /** The shifted area stays on the map and on its level. */
  predicate StaysOnMap(area: Bounds, shift: Point, maxX: nat, maxY: nat) {
    var next := area.Plus(shift.X, shift.Y);
    shift.Z == 0 && next.X1 >= 1 && next.Y1 >= 1 && next.X2 <= maxX && next.Y2 <= maxY
  }

  /** The test of the corners decides for every tile of the area. */
  lemma StaysOnMapMeaning(area: Bounds, shift: Point, maxX: nat, maxY: nat)
    requires area.X1 <= area.X2 && area.Y1 <= area.Y2
    ensures StaysOnMap(area, shift, maxX, maxY) <==>
      shift.Z == 0 && forall x, y :: area.Has(x, y) ==> 1 <= x + shift.X <= maxX && 1 <= y + shift.Y <= maxY
  {
    assert area.Has(area.X1, area.Y1) && area.Has(area.X2, area.Y2);
  }

  /** The live map. */
  class Dmm {
    const maxX: nat
    const maxY: nat
    const maxZ: nat
    var tiles: TileMap

    predicate HasTile(p: Point) { 1 <= p.X <= maxX && 1 <= p.Y <= maxY && 1 <= p.Z <= maxZ }

    ghost predicate Valid()
      reads this
    {
      forall p :: HasTile(p) <==> p in tiles
    }
  }

  /** The editor's before-state journal: capture may fail, release drops one captured state. */
  class Editor {
    const refuses: (nat, Point) -> bool
    var calls: nat
    var outstanding: multiset<Point>
    /** How often a capture was refused. */
    ghost var refusals: nat

    method Capture(p: Point) returns (ok: bool)
      modifies this
      ensures outstanding == if ok then old(outstanding) + multiset{p} else old(outstanding)
      ensures refusals == old(refusals) + if ok then 0 else 1
    {
      ok := !refuses(calls, p);
      calls := calls + 1;
      if ok { outstanding := outstanding + multiset{p}; } else { refusals := refusals + 1; }
    }

    method Release(p: Point)
      modifies this
      ensures outstanding == old(outstanding) - multiset{p} && refusals == old(refusals)
    {
      outstanding := outstanding - multiset{p};
    }
  }

  /** The background copies; a transformed candidate shares them with the move it replaces. */
  class Journal {
    var background: TileMap

    constructor ()
      ensures background == map[]
    {
      background := map[];
    }
  }

  // ---- invariants over values ---------------------------------------------------------------

  /** The background holds the original contents of the tiles it lists, and every other tile
      still is what it was when the gesture began. */
  ghost predicate Consistent(original: TileMap, tiles: TileMap, background: TileMap) {
    && tiles.Keys == original.Keys && background.Keys <= original.Keys
    && (forall p :: p in background ==> background[p] == original[p])
    && (forall p :: p in original && p !in background ==> tiles[p] == original[p])
  }

  /** Exactly the listed tiles are captured on top of what was outstanding before. */
  ghost predicate Ledger(outstanding: multiset<Point>, base: multiset<Point>, background: TileMap) {
    outstanding == base + multiset(background.Keys)
  }

  lemma LedgerAdd(base: multiset<Point>, background: TileMap, p: Point, xs: Contents)
    requires p !in background
    ensures base + multiset(background.Keys) + multiset{p} == base + multiset(background[p := xs].Keys)
  {
    assert background[p := xs].Keys == background.Keys + {p};
  }

  lemma LedgerCapture(outstanding: multiset<Point>, base: multiset<Point>, background: TileMap, p: Point, xs: Contents)
    requires p !in background && Ledger(outstanding, base, background)
    ensures Ledger(outstanding + multiset{p}, base, background[p := xs])
  {
    LedgerAdd(base, background, p, xs);
  }

  lemma LedgerDrop(base: multiset<Point>, background: TileMap, p: Point)
    requires p in background
    ensures base + multiset(background.Keys) - multiset{p} == base + multiset((background - {p}).Keys)
  {
    assert (background - {p}).Keys == background.Keys - {p};
    assert background.Keys == (background.Keys - {p}) + {p};
  }

  ghost predicate SourceFits(source: seq<SourceTile>, coords: set<Point>, origin: Bounds, z: int, placement: bool,
                             original: TileMap) {
    && DistinctCoords(source) && coords == SourceCoords(source)
    && (forall t :: t in source ==> origin.Has(t.coord.X, t.coord.Y) && t.coord.Z == z)
    && (placement ==> origin.X1 == 1 && origin.Y1 == 1)
    && (!placement ==> coords <= original.Keys && forall t :: t in source ==>
        t.coord in original && t.instances == original[t.coord])
  }

  /** The map shows the source at the shift, and the journal lists exactly the owned tiles. */
  ghost predicate Displayed(original: TileMap, tiles: TileMap, background: TileMap, source: seq<SourceTile>,
                            coords: set<Point>,
                            placement: bool, shift: Point, visible: string -> bool, regenerate: Contents -> Contents)
  {
    && tiles.Keys == original.Keys
    && (forall p :: p in original ==>
          tiles[p] == Shown(original[p], source, coords, placement, shift, visible, regenerate, p))
    && (forall p :: p in background <==> Owns(coords, placement, shift, p))
  }

  /** Copies of original tiles only. */
  ghost predicate Copies(background: TileMap, original: TileMap) {
    background.Keys <= original.Keys && forall p :: p in background ==> background[p] == original[p]
  }

  lemma CopiesMinus(background: TileMap, original: TileMap, p: Point)
    requires Copies(background, original)
    ensures Copies(background - {p}, original)
  {
  }

  lemma CopiesEqual(a: TileMap, b: TileMap, original: TileMap)
    requires Copies(a, original) && Copies(b, original) && a.Keys == b.Keys
    ensures a == b
  {
  }

  lemma ConsistentCapture(original: TileMap, tiles: TileMap, background: TileMap, p: Point)
    requires Consistent(original, tiles, background) && p in tiles && p !in background
    ensures Consistent(original, tiles, background[p := tiles[p]])
  {
  }

  lemma ConsistentCopies(original: TileMap, tiles: TileMap, background: TileMap)
    requires Consistent(original, tiles, background)
    ensures Copies(background, original) && tiles.Keys == original.Keys
  {
  }

  /** The list names, once each, the tiles added to the journal since `before`. */
  ghost predicate Acquired(before: TileMap, background: TileMap, acquired: seq<Point>) {
    && before.Keys <= background.Keys && Distinct(acquired)
    && forall p :: p in acquired <==> p in background && p !in before
  }

  lemma NothingAcquired(before: TileMap)
    ensures Acquired(before, before, [])
  {
  }

  lemma AcquiredMore(before: TileMap, background: TileMap, acquired: seq<Point>, p: Point, xs: Contents)
    requires Acquired(before, background, acquired) && p !in background
    ensures Acquired(before, background[p := xs], acquired + [p])
  {
    DistinctSnoc(acquired, p);
  }

  lemma MinusTwice(m: TileMap, a: set<Point>, p: Point)
    ensures m - a - {p} == m - (a + {p})
  {
  }

  /** Every tile has gained the visible instances of the source tiles that land on it. */
  ghost predicate Drawn(tiles: TileMap, before: TileMap, source: seq<SourceTile>, shift: Point,
                        visible: string -> bool) {
    && tiles.Keys == before.Keys
    && forall p :: p in tiles ==> tiles[p] == before[p] + Visible(SourceAt(source, p.Minus(shift)), visible)
  }

  lemma DrawnStep(tiles: TileMap, before: TileMap, source: seq<SourceTile>, t: SourceTile, shift: Point,
                  visible: string -> bool)
    requires Drawn(tiles, before, source, shift, visible) && t.coord !in SourceCoords(source) &&
      t.coord.Plus(shift) in tiles
    ensures var c := t.coord.Plus(shift);
      Drawn(tiles[c := tiles[c] + Visible(t.instances, visible)], before, source + [t], shift, visible)
  {
    var c := t.coord.Plus(shift);
    var out := tiles[c := tiles[c] + Visible(t.instances, visible)];
    assert (source + [t])[..|source|] == source;
    SourceAtOutside(source, t.coord);
    forall p | p in out ensures out[p] == before[p] + Visible(SourceAt(source + [t], p.Minus(shift)), visible) {
      hide Visible;
      if p == c {
        assert p.Minus(shift) == t.coord;
        assert Visible([], visible) == [] by { NothingVisible(visible); }
        assert before[p] + [] + Visible(t.instances, visible) == before[p] + Visible(t.instances, visible);
      } else {
        assert p.Minus(shift).Plus(shift) == p;
        assert p.Minus(shift) != t.coord;
      }
    }
  }

  lemma NothingDrawn(tiles: TileMap, shift: Point, visible: string -> bool)
    ensures Drawn(tiles, tiles, [], shift, visible)
  {
  }

  predicate PointYLe(a: Point, b: Point) { a.Y < b.Y || (a.Y == b.Y && (a.X < b.X || (a.X == b.X && a.Z <= b.Z))) }

  /** The coordinates of a set, in row order. */
  method SortMoveCoords(keys: set<Point>) returns (coords: seq<Point>)
    ensures (forall p :: p in coords <==> p in keys) && SortedBy(coords, PointYLe) && Distinct(coords) && InRows(coords)
  {
    var rest, list := keys, [];
    while rest != {}
      invariant rest <= keys && Distinct(list) && forall p :: p in list <==> p in keys && p !in rest
      decreases |rest|
    {
      var p := AnyOf(rest);
      list, rest := list + [p], rest - {p};
    }
    coords := Sort(list, PointYLe);
    DistinctCounts(list);
    CountsDistinct(coords);
    assert forall p :: p in coords <==> p in multiset(coords);
    assert forall p :: p in list <==> p in multiset(list);
  }

  // ---- template transforms -----------------------------------------------------------------------

  datatype PlacementTransform = RotateRight | RotateLeft | MirrorHorizontal | MirrorVertical

  /** The template bounds after a transform; they start at (1, 1). */
  function TurnedBounds(t: PlacementTransform, b: Bounds): Bounds {
    if t == RotateRight || t == RotateLeft then Bounds(b.X1, b.Y1, b.Y2, b.X2) else b
  }

  function TransformCoord(t: PlacementTransform, b: Bounds, z: int, c: Point): Point {
    match t
    case RotateRight => Point(c.Y, b.X2 - c.X + 1, z)
    case RotateLeft => Point(b.Y2 - c.Y + 1, c.X, z)
    case MirrorHorizontal => Point(b.X2 - c.X + 1, c.Y, z)
    case MirrorVertical => Point(c.X, b.Y2 - c.Y + 1, z)
  }

  /** Turning right points up to the right and right down, turning left the other way round; the mirrors
      swap right with left or up with down. The box goes into the turned box with its lower corner at
      the same place. */
  lemma TransformMeaning(t: PlacementTransform, b: Bounds, z: int, c: Point)
    requires b.X1 == 1 && b.Y1 == 1
    ensures var o := TransformCoord(t, b, z, c);
      var up, right := TransformCoord(t, b, z, c.(Y := c.Y + 1)), TransformCoord(t, b, z, c.(X := c.X + 1));
      o.Z == z && match t
      case RotateRight => up == o.(X := o.X + 1) && right == o.(Y := o.Y - 1)
      case RotateLeft => up == o.(X := o.X - 1) && right == o.(Y := o.Y + 1)
      case MirrorHorizontal => up == o.(Y := o.Y + 1) && right == o.(X := o.X - 1)
      case MirrorVertical => up == o.(Y := o.Y - 1) && right == o.(X := o.X + 1)
    ensures b.Has(c.X, c.Y) <==>
      TurnedBounds(t, b).Has(TransformCoord(t, b, z, c).X, TransformCoord(t, b, z, c).Y)
    ensures TurnedBounds(t, b).X1 == 1 && TurnedBounds(t, b).Y1 == 1
  {
  }

  /** Every instance transformed, identities kept; None when some prefab cannot be. */
  function TransformInstances(t: PlacementTransform, transform: (PlacementTransform, Prefab) -> Option<Prefab>,
                              xs: Contents)
    : Option<Contents>
  {
    if xs == [] then Some([])
    else
      var last := xs[|xs| - 1];
      match (TransformInstances(t, transform, xs[..|xs| - 1]), transform(t, last.prefab))
      case (Some(init), Some(p)) => Some(init + [Instance(last.stableID, p)])
      case _ => None
  }

  /** `out` is the source, tile by tile, at the transformed coordinates with transformed contents. */
  ghost predicate IsTransformed(t: PlacementTransform, b: Bounds, z: int,
                                transform: (PlacementTransform, Prefab) -> Option<Prefab>,
                                source: seq<SourceTile>, out: seq<SourceTile>)
  {
    && |out| == |source|
    && forall k :: 0 <= k < |source| ==>
         out[k].coord == TransformCoord(t, b, z, source[k].coord)
         && TransformInstances(t, transform, source[k].instances) == Some(out[k].instances)
  }

  /** Each instance is transformed where it stands and keeps its identity; it fails exactly for a
      prefab without a transformed form. */
  lemma {:induction false} InstancesTransformed(t: PlacementTransform,
                                                transform: (PlacementTransform, Prefab) -> Option<Prefab>, xs: Contents)
    ensures TransformInstances(t, transform, xs).None? <==>
      exists k :: 0 <= k < |xs| && transform(t, xs[k].prefab).None?
    ensures TransformInstances(t, transform, xs).Some? ==>
      var out := TransformInstances(t, transform, xs).value;
      |out| == |xs| && forall k :: 0 <= k < |xs| ==>
        out[k].stableID == xs[k].stableID && Some(out[k].prefab) == transform(t, xs[k].prefab)
  {
    if xs != [] {
      var init, last := xs[..|xs| - 1], xs[|xs| - 1];
      InstancesTransformed(t, transform, init);
      assert forall k :: 0 <= k < |init| ==> init[k] == xs[k];
    }
  }

  /** Some prefab of the template has no transformed form. */
  ghost predicate Untransformable(t: PlacementTransform, transform: (PlacementTransform, Prefab) -> Option<Prefab>,
                                  source: seq<SourceTile>) {
    exists k :: 0 <= k < |source| && TransformInstances(t, transform, source[k].instances).None?
  }

  method TransformTiles(t: PlacementTransform, b: Bounds, z: int,
                        transform: (PlacementTransform, Prefab) -> Option<Prefab>,
                        source: seq<SourceTile>) returns (ok: bool, out: seq<SourceTile>)
    ensures ok ==> IsTransformed(t, b, z, transform, source, out)
    ensures !ok ==> Untransformable(t, transform, source)
  {
    out := [];
    for k := 0 to |source|
      invariant IsTransformed(t, b, z, transform, source[..k], out)
    {
      var xs := TransformInstances(t, transform, source[k].instances);
      if xs.None? { return false, out; }
      out := out + [SourceTile(TransformCoord(t, b, z, source[k].coord), xs.value)];
    }
    ok := true;
  }

  predicate SourceLe(a: SourceTile, b: SourceTile) { PointYLe(a.coord, b.coord) }

  lemma TransformedFits(t: PlacementTransform, b: Bounds, z: int,
                        transform: (PlacementTransform, Prefab) -> Option<Prefab>,
                        source: seq<SourceTile>, coords: set<Point>, original: TileMap, out: seq<SourceTile>)
    requires SourceFits(source, coords, b, z, true, original) && IsTransformed(t, b, z, transform, source, out)
    ensures SourceFits(out, SourceCoords(out), TurnedBounds(t, b), z, true, original)
  {
    forall i, j | 0 <= i < j < |out| ensures out[i].coord != out[j].coord {
      assert source[i] in source && source[j] in source;
      assert source[i].coord != source[j].coord;
    }
    forall u | u in out ensures TurnedBounds(t, b).Has(u.coord.X, u.coord.Y) && u.coord.Z == z {
      var k :| 0 <= k < |out| && out[k] == u;
      assert source[k] in source;
    }
  }

  lemma PermutedFits(list: seq<SourceTile>, sorted: seq<SourceTile>, b: Bounds, z: int, original: TileMap)
    requires SourceFits(list, SourceCoords(list), b, z, true, original) && multiset(list) == multiset(sorted)
    ensures SourceFits(sorted, SourceCoords(sorted), b, z, true, original)
  {
    assert forall u :: u in sorted <==> u in multiset(sorted);
    assert forall u :: u in list <==> u in multiset(list);
    PermutedDistinct(list, sorted);
  }

  lemma PermutedDistinct(list: seq<SourceTile>, sorted: seq<SourceTile>)
    requires DistinctCoords(list) && multiset(list) == multiset(sorted)
    ensures DistinctCoords(sorted)
  {
    assert Distinct(list);
    DistinctCounts(list);
    CountsDistinct(sorted);
    assert forall u :: u in sorted <==> u in multiset(sorted);
    forall i, j | 0 <= i < j < |sorted| ensures sorted[i].coord != sorted[j].coord {
      assert sorted[i] in multiset(list) && sorted[j] in multiset(list);
      var a :| 0 <= a < |list| && list[a] == sorted[i];
      var b :| 0 <= b < |list| && list[b] == sorted[j];
      assert a != b;
    }
  }

  lemma LedgerEmpty(outstanding: multiset<Point>, base: multiset<Point>, background: TileMap)
    requires Ledger(outstanding, base, background) && background.Keys == {}
    ensures outstanding == base
  {
  }

  lemma JournalKeys(original: TileMap, tiles: TileMap, background: TileMap)
    requires Consistent(original, tiles, background)
    ensures background.Keys <= original.Keys && tiles.Keys == original.Keys
  {
  }

  /** A displayed map differs from the original on journalled tiles only. */
  lemma DisplayedIsConsistent(original: TileMap, was: TileMap, before: TileMap, tiles: TileMap, background: TileMap,
                              source: seq<SourceTile>, coords: set<Point>, placement: bool, shift: Point,
                              visible: string -> bool, regenerate: Contents -> Contents)
    requires Consistent(original, was, before) && background.Keys <= before.Keys
    requires forall p :: p in background ==> background[p] == before[p]
    requires Displayed(original, tiles, background, source, coords, placement, shift, visible, regenerate)
    ensures Consistent(original, tiles, background)
  {
    hide Owns, Hidden, Visible, SourceAt;
    forall p | p in original && p !in background ensures tiles[p] == original[p] {
      assert tiles[p] == Shown(original[p], source, coords, placement, shift, visible, regenerate, p);
    }
  }

  // ---- the gesture ------------------------------------------------------------------------------

  class Move {
    const dmm: Dmm
    const editor: Editor
    const journal: Journal
    const visible: string -> bool
    const regenerate: Contents -> Contents
    const placement: bool
    const z: int
    ghost const original: TileMap
    ghost const base: multiset<Point>
    var origin: Bounds
    var bounds: Bounds
    var source: seq<SourceTile>
    var sourceCoords: set<Point>
    var lastShift: Point
    var previewed: bool
    var closed: bool

    /** A gesture with the given source; nothing is captured or drawn yet. */
    constructor (dmm: Dmm, editor: Editor, journal: Journal, visible: string -> bool, regenerate: Contents -> Contents,
                 placement: bool, z: int, area: Bounds, source: seq<SourceTile>, coords: set<Point>,
                 ghost original: TileMap, ghost base: multiset<Point>)
      ensures this.dmm == dmm && this.editor == editor && this.journal == journal && this.visible == visible
      ensures this.regenerate == regenerate && this.placement == placement && this.z == z
      ensures origin == bounds == area && this.source == source && sourceCoords == coords
      ensures this.original == original && this.base == base && !closed && !previewed
    {
      this.dmm, this.editor, this.journal, this.visible, this.regenerate := dmm, editor, journal, visible, regenerate;
      this.placement, this.z, origin, bounds := placement, z, area, area;
      this.source, sourceCoords, lastShift, previewed, closed := source, coords, Point(0, 0, 0), false, false;
      this.original, this.base := original, base;
    }

    /** The source fits its bounds and, for a move, is what the map held. */
    ghost predicate SourceOk()
      reads this
    {
      1 <= z <= dmm.maxZ && SourceFits(source, sourceCoords, origin, z, placement, original)
    }

    /** What holds even in the middle of a preview. */
    ghost predicate Sound()
      reads this, dmm, editor, journal
    {
      dmm.Valid() &&
      (!closed ==>
        && SourceOk()
        && Consistent(original, dmm.tiles, journal.background)
        && Ledger(editor.outstanding, base, journal.background)
        && (!placement ==> sourceCoords <= journal.background.Keys))
    }

    /** A previewed template is what the map shows. */
    ghost predicate Valid()
      reads this, dmm, editor, journal
    {
      Sound() && (!closed && placement && previewed ==>
                  Displays(lastShift) && bounds == origin.Plus(lastShift.X, lastShift.Y))
    }

    /** The bounds check of Preview. */
    predicate Fits(shift: Point)
      reads this
    {
      StaysOnMap(origin, shift, dmm.maxX, dmm.maxY)
    }

    ghost function Destinations(shift: Point): set<Point>
      reads this
    {
      set c | c in sourceCoords :: c.Plus(shift)
    }

    /** The map while the source is previewed at a shift. */
    ghost predicate Displays(shift: Point)
      reads this, dmm, journal
    {
      Displayed(original, dmm.tiles, journal.background, source, sourceCoords, placement, shift, visible, regenerate)
    }

    lemma DestinationsOnMap(shift: Point)
      requires Sound() && !closed && Fits(shift)
      ensures Destinations(shift) <= original.Keys
    {
      forall c | c in sourceCoords ensures dmm.HasTile(c.Plus(shift)) {
        var t :| t in source && t.coord == c;
      }
    }

    /** Drops one tile from the journal. */
    method ReleaseRestored(p: Point)
      requires p in journal.background && Ledger(editor.outstanding, base, journal.background)
      modifies journal, editor
      ensures journal.background == old(journal.background) - {p} && editor.refusals == old(editor.refusals)
      ensures Ledger(editor.outstanding, base, journal.background)
    {
      LedgerDrop(base, journal.background, p);
      journal.background := journal.background - {p};
      editor.Release(p);
    }

    /** Captures one tile and copies it into the journal. */
    method CaptureTile(p: Point) returns (ok: bool)
      requires Consistent(original, dmm.tiles, journal.background) && p in dmm.tiles && p !in journal.background
      requires Ledger(editor.outstanding, base, journal.background)
      modifies journal, editor
      ensures journal.background == if ok then old(journal.background)[p := dmm.tiles[p]] else old(journal.background)
      ensures editor.refusals == old(editor.refusals) + if ok then 0 else 1
      ensures Consistent(original, dmm.tiles, journal.background)
      ensures Ledger(editor.outstanding, base, journal.background)
    {
      hide Consistent, Ledger;
      LedgerCapture(editor.outstanding, base, journal.background, p, dmm.tiles[p]);
      ConsistentCapture(original, dmm.tiles, journal.background, p);
      ok := editor.Capture(p);
      if ok { journal.background := journal.background[p := dmm.tiles[p]]; }
    }

    /** The tiles acquired so far are journalled, captured and listed. */
    ghost predicate Acquiring(before: TileMap, acquired: seq<Point>)
      reads this, dmm, journal, editor
    {
      && Consistent(original, dmm.tiles, journal.background)
      && Ledger(editor.outstanding, base, journal.background)
      && Acquired(before, journal.background, acquired)
    }

    /** Captures one destination unless the journal already has it; on failure undoes all. */
    method AcquireTile(coord: Point, ghost before: TileMap, acquired: seq<Point>)
      returns (ok: bool, acquired': seq<Point>)
      requires Acquiring(before, acquired) && coord in dmm.tiles && Consistent(original, dmm.tiles, before)
      modifies journal, editor
      ensures ok ==> Acquiring(before, acquired') && journal.background.Keys == old(journal.background.Keys) + {coord}
      ensures !ok ==> journal.background == before && Ledger(editor.outstanding, base, before)
      ensures editor.refusals == old(editor.refusals) + if ok then 0 else 1
    {
      hide Consistent, Ledger, Acquired;
      ok, acquired' := true, acquired;
      if coord !in journal.background {
        AcquiredMore(before, journal.background, acquired, coord, dmm.tiles[coord]);
        ok := CaptureTile(coord);
        if !ok {
          Undo(acquired, before);
          return;
        }
        acquired' := acquired + [coord];
      }
    }

    /** Captures every destination that is not in the journal yet; undoes that on failure. */
    method AcquireTiles(src: seq<SourceTile>, shift: Point) returns (ok: bool)
      requires Consistent(original, dmm.tiles, journal.background) && Landing(src, shift) <= dmm.tiles.Keys
      requires Ledger(editor.outstanding, base, journal.background)
      modifies journal, editor
      ensures Consistent(original, dmm.tiles, journal.background)
      ensures Ledger(editor.outstanding, base, journal.background)
      ensures ok ==> journal.background.Keys == old(journal.background.Keys) + Landing(src, shift)
      ensures !ok ==> journal.background == old(journal.background)
      ensures editor.refusals == old(editor.refusals) + if ok then 0 else 1
    {
      hide Consistent, Ledger, Landing, Acquired;
      ghost var before := journal.background;
      var acquired: seq<Point> := [];
      LandingEnds(src, shift);
      NothingAcquired(before);
      for k := 0 to |src|
        invariant Acquiring(before, acquired) && editor.refusals == old(editor.refusals)
        invariant journal.background.Keys == before.Keys + Landing(src[..k], shift)
      {
        LandingHas(src, k, shift);
        LandingNext(src, k, shift);
        ok, acquired := AcquireTile(src[k].coord.Plus(shift), before, acquired);
        if !ok { return; }
      }
      ok := true;
    }

    method Acquire(shift: Point) returns (ok: bool)
      requires Sound() && !closed && Fits(shift)
      modifies journal, editor
      ensures Sound()
      ensures ok ==> journal.background.Keys == old(journal.background.Keys) + Destinations(shift)
      ensures !ok ==> journal.background == old(journal.background) && editor.outstanding == old(editor.outstanding)
      ensures !ok ==> editor.refusals > old(editor.refusals)
    {
      DestinationsOnMap(shift);
      LandingAll(source, sourceCoords, shift);
      hide Landing;
      ok := AcquireTiles(source, shift);
    }

    /** Releases what a failed preview had acquired. */
    method Undo(acquired: seq<Point>, ghost before: TileMap)
      requires Consistent(original, dmm.tiles, journal.background) && Consistent(original, dmm.tiles, before)
      requires Ledger(editor.outstanding, base, journal.background) && Acquired(before, journal.background, acquired)
      modifies journal, editor
      ensures journal.background == before && Ledger(editor.outstanding, base, before)
      ensures editor.refusals == old(editor.refusals)
    {
      hide Consistent, Ledger, Copies, Distinct;
      ConsistentCopies(original, dmm.tiles, journal.background);
      ConsistentCopies(original, dmm.tiles, before);
      ghost var taken := journal.background.Keys - before.Keys;
      ghost var left := taken;
      assert acquired[0..] == acquired;
      for k := 0 to |acquired|
        invariant Ledger(editor.outstanding, base, journal.background) && Copies(journal.background, original)
        invariant editor.refusals == old(editor.refusals)
        invariant forall p :: p in left <==> p in acquired[k..]
        invariant journal.background.Keys == before.Keys + left && left <= taken
      {
        var p := acquired[k];
        assert acquired[k..] == [p] + acquired[k + 1..];
        assert p !in acquired[k + 1..] by { DistinctLater(acquired, k); }
        CopiesMinus(journal.background, original, p);
        ReleaseRestored(p);
        left := left - {p};
      }
      assert left == {};
      assert journal.background.Keys == before.Keys;
      CopiesEqual(journal.background, before, original);
    }

    /** Restores every tile of the journal in full. */
    method Restore() returns (coords: seq<Point>)
      requires dmm.Valid() && Consistent(original, dmm.tiles, journal.background)
      modifies dmm
      ensures dmm.Valid() && dmm.tiles == original
      ensures InRows(coords) && forall p :: p in coords <==> p in journal.background
    {
      var rest := journal.background.Keys;
      while rest != {}
        invariant dmm.Valid() && dmm.tiles.Keys == original.Keys && rest <= journal.background.Keys
        invariant forall p :: p in original && p !in rest ==> dmm.tiles[p] == original[p]
        decreases |rest|
      {
        var p := AnyOf(rest);
        dmm.tiles := dmm.tiles[p := journal.background[p]];
        rest := rest - {p};
      }
      coords := SortMoveCoords(journal.background.Keys);
    }

    /** Drops the tiles of `extra` from the journal. */
    method ReleaseAll(extra: set<Point>)
      requires extra <= journal.background.Keys && Ledger(editor.outstanding, base, journal.background)
      modifies journal, editor
      ensures journal.background == old(journal.background) - extra && editor.refusals == old(editor.refusals)
      ensures Ledger(editor.outstanding, base, journal.background)
    {
      hide Ledger;
      var rest := extra;
      ghost var gone: set<Point> := {};
      assert journal.background - gone == journal.background;
      while rest != {}
        invariant rest <= extra && gone == extra - rest && Ledger(editor.outstanding, base, journal.background)
        invariant journal.background == old(journal.background) - gone && editor.refusals == old(editor.refusals)
        decreases |rest|
      {
        var p := AnyOf(rest);
        ReleaseRestored(p);
        MinusTwice(old(journal.background), gone, p);
        rest, gone := rest - {p}, gone + {p};
      }
      assert gone == extra;
    }

    /** Passed-over tiles are restored, owned ones keep only their hidden contents. */
    method DrawBackground(shift: Point)
      requires dmm.Valid() && Consistent(original, dmm.tiles, journal.background)
      modifies dmm
      ensures dmm.Valid() && dmm.tiles.Keys == original.Keys
      ensures forall p :: p in original ==> dmm.tiles[p] == Cleared(shift, p)
    {
      var rest := journal.background.Keys;
      while rest != {}
        invariant dmm.Valid() && dmm.tiles.Keys == original.Keys && rest <= journal.background.Keys
        invariant forall p :: p in original && p !in rest ==> dmm.tiles[p] == Cleared(shift, p)
        decreases |rest|
      {
        var p := AnyOf(rest);
        var before := journal.background[p];
        if Owns(sourceCoords, placement, shift, p) {
          dmm.tiles := dmm.tiles[p := Hidden(before, visible)];
        } else {
          dmm.tiles := dmm.tiles[p := before];
        }
        rest := rest - {p};
      }
    }

    /** A tile before the moved instances are added: the background of an owned tile, the original
        of any other. */
    ghost function Uncovered(shift: Point, p: Point): Contents
      requires p in original
      reads this
    {
      if Owns(sourceCoords, placement, shift, p) then Hidden(original[p], visible) else original[p]
    }

    ghost function Cleared(shift: Point, p: Point): Contents
      requires p in original
      reads this, journal
    {
      if p in journal.background && Owns(sourceCoords, placement, shift, p) then Hidden(original[p], visible)
        else original[p]
    }

    /** Adds the visible instances of each source tile to its destination. */
    method DrawSource(shift: Point)
      requires dmm.Valid() && SourceOk() && Destinations(shift) <= dmm.tiles.Keys
      modifies dmm
      ensures dmm.Valid() && Drawn(dmm.tiles, old(dmm.tiles), source, shift, visible)
    {
      hide Drawn;
      assert source[..0] == [];
      NothingDrawn(dmm.tiles, shift, visible);
      for k := 0 to |source|
        invariant dmm.Valid() && dmm.tiles.Keys == old(dmm.tiles.Keys)
        invariant Drawn(dmm.tiles, old(dmm.tiles), source[..k], shift, visible)
      {
        var t := source[k];
        var coord := t.coord.Plus(shift);
        assert t in source && coord in Destinations(shift);
        DrawnStep(dmm.tiles, old(dmm.tiles), source[..k], t, shift, visible);
        assert source[..k] + [t] == source[..k + 1];
        dmm.tiles := dmm.tiles[coord := dmm.tiles[coord] + Visible(t.instances, visible)];
      }
      assert source[..|source|] == source;
    }

    /** Releases the tiles the preview no longer owns and regenerates the others. */
    method Settle(shift: Point)
      requires dmm.Valid() && journal.background.Keys <= dmm.tiles.Keys
      requires Ledger(editor.outstanding, base, journal.background)
      modifies dmm, journal, editor
      ensures dmm.Valid() && dmm.tiles.Keys == old(dmm.tiles.Keys)
      ensures Ledger(editor.outstanding, base, journal.background)
      ensures forall p :: p in journal.background <==>
        p in old(journal.background) && Owns(sourceCoords, placement, shift, p)
      ensures forall p :: p in journal.background ==> journal.background[p] == old(journal.background)[p]
      ensures forall p :: p in dmm.tiles ==>
        dmm.tiles[p] == if p in journal.background then regenerate(old(dmm.tiles)[p]) else old(dmm.tiles)[p]
    {
      ghost var keys := journal.background.Keys;
      var rest := journal.background.Keys;
      while rest != {}
        invariant dmm.Valid() && dmm.tiles.Keys == old(dmm.tiles.Keys) && rest <= keys && keys <= dmm.tiles.Keys
        invariant Ledger(editor.outstanding, base, journal.background)
        invariant forall p ::
          p in journal.background <==> p in keys && (p in rest || Owns(sourceCoords, placement, shift, p))
        invariant forall p :: p in journal.background ==> journal.background[p] == old(journal.background)[p]
        invariant forall p :: p in dmm.tiles ==>
          dmm.tiles[p] == if p in journal.background && p !in rest then regenerate(old(dmm.tiles)[p])
            else old(dmm.tiles)[p]
        decreases |rest|
      {
        var p := AnyOf(rest);
        if !Owns(sourceCoords, placement, shift, p) {
          ReleaseRestored(p);
        } else {
          dmm.tiles := dmm.tiles[p := regenerate(dmm.tiles[p])];
        }
        rest := rest - {p};
      }
    }

    /** Draws the preview from the backgrounds and releases what it has passed over. */
    method Draw(shift: Point)
      requires Sound() && !closed && Fits(shift) && Destinations(shift) <= journal.background.Keys
      requires placement || shift != Point(0, 0, 0)
      modifies dmm, journal, editor
      ensures Sound() && Displays(shift)
    {
      DestinationsOnMap(shift);
      ghost var keys := journal.background.Keys;
      SourceKept(keys);
      hide SourceFits, Shown, Owns, Visible, Hidden, Drawn, Consistent, Ledger;
      ghost var before := journal.background;
      JournalKeys(original, dmm.tiles, before);
      ghost var was := dmm.tiles;
      DrawBackground(shift);
      ghost var cleared := dmm.tiles;
      forall p | p in original ensures cleared[p] == Uncovered(shift, p) { OwnedKept(shift, p, keys); }
      DrawSource(shift);
      ghost var drawn := dmm.tiles;
      Settle(shift);
      forall p | p in original
        ensures dmm.tiles[p] == Shown(original[p], source, sourceCoords, placement, shift, visible, regenerate, p)
      {
        OwnedKept(shift, p, keys);
        DrawnAt(shift, cleared, drawn, p);
      }
      forall p ensures p in journal.background <==> Owns(sourceCoords, placement, shift, p) {
        OwnedKept(shift, p, keys);
      }
      DisplayedIsConsistent(original, was, before, dmm.tiles, journal.background, source, sourceCoords, placement,
                            shift, visible,
                            regenerate);
    }

    lemma SourceKept(keys: set<Point>)
      requires Sound() && !closed && keys == journal.background.Keys
      ensures !placement ==> sourceCoords <= keys
      ensures SourceOk()
    {
    }

    /** A tile after the background and the source were drawn. */
    lemma DrawnAt(shift: Point, cleared: TileMap, drawn: TileMap, p: Point)
      requires SourceOk() && (placement || shift != Point(0, 0, 0)) && p in original && p in cleared && p in drawn
      requires cleared[p] == Uncovered(shift, p) && Drawn(drawn, cleared, source, shift, visible)
      ensures Shown(original[p], source, sourceCoords, placement, shift, visible, regenerate, p) ==
              if Owns(sourceCoords, placement, shift, p) then regenerate(drawn[p]) else drawn[p]
    {
      if p.Minus(shift) !in sourceCoords {
        SourceAtOutside(source, p.Minus(shift));
        NothingVisible(visible);
        assert cleared[p] + [] == cleared[p];
      }
    }

    lemma OwnedKept(shift: Point, p: Point, keys: set<Point>)
      requires Destinations(shift) <= keys && (!placement ==> sourceCoords <= keys)
      ensures Owns(sourceCoords, placement, shift, p) ==> p in keys
    {
      if p.Minus(shift) in sourceCoords { assert p.Minus(shift).Plus(shift) == p; }
    }

    /** Preview: shows the source at a shift, or changes nothing at all. */
    method Preview(shift: Point) returns (ok: bool, coords: seq<Point>)
      requires Valid()
      modifies this, dmm, journal, editor
      ensures Valid() && closed == old(closed) && origin == old(origin)
      ensures source == old(source) && sourceCoords == old(sourceCoords)
      ensures ok ==> !closed && Fits(shift)
      ensures !ok ==> closed || !Fits(shift) || editor.refusals > old(editor.refusals)
      ensures !ok ==> dmm.tiles == old(dmm.tiles) && journal.background == old(journal.background)
      ensures !ok ==> editor.outstanding == old(editor.outstanding) && bounds == old(bounds)
      ensures !ok ==> lastShift == old(lastShift) && previewed == old(previewed)
      ensures ok ==> Displays(shift) && bounds == origin.Plus(shift.X, shift.Y)
      ensures ok && !(placement && old(previewed) && shift == old(lastShift)) ==>
        InRows(coords) && forall p :: p in coords <==> p in old(journal.background) || p in Destinations(shift)
      ensures ok && placement ==> previewed && lastShift == shift
      ensures ok && placement && old(previewed) && shift == old(lastShift) ==>
        dmm.tiles == old(dmm.tiles) && journal.background == old(journal.background) && bounds == old(bounds)
    {
      hide Consistent, Ledger, SourceFits, Displayed;
      coords := [];
      if closed || !Fits(shift) { return false, coords; }
      if placement && previewed && shift == lastShift { return true, coords; }
      ok := Acquire(shift);
      if !ok { return; }
      if !placement && shift == Point(0, 0, 0) {
        coords := PreviewHome();
        bounds := origin;
        return;
      }
      coords := SortMoveCoords(journal.background.Keys);
      Draw(shift);
      bounds := origin.Plus(shift.X, shift.Y);
      lastShift, previewed := shift, true;
    }

    /** A move dragged back to where it came from shows the original map. */
    method PreviewHome() returns (coords: seq<Point>)
      requires Sound() && !closed && !placement
      modifies dmm, journal, editor
      ensures Sound() && Displays(Point(0, 0, 0))
      ensures InRows(coords) && forall p :: p in coords <==> p in old(journal.background)
    {
      coords := Restore();
      ReleaseAll(journal.background.Keys - sourceCoords);
      forall p: Point ensures p.Minus(Point(0, 0, 0)) == p { }
    }

    /** Finish: cancelling restores the whole map and releases every captured tile. */
    method Finish(cancel: bool) returns (coords: seq<Point>)
      requires Valid()
      modifies this, dmm, journal, editor
      ensures Valid() && closed
      ensures !cancel || old(closed) ==> dmm.tiles == old(dmm.tiles) && editor.outstanding == old(editor.outstanding)
      ensures cancel && !old(closed) ==> dmm.tiles == original && editor.outstanding == base && bounds == old(origin)
      ensures cancel && !old(closed) ==>
        InRows(coords) && forall p :: p in coords <==> p in old(journal.background)
    {
      hide Consistent, SourceFits, Displayed, Ledger;
      coords := [];
      if closed { return; }
      if cancel {
        coords := Restore();
        bounds := origin;
        ReleaseAll(journal.background.Keys);
        LedgerEmpty(editor.outstanding, base, journal.background);
      }
      closed := true;
      source, sourceCoords := [], {};
      journal.background := map[];
    }

    /** TransformPlacement: rotates or mirrors the clipboard template at the requested target.
        A failed transform leaves the template and the preview as they were. */
    method TransformPlacement(t: PlacementTransform, shift: Point,
                              transform: (PlacementTransform, Prefab) -> Option<Prefab>)
      returns (ok: bool, coords: seq<Point>)
      requires Valid()
      modifies this, dmm, journal, editor
      ensures Valid() && closed == old(closed)
      ensures ok ==> !closed && placement && StaysOnMap(TurnedBounds(t, old(origin)), shift, dmm.maxX, dmm.maxY)
      ensures !ok && !closed && placement && StaysOnMap(TurnedBounds(t, origin), shift, dmm.maxX, dmm.maxY) ==>
        Untransformable(t, transform, source) || editor.refusals > old(editor.refusals)
      ensures !ok ==> dmm.tiles == old(dmm.tiles) && journal.background == old(journal.background)
      ensures !ok ==> editor.outstanding == old(editor.outstanding)
      ensures !ok ==> unchanged(this)
      ensures ok ==> Displays(shift) && lastShift == shift && previewed
      ensures ok ==> origin == TurnedBounds(t, old(origin)) && bounds == origin.Plus(shift.X, shift.Y)
      ensures ok ==>
        exists list ::
        IsTransformed(t, old(origin), z, transform, old(source), list) && multiset(source) == multiset(list)
    {
      hide Consistent, Ledger, SourceFits, Displayed, IsTransformed, SourceCoords, Untransformable, TurnedBounds,
           StaysOnMap;
      coords := [];
      if closed || !placement { return false, coords; }
      var area := TurnedBounds(t, origin);
      if !StaysOnMap(area, shift, dmm.maxX, dmm.maxY) { return false, coords; }
      var list;
      ok, list := TransformTiles(t, origin, z, transform, source);
      if !ok { return; }
      TransformedFits(t, origin, z, transform, source, sourceCoords, original, list);
      var sorted := Sort(list, SourceLe);
      PermutedFits(list, sorted, area, z, original);
      var candidate := new Move(dmm, editor, journal, visible, regenerate, true, z, area, sorted, SourceCoords(sorted),
                                original, base);
      ok, coords := candidate.Preview(shift);
      if ok { Adopt(candidate); }
    }

    /** The candidate of the same gesture replaces this template. */
    method Adopt(candidate: Move)
      requires candidate.Valid() && !candidate.closed && !closed && Alike(candidate)
      modifies this
      ensures Valid() && !closed && origin == candidate.origin && bounds == candidate.bounds &&
        source == candidate.source
      ensures sourceCoords == candidate.sourceCoords && lastShift == candidate.lastShift &&
        previewed == candidate.previewed
    {
      hide Consistent, Ledger, SourceFits, Displayed, SourceCoords;
      origin, bounds, source, sourceCoords :=
        candidate.origin, candidate.bounds, candidate.source, candidate.sourceCoords;
      lastShift, previewed := candidate.lastShift, candidate.previewed;
    }

    /** Two moves of one gesture: the same map, editor, journal and settings. */
    ghost predicate Alike(other: Move) {
      && other.dmm == dmm && other.editor == editor && other.journal == journal && other.visible == visible
      && other.regenerate == regenerate && other.placement == placement && other.z == z
      && other.original == original && other.base == base
    }
  }
}
