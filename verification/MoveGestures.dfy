/** Whole drag and paste gestures (internal/aphelion/editing: move.go, placement.go,
    placement_transform.go): how they start and what any run of them leaves behind. */
module MoveGestures {
  import opened Basics
  import opened Runs
  import opened Sorting
  import opened SelectionModel
  import opened MoveJournal

  /** The tiles of a map that a list of coordinates names. */
  ghost predicate Copied(source: seq<SourceTile>, coords: seq<Point>, tiles: TileMap) {
    && |source| == |coords|
    && forall k :: 0 <= k < |coords| ==> coords[k] in tiles && source[k] == SourceTile(coords[k], tiles[coords[k]])
  }

  lemma CopiedFits(source: seq<SourceTile>, coords: seq<Point>, area: Bounds, z: int, tiles: TileMap)
    requires Copied(source, coords, tiles) && Distinct(coords)
    requires forall p :: p in coords ==> area.Has(p.X, p.Y) && p.Z == z
    ensures SourceFits(source, SourceCoords(source), area, z, false, tiles)
    ensures forall p :: p in SourceCoords(source) <==> p in coords
  {
    forall i, j | 0 <= i < j < |source| ensures source[i].coord != source[j].coord { assert coords[i] != coords[j]; }
    forall p ensures p in SourceCoords(source) <==> p in coords {
      if p in coords {
        var k :| 0 <= k < |coords| && coords[k] == p;
        assert source[k] in source && source[k].coord == p;
      }
    }
    forall t | t in source ensures area.Has(t.coord.X, t.coord.Y) && t.coord.Z == z && t.coord in tiles {
      var k :| 0 <= k < |source| && source[k] == t;
      assert coords[k] in coords;
    }
  }

  /** The bounds are not empty and both corners are tiles of the map. */
  predicate AreaOnMap(dmm: Dmm, area: Bounds, z: int) {
    area.X1 <= area.X2 && area.Y1 <= area.Y2 && dmm.HasTile(Point(area.X1, area.Y1, z)) &&
      dmm.HasTile(Point(area.X2, area.Y2, z))
  }

  /** The test of the corners decides for every tile of the area. */
  lemma AreaOnMapMeaning(dmm: Dmm, area: Bounds, z: int)
    ensures AreaOnMap(dmm, area, z) <==>
      area.X1 <= area.X2 && area.Y1 <= area.Y2 &&
      forall x, y :: area.Has(x, y) ==> 1 <= x <= dmm.maxX && 1 <= y <= dmm.maxY && 1 <= z <= dmm.maxZ
  {
    if area.X1 <= area.X2 && area.Y1 <= area.Y2 {
      assert area.Has(area.X1, area.Y1) && area.Has(area.X2, area.Y2);
    }
  }

  /** NewMaskMove: captures the selected tiles; a refused capture releases those taken before. */
  method NewMaskMove(dmm: Dmm, selection: Selection, visible: string -> bool, regenerate: Contents -> Contents,
                     editor: Editor)
    returns (move: Move?)
    requires dmm.Valid() && selection.Valid()
    modifies editor
    ensures move == null ==> editor.outstanding == old(editor.outstanding)
    ensures move == null ==> !AreaOnMap(dmm, selection.area, selection.z) || editor.refusals > old(editor.refusals)
    ensures move != null ==> AreaOnMap(dmm, selection.area, selection.z)
    ensures move != null ==> fresh(move) && fresh(move.journal) && move.Valid() && !move.closed && !move.placement
    ensures move != null ==> move.dmm == dmm && move.editor == editor && move.original == dmm.tiles
    ensures move != null ==>
      move.base == old(editor.outstanding) && move.visible == visible && move.regenerate == regenerate
    ensures move != null ==> forall p :: p in move.sourceCoords <==> selection.Has(p)
    ensures move != null ==> move.Displays(Point(0, 0, 0))
  {
    var area, z := selection.area, selection.z;
    move := null;
    if !AreaOnMap(dmm, area, z) { return; }
    var coords := Coordinates(selection);
    forall p | p in coords ensures area.Has(p.X, p.Y) && p.Z == z && p in dmm.tiles {
      SelectedInArea(selection, p);
    }
    var journal := new Journal();
    var m := new Move(dmm, editor, journal, visible, regenerate, false, z, area, [], {}, dmm.tiles, editor.outstanding);
    var ok := CaptureSource(m, coords);
    if ok { move := m; }
  }

  lemma SelectedInArea(s: Selection, p: Point)
    requires s.Valid() && s.Has(p)
    ensures s.area.Has(p.X, p.Y) && p.Z == s.z
  {
    if !s.Sparse() {
      var k :| 0 <= k < |s.AbsRuns()| && s.AbsRuns()[k].Has(p.X, p.Y);
    }
  }

  /** Captures the source tiles of a new move one by one. */
  method CaptureSource(m: Move, coords: seq<Point>) returns (ok: bool)
    requires m.dmm.Valid() && !m.closed && !m.placement && m.source == [] && m.journal.background == map[]
    requires m.original == m.dmm.tiles && m.base == m.editor.outstanding && 1 <= m.z <= m.dmm.maxZ
    requires Distinct(coords) && forall p :: p in coords ==> m.origin.Has(p.X, p.Y) && p.Z == m.z && p in m.dmm.tiles
    modifies m, m.editor, m.journal
    ensures !ok ==> m.editor.outstanding == old(m.editor.outstanding) && m.editor.refusals > old(m.editor.refusals)
    ensures ok ==> m.Valid() && !m.closed && m.Displays(Point(0, 0, 0))
    ensures ok ==> forall p :: p in m.sourceCoords <==> p in coords
  {
    hide Consistent, Ledger, Copied, SourceFits, Displayed, SourceCoords;
    var source: seq<SourceTile> := [];
    CaptureStart(m.original, m.base, coords);
    for k := 0 to |coords|
      modifies m.journal, m.editor
      invariant Consistent(m.original, m.dmm.tiles, m.journal.background)
      invariant Ledger(m.editor.outstanding, m.base, m.journal.background) &&
        m.editor.refusals == old(m.editor.refusals)
      invariant Copied(source, coords[..k], m.original)
      invariant forall p :: p in m.journal.background <==> p in coords[..k]
    {
      var p := coords[k];
      assert p in coords;
      DistinctEarlier(coords, k);
      ok := m.CaptureTile(p);
      if !ok {
        m.ReleaseAll(m.journal.background.Keys);
        LedgerEmpty(m.editor.outstanding, m.base, m.journal.background);
        return;
      }
      CopiedNext(source, coords, k, m.original);
      source := source + [SourceTile(p, m.dmm.tiles[p])];
      assert coords[..k + 1] == coords[..k] + [p];
    }
    assert coords[..|coords|] == coords;
    CopiedFits(source, coords, m.origin, m.z, m.original);
    m.source, m.sourceCoords := source, SourceCoords(source);
    ok := true;
    HomeDisplayed(m.original, m.journal.background, source, m.sourceCoords, m.visible, m.regenerate);
  }

  lemma CaptureStart(original: TileMap, base: multiset<Point>, coords: seq<Point>)
    ensures Consistent(original, original, map[]) && Ledger(base, base, map[]) && Copied([], coords[..0], original)
  {
  }

  lemma CopiedNext(source: seq<SourceTile>, coords: seq<Point>, k: nat, tiles: TileMap)
    requires k < |coords| && Copied(source, coords[..k], tiles) && coords[k] in tiles
    ensures Copied(source + [SourceTile(coords[k], tiles[coords[k]])], coords[..k + 1], tiles)
  {
  }

  lemma HomeDisplayed(original: TileMap, background: TileMap, source: seq<SourceTile>, coords: set<Point>,
                      visible: string -> bool, regenerate: Contents -> Contents)
    requires forall p :: p in background <==> p in coords
    ensures Displayed(original, original, background, source, coords, false, Point(0, 0, 0), visible, regenerate)
  {
    forall p: Point ensures p.Minus(Point(0, 0, 0)) == p { }
  }

  // ---- runs of a gesture -----------------------------------------------------------------------

  datatype GestureStep = DoPreview(shift: Point) | DoTransform(t: PlacementTransform, shift: Point)

  /** Any sequence of previews and transforms, successful or not, followed by a cancel, gives
      back the map and the captured states the gesture began with. */
  method RunAndCancel(m: Move, steps: seq<GestureStep>, transform: (PlacementTransform, Prefab) -> Option<Prefab>)
    requires m.Valid() && !m.closed
    modifies m, m.dmm, m.journal, m.editor
    ensures m.closed && m.dmm.tiles == m.original && m.editor.outstanding == m.base
  {
    for k := 0 to |steps|
      invariant m.Valid() && !m.closed
    {
      match steps[k]
      case DoPreview(shift) => var ok, coords := m.Preview(shift);
      case DoTransform(t, shift) => var ok, coords := m.TransformPlacement(t, shift, transform);
    }
    var coords := m.Finish(true);
  }

  // ---- paste -------------------------------------------------------------------------------------

  /** The checks NewPlacement makes before it copies anything. */
  ghost predicate Pasteable(dmm: Dmm, template: seq<SourceTile>, z: int) {
    && 1 <= z <= dmm.maxZ && template != []
    && (forall k :: 0 <= k < |template| ==>
          var c := template[k].coord;
          c.X >= 1 && c.Y >= 1 && c.Z >= 1 && c.Z == template[0].coord.Z)
    && DistinctCoords(template)
    && forall box :: IsBox(box, template) ==> box.X2 - box.X1 < dmm.maxX && box.Y2 - box.Y1 < dmm.maxY
  }

  /** The bounding box of the template. */
  ghost predicate IsBox(box: Bounds, template: seq<SourceTile>) {
    && (forall t :: t in template ==> box.Has(t.coord.X, t.coord.Y))
    && (exists t :: t in template && t.coord.X == box.X1) && (exists t :: t in template && t.coord.X == box.X2)
    && (exists t :: t in template && t.coord.Y == box.Y1) && (exists t :: t in template && t.coord.Y == box.Y2)
  }

  /** A pasted tile keeps the visible prefabs in order and gives them the identities made from
      the n-th on. */
  ghost predicate Pasted(xs: Contents, original: Contents, visible: string -> bool, ids: nat -> Option<string>,
                         n: nat) {
    && |xs| == |Visible(original, visible)|
    && forall k ::
      0 <= k < |xs| ==> Some(xs[k].stableID) == ids(n + k) && xs[k].prefab == Visible(original, visible)[k].prefab
  }

  /** How many identities the tiles before need. */
  ghost function IdsBefore(template: seq<SourceTile>, visible: string -> bool): nat {
    if template == [] then 0
    else IdsBefore(template[..|template| - 1], visible) + |Visible(template[|template| - 1].instances, visible)|
  }

  lemma {:induction false} IdsBeforeMore(template: seq<SourceTile>, visible: string -> bool, k: nat, m: nat)
    requires k < m <= |template|
    ensures IdsBefore(template[..k], visible) + |Visible(template[k].instances, visible)| <=
      IdsBefore(template[..m], visible)
    decreases m
  {
    assert template[..m][..m - 1] == template[..m - 1];
    if k < m - 1 { IdsBeforeMore(template, visible, k, m - 1); }
  }

  /** If no identity is made twice, no two pasted instances share one. */
  lemma PastedIdsDistinct(out: seq<SourceTile>, template: seq<SourceTile>, box: Bounds, z: int, visible: string -> bool,
                          ids: nat -> Option<string>, k: nat, i: nat, m: nat, j: nat)
    requires PastedTiles(out, template, box, z, visible, ids) && k < |out| && m < |out|
    requires i < |out[k].instances| && j < |out[m].instances| && (k, i) != (m, j)
    requires forall a: nat, b: nat :: a != b && ids(a).Some? ==> ids(a) != ids(b)
    ensures out[k].instances[i].stableID != out[m].instances[j].stableID
  {
    hide Visible, IdsBefore;
    if k < m { IdsBeforeMore(template, visible, k, m); }
    if m < k { IdsBeforeMore(template, visible, m, k); }
    assert Some(out[k].instances[i].stableID) == ids(IdsBefore(template[..k], visible) + i);
    assert Some(out[m].instances[j].stableID) == ids(IdsBefore(template[..m], visible) + j);
  }

  lemma OneBox(a: Bounds, b: Bounds, template: seq<SourceTile>)
    requires IsBox(a, template) && IsBox(b, template)
    ensures a == b
  {
  }

  method Box(template: seq<SourceTile>) returns (box: Bounds)
    requires template != []
    ensures IsBox(box, template)
  {
    var c := template[0].coord;
    box := Bounds(c.X, c.Y, c.X, c.Y);
    ghost var left, right, low, high := 0, 0, 0, 0;
    for k := 1 to |template|
      invariant 0 <= left < k && 0 <= right < k && 0 <= low < k && 0 <= high < k
      invariant forall i :: 0 <= i < k ==> box.Has(template[i].coord.X, template[i].coord.Y)
      invariant template[left].coord.X == box.X1 && template[right].coord.X == box.X2
      invariant template[low].coord.Y == box.Y1 && template[high].coord.Y == box.Y2
    {
      var p := template[k].coord;
      if p.X < box.X1 { left := k; }
      if p.X > box.X2 { right := k; }
      if p.Y < box.Y1 { low := k; }
      if p.Y > box.Y2 { high := k; }
      box := Bounds(Min(box.X1, p.X), Min(box.Y1, p.Y), Max(box.X2, p.X), Max(box.Y2, p.Y));
    }
    assert template[left] in template && template[right] in template && template[low] in template &&
      template[high] in template;
  }

  method PasteInstances(xs: Contents, visible: string -> bool, ids: nat -> Option<string>, n: nat)
    returns (ok: bool, out: Contents, n': nat)
    ensures ok ==> Pasted(out, xs, visible, ids, n) && n' == n + |Visible(xs, visible)|
    ensures !ok ==> exists i: nat :: ids(i).None?
  {
    out, n' := [], n;
    for k := 0 to |xs|
      invariant Pasted(out, xs[..k], visible, ids, n) && n' == n + |Visible(xs[..k], visible)|
    {
      assert xs[..k + 1][..k] == xs[..k];
      if visible(xs[k].prefab.path) {
        var id := ids(n');
        if id.None? { return false, out, n'; }
        out, n' := out + [Instance(id.value, xs[k].prefab)], n' + 1;
      }
    }
    assert xs[..|xs|] == xs;
    ok := true;
  }

  /** Each template tile, moved so that the template starts at (1, 1), with pasted contents. */
  ghost predicate PastedTiles(out: seq<SourceTile>, template: seq<SourceTile>, box: Bounds, z: int,
                              visible: string -> bool, ids: nat -> Option<string>)
  {
    && |out| == |template|
    && forall k :: 0 <= k < |out| ==>
         out[k].coord == Point(template[k].coord.X - box.X1 + 1, template[k].coord.Y - box.Y1 + 1, z)
         && Pasted(out[k].instances, template[k].instances, visible, ids, IdsBefore(template[..k], visible))
  }

  lemma PastedFits(out: seq<SourceTile>, sorted: seq<SourceTile>, template: seq<SourceTile>, box: Bounds, z: int,
                   visible: string -> bool, ids: nat -> Option<string>, original: TileMap)
    requires PastedTiles(out, template, box, z, visible, ids) && IsBox(box, template) && DistinctCoords(template)
    requires (forall k :: 0 <= k < |template| ==> template[k].coord.Z == template[0].coord.Z) &&
      multiset(out) == multiset(sorted)
    ensures SourceFits(sorted, SourceCoords(sorted), Bounds(1, 1, box.X2 - box.X1 + 1, box.Y2 - box.Y1 + 1), z, true,
                       original)
  {
    var area := Bounds(1, 1, box.X2 - box.X1 + 1, box.Y2 - box.Y1 + 1);
    forall i, j | 0 <= i < j < |out| ensures out[i].coord != out[j].coord {
      assert template[i].coord != template[j].coord;
    }
    forall t | t in out ensures area.Has(t.coord.X, t.coord.Y) && t.coord.Z == z {
      var k :| 0 <= k < |out| && out[k] == t;
      assert template[k] in template;
    }
    PermutedFits(out, sorted, area, z, original);
  }

  /** NewPlacement: owns a clipboard template without capturing or changing the map. */
  method NewPlacement(dmm: Dmm, template: seq<SourceTile>, z: int, visible: string -> bool,
                      regenerate: Contents -> Contents,
                      editor: Editor, ids: nat -> Option<string>) returns (move: Move?)
    requires dmm.Valid()
    ensures (forall i: nat :: ids(i).Some?) ==> (move != null <==> Pasteable(dmm, template, z))
    ensures move != null ==>
      fresh(move) && fresh(move.journal) && move.Valid() && !move.closed && move.placement && !move.previewed
    ensures move != null ==> Pasteable(dmm, template, z) && move.dmm == dmm && move.editor == editor && move.z == z
    ensures move != null ==>
      move.original == dmm.tiles && move.base == editor.outstanding && move.journal.background == map[]
    ensures move != null ==> exists box, list ::
      IsBox(box, template) && PastedTiles(list, template, box, z, visible, ids) &&
        multiset(move.source) == multiset(list)
      && move.origin == Bounds(1, 1, box.X2 - box.X1 + 1, box.Y2 - box.Y1 + 1)
  {
    hide SourceFits, PastedTiles, IsBox, SourceCoords, Consistent, Ledger, DistinctCoords;
    move := null;
    if z < 1 || z > dmm.maxZ || template == [] { return; }
    var valid := CheckTemplate(template);
    if !valid { return; }
    var box := Box(template);
    forall other | IsBox(other, template) ensures other == box { OneBox(box, other, template); }
    var area := Bounds(1, 1, box.X2 - box.X1 + 1, box.Y2 - box.Y1 + 1);
    if area.X2 > dmm.maxX || area.Y2 > dmm.maxY { return; }
    var ok, list := PasteTiles(template, box, z, visible, ids);
    if !ok { return; }
    var sorted := Sort(list, SourceLe);
    PastedFits(list, sorted, template, box, z, visible, ids, dmm.tiles);
    CaptureStart(dmm.tiles, editor.outstanding, []);
    var journal := new Journal();
    move := new Move(dmm, editor, journal, visible, regenerate, true, z, area, sorted, SourceCoords(sorted), dmm.tiles,
                     editor.outstanding);
  }

  method PasteTiles(template: seq<SourceTile>, box: Bounds, z: int, visible: string -> bool, ids: nat -> Option<string>)
    returns (ok: bool, list: seq<SourceTile>)
    ensures ok ==> PastedTiles(list, template, box, z, visible, ids)
    ensures !ok ==> exists i: nat :: ids(i).None?
  {
    hide Pasted, PastedTiles, Visible, IdsBefore;
    list := [];
    var n := 0;
    NothingPasted(template, box, z, visible, ids);
    for k := 0 to |template|
      invariant PastedTiles(list, template[..k], box, z, visible, ids) && n == IdsBefore(template[..k], visible)
    {
      ghost var before := list;
      var xs;
      ok, xs, n := PasteInstances(template[k].instances, visible, ids, n);
      if !ok { return; }
      list := list + [SourceTile(Point(template[k].coord.X - box.X1 + 1, template[k].coord.Y - box.Y1 + 1, z), xs)];
      PastedNext(before, xs, template, box, z, visible, ids, k);
    }
    assert template[..|template|] == template;
    ok := true;
  }

  lemma NothingPasted(template: seq<SourceTile>, box: Bounds, z: int, visible: string -> bool,
                      ids: nat -> Option<string>)
    ensures PastedTiles([], template[..0], box, z, visible, ids) && IdsBefore(template[..0], visible) == 0
  {
  }

  lemma PastedNext(list: seq<SourceTile>, xs: Contents, template: seq<SourceTile>, box: Bounds, z: int,
                   visible: string -> bool, ids: nat -> Option<string>, k: nat)
    requires k < |template| && PastedTiles(list, template[..k], box, z, visible, ids)
    requires Pasted(xs, template[k].instances, visible, ids, IdsBefore(template[..k], visible))
    ensures PastedTiles(list + [SourceTile(Point(template[k].coord.X - box.X1 + 1, template[k].coord.Y - box.Y1 + 1, z),
                                           xs)], template[..k + 1], box, z, visible, ids)
    ensures IdsBefore(template[..k + 1], visible) ==
      IdsBefore(template[..k], visible) + |Visible(template[k].instances, visible)|
  {
    hide Pasted, Visible;
    assert template[..k + 1][..k] == template[..k];
    assert forall i :: 0 <= i < k ==> template[..k + 1][..i] == template[..k][..i];
  }

  method CheckTemplate(template: seq<SourceTile>) returns (ok: bool)
    requires template != []
    ensures ok <==> DistinctCoords(template) && forall k :: 0 <= k < |template| ==>
      (var c := template[k].coord; c.X >= 1 && c.Y >= 1 && c.Z >= 1 && c.Z == template[0].coord.Z)
  {
    var seen: set<Point> := {};
    for k := 0 to |template|
      invariant forall p :: p in seen <==> exists i :: 0 <= i < k && template[i].coord == p
      invariant forall i, j :: 0 <= i < j < k ==> template[i].coord != template[j].coord
      invariant forall i :: 0 <= i < k ==>
        (var c := template[i].coord; c.X >= 1 && c.Y >= 1 && c.Z >= 1 && c.Z == template[0].coord.Z)
    {
      var c := template[k].coord;
      if c.X < 1 || c.Y < 1 || c.Z < 1 || c.Z != template[0].coord.Z { return false; }
      if c in seen { return false; }
      seen := seen + {c};
    }
    ok := true;
  }
}
