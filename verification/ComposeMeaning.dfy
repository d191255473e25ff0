/** What a composed cell holds (internal/aphelion/mapping/compose.go:73-86, 188-272, 353-366), said
    without the steps that lay it: base, modules and fixed templates on top of each other. */
module ComposeMeaning {
  import opened Basics
  import opened Paths
  import opened Runs
  import opened Composition
  import opened ComposeBoard
  import opened Compose

  // ---- where a template is laid ------------------------------------------------------------------

  /** Fixed templates are laid on the whole map, modules wherever no fixed template reserves the
      point. */
  ghost predicate Welcome(req: Request, l: Layer, p: Point) {
    && 1 <= p.X <= req.size.X && 1 <= p.Y <= req.size.Y && 1 <= p.Z <= req.size.Z
    && (l.phase == Fixed || ReservedBy(req.size, req.fixed, p) == "")
  }

  /** The map and the reservations of the request. */
  ghost predicate GroundOf(req: Request, g: Ground) {
    g.size == req.size && forall p :: Holder(g.reserved, p) == ReservedBy(req.size, req.fixed, p)
  }

  /** A module or a fixed template. */
  predicate IsLaid(l: Layer) { l.phase == Modular || l.phase == Fixed }

  ghost predicate LayersOk(ls: seq<Layer>) { forall l :: l in ls ==> IsLaid(l) && OnePerPoint(l.x.source) }

  lemma TakesWelcome(req: Request, g: Ground, l: Layer, c: SourceCell)
    requires GroundOf(req, g) && IsLaid(l)
    ensures Takes(g, l, c) <==> Welcome(req, l, c.local.Plus(l.x.offset))
  {
  }

  /** How many cells of a template are laid. */
  ghost function WelcomeCells(req: Request, l: Layer, cells: seq<SourceCell>): nat {
    if cells == [] then 0
    else
      var last := cells[|cells| - 1];
      WelcomeCells(req, l, cells[..|cells| - 1]) + if Welcome(req, l, last.local.Plus(l.x.offset)) then 1 else 0
  }

  ghost function LaidCells(req: Request, ls: seq<Layer>): nat {
    if ls == [] then 0
    else LaidCells(req, ls[..|ls| - 1]) + WelcomeCells(req, ls[|ls| - 1], ls[|ls| - 1].x.source.cells)
  }

  lemma {:induction false} TakenIsWelcome(req: Request, g: Ground, l: Layer, cells: seq<SourceCell>)
    requires GroundOf(req, g) && IsLaid(l)
    ensures CellsTaken(g, l, cells) == WelcomeCells(req, l, cells)
  {
    hide GroundOf, Takes, Welcome;
    if cells != [] {
      TakenIsWelcome(req, g, l, cells[..|cells| - 1]);
      TakesWelcome(req, g, l, cells[|cells| - 1]);
    }
  }

  /** Within the cell budget every template is laid to its last cell. */
  lemma {:induction false} NothingCut(req: Request, g: Ground, ls: seq<Layer>)
    requires GroundOf(req, g) && LayersOk(ls) && LaidCells(req, ls) <= 1_000_000
    ensures SpentAll(g, ls).cells == LaidCells(req, ls)
  {
    hide GroundOf, OnePerPoint;
    if ls != [] {
      var init, l := ls[..|ls| - 1], ls[|ls| - 1];
      assert LayersOk(init) && l in ls;
      NothingCut(req, g, init);
      AllReached(req, g, l, SpentAll(g, init).cells);
      TakenIsWelcome(req, g, l, l.x.source.cells);
    }
  }

  lemma AllReached(req: Request, g: Ground, l: Layer, have: nat)
    requires GroundOf(req, g) && IsLaid(l)
    requires have + WelcomeCells(req, l, l.x.source.cells) <= CELL_BUDGET
    ensures Reached(g, l, have) == l.x.source.cells
  {
    hide GroundOf;
    var cells := l.x.source.cells;
    assert cells[..|cells|] == cells;
    TakenIsWelcome(req, g, l, cells);
    FittingCovers(g, l, cells, |cells|, CELL_BUDGET - have);
  }

  // ---- the content -------------------------------------------------------------------------------

  /** The atoms a template brings to a point, with its occurrence name. */
  ghost function Brings(l: Layer, p: Point): seq<Atom> {
    match LayerFrom(l.x.source.cells, l.x.offset, p)
    case None => []
    case Some(atoms) => seq(|atoms|, i requires 0 <= i < |atoms| => atoms[i].(occurrence := l.x.id))
  }

  /** All that the welcome templates bring to a point, in order. */
  ghost function OnTop(req: Request, ls: seq<Layer>, p: Point): seq<Atom> {
    if ls == [] then []
    else OnTop(req, ls[..|ls| - 1], p) + if Welcome(req, ls[|ls| - 1], p) then Brings(ls[|ls| - 1], p) else []
  }

  /** The base atoms, where nothing is reserved. */
  ghost function Ground0(req: Request, p: Point): seq<Atom> {
    match LayerFrom(req.base.cells, Point(0, 0, 0), p)
    case None => []
    case Some(atoms) => if ReservedBy(req.size, req.fixed, p) == "" then atoms else []
  }

  lemma {:induction false} AppliedConcat(b: seq<Atom>, x: seq<Atom>, y: seq<Atom>)
    ensures Applied(b, x + y) == Applied(Applied(b, x), y)
  {
    hide AddAtom;
    if y == [] {
      assert x + y == x;
    } else {
      assert (x + y)[..|x + y| - 1] == x + y[..|y| - 1];
      AppliedConcat(b, x, y[..|y| - 1]);
    }
  }

  /** Within the cell budget a composed cell is the base with everything on top applied in order. */
  lemma {:induction false} CellIsStack(req: Request, g: Ground, ls: seq<Layer>, p: Point)
    requires GroundOf(req, g) && LayersOk(ls) && LaidCells(req, ls) <= 1_000_000
    ensures Authored(g, req.base, ls, p) == Applied(Ground0(req, p), OnTop(req, ls, p))
  {
    hide Applied, OnePerPoint, LayerFrom, ReservedBy, WelcomeCells, SpentAll, Reached;
    if ls == [] {
      assert Applied(Ground0(req, p), []) == Ground0(req, p) by { NothingApplied(Ground0(req, p)); }
    } else {
      var init, l := ls[..|ls| - 1], ls[|ls| - 1];
      assert LayersOk(init) && l in ls;
      CellIsStack(req, g, init, p);
      NothingCut(req, g, init);
      AllReached(req, g, l, SpentAll(g, init).cells);
      var more := if Welcome(req, l, p) then Brings(l, p) else [];
      AppliedConcat(Ground0(req, p), OnTop(req, init, p), more);
      OverlayBrings(req, g, l, p, Authored(g, req.base, init, p));
    }
  }

  lemma NothingApplied(b: seq<Atom>)
    ensures Applied(b, []) == b
  {
  }

  lemma OverlayBrings(req: Request, g: Ground, l: Layer, p: Point, atoms: seq<Atom>)
    requires GroundOf(req, g) && IsLaid(l)
    ensures Overlay(g, l, l.x.source.cells, p, atoms) ==
      Applied(atoms, if Welcome(req, l, p) then Brings(l, p) else [])
  {
    hide LayerFrom, ReservedBy;
    NothingApplied(atoms);
    match LayerFrom(l.x.source.cells, l.x.offset, p)
    case None =>
    case Some(layer) => assert Stamp(layer, l.x.id) == Brings(l, p);
  }

  // ---- kinds of atoms ------------------------------------------------------------------------------

  /** The type is the root or, after a slash, a type below it. */
  predicate IsOf(path: string, root: string) {
    path == root || (|path| > |root| && path[..|root|] == root && path[|root|] == '/')
  }

  /** Turfs, areas, and everything else. */
  predicate IsKind(a: Atom, c: Channel) {
    match c
    case Turf => IsOf(a.path, "/turf")
    case Area => IsOf(a.path, "/area")
    case Object => !IsOf(a.path, "/turf") && !IsOf(a.path, "/area")
  }

  /** The atoms of a kind, in order, without the transparent turf and the transparent area. */
  function Showing(atoms: seq<Atom>, c: Channel): seq<Atom> {
    if atoms == [] then []
    else
      var last := atoms[|atoms| - 1];
      Showing(atoms[..|atoms| - 1], c) +
        if IsKind(last, c) && last.path != "/turf/template_noop" && last.path != "/area/template_noop" then [last]
          else []
  }

  lemma KindMeaning(a: Atom, c: Channel)
    ensures ChannelOf(a) == c <==> IsKind(a, c)
  {
    OfMeaning(a.path, "/turf");
    OfMeaning(a.path, "/area");
    assert IsOf(a.path, "/turf") ==> |a.path| >= 5 && a.path[..5] == "/turf" && a.path[..5][1] == 't';
    assert IsOf(a.path, "/area") ==> |a.path| >= 5 && a.path[..5] == "/area" && a.path[..5][1] == 'a';
  }

  lemma OfMeaning(path: string, root: string)
    ensures AtOrBelow(path, root) <==> IsOf(path, root)
  {
    var head := root + "/";
    if HasPrefix(path, head) { assert path[..|root|] == path[..|head|][..|root|] && path[|root|] == head[|root|]; }
    if IsOf(path, root) && path != root { assert path[..|head|] == path[..|root|] + [path[|root|]]; }
  }

  lemma {:induction false} ShowingMeaning(atoms: seq<Atom>, c: Channel)
    ensures Only(Solid(atoms), c) == Showing(atoms, c)
  {
    hide ChannelOf, IsKind, Only, Solid;
    if atoms == [] {
      NoneSolid(c);
    } else {
      var init, last := atoms[..|atoms| - 1], atoms[|atoms| - 1];
      assert atoms == init + [last];
      ShowingMeaning(init, c);
      SolidOnlySnoc(init, last, c);
      KindMeaning(last, c);
    }
  }

  // ---- what shows ----------------------------------------------------------------------------------

  function Named(atoms: seq<Atom>, id: string): seq<Atom> {
    seq(|atoms|, i requires 0 <= i < |atoms| => atoms[i].(occurrence := id))
  }

  /** The solid atoms of one channel, when one more atom comes. */
  lemma SolidOnlySnoc(atoms: seq<Atom>, a: Atom, c: Channel)
    ensures Only(Solid(atoms + [a]), c) ==
      Only(Solid(atoms), c) + if !IsNoop(a) && ChannelOf(a) == c then [a] else []
  {
    hide ChannelOf, IsNoop, Only, Solid;
    SolidSnoc(atoms, a);
    assert Solid(atoms) + [] == Solid(atoms) && Only(Solid(atoms), c) + [] == Only(Solid(atoms), c);
    if !IsNoop(a) { OnlySnoc(Solid(atoms), a, c); }
  }

  lemma NoneSolid(c: Channel)
    ensures Only(Solid([]), c) == []
  {
  }

  lemma {:induction false} OnlyConcat(a: seq<Atom>, b: seq<Atom>, c: Channel)
    ensures Only(Solid(a + b), c) == Only(Solid(a), c) + Only(Solid(b), c)
  {
    hide ChannelOf, IsNoop, Only, Solid;
    if b == [] {
      NoneSolid(c);
      assert a + b == a && Only(Solid(a), c) + [] == Only(Solid(a), c);
    } else {
      var init, last := b[..|b| - 1], b[|b| - 1];
      assert a + b == (a + init) + [last] && b == init + [last];
      OnlyConcat(a, init, c);
      SolidOnlySnoc(a + init, last, c);
      SolidOnlySnoc(init, last, c);
    }
  }

  lemma NamedSnoc(atoms: seq<Atom>, a: Atom, id: string)
    ensures Named(atoms + [a], id) == Named(atoms, id) + [a.(occurrence := id)] && Named([], id) == []
  {
  }

  lemma {:induction false} OnlyNamed(atoms: seq<Atom>, id: string, c: Channel)
    ensures Only(Solid(Named(atoms, id)), c) == Named(Only(Solid(atoms), c), id)
  {
    hide Only, Solid, Named;
    if atoms == [] {
      NamedSnoc([], Atom("", map[], ""), id);
      NoneSolid(c);
    } else {
      var init, last := atoms[..|atoms| - 1], atoms[|atoms| - 1];
      assert atoms == init + [last];
      OnlyNamed(init, id, c);
      NamedSnoc(init, last, id);
      NamedSnoc(Only(Solid(init), c), last, id);
      SolidOnlySnoc(init, last, c);
      SolidOnlySnoc(Named(init, id), last.(occurrence := id), c);
      var solid := Only(Solid(init), c);
      assert solid + [] == solid && Named(solid, id) + [] == Named(solid, id);
    }
  }

  /** No template after position k is laid on the point. */
  ghost predicate LastOn(req: Request, ls: seq<Layer>, k: nat, p: Point) {
    forall m :: k < m < |ls| && Welcome(req, ls[m], p) ==>
      forall c :: c in ls[m].x.source.cells ==> c.local.Plus(ls[m].x.offset) != p
  }

  lemma {:induction false} TopIsLast(req: Request, ls: seq<Layer>, k: nat, p: Point) returns (below: seq<Atom>)
    requires k < |ls| && Welcome(req, ls[k], p) && LastOn(req, ls, k, p)
    ensures OnTop(req, ls, p) == below + Brings(ls[k], p)
  {
    hide Welcome, LayerFrom;
    var init, l := ls[..|ls| - 1], ls[|ls| - 1];
    if k == |ls| - 1 {
      below := OnTop(req, init, p);
    } else {
      below := TopIsLast(req, init, k, p);
      if Welcome(req, l, p) {
        LayerMissing(l.x.source.cells, l.x.offset, p);
        assert Brings(l, p) == [];
      }
    }
  }

  lemma {:induction false} LayerIs(cells: seq<SourceCell>, offset: Point, c: SourceCell)
    requires c in cells && forall i, j :: 0 <= i < j < |cells| ==> cells[i].local != cells[j].local
    ensures LayerFrom(cells, offset, c.local.Plus(offset)) == Some(c.atoms)
  {
    if cells[|cells| - 1] != c {
      var i :| 0 <= i < |cells| && cells[i] == c;
      assert cells[..|cells| - 1][i] == c;
      LayerIs(cells[..|cells| - 1], offset, c);
    }
  }

  /** The topmost template on a point shows: its last solid turf and its last solid area are the only
      ones of the cell, and its solid objects lie on top of all others. Of a fixed template this
      holds everywhere on the map, of a module wherever no point is reserved. */
  lemma TopmostShows(req: Request, g: Ground, ls: seq<Layer>, k: nat, c: SourceCell)
    requires GroundOf(req, g) && LayersOk(ls) && LaidCells(req, ls) <= 1_000_000
    requires k < |ls| && c in ls[k].x.source.cells
    requires var p := c.local.Plus(ls[k].x.offset); Welcome(req, ls[k], p) && LastOn(req, ls, k, p)
    ensures var x, cell := ls[k].x, Authored(g, req.base, ls, c.local.Plus(ls[k].x.offset));
      && (forall ch :: ch != Object && Showing(c.atoms, ch) != [] ==>
            Only(cell, ch) == [Showing(c.atoms, ch)[|Showing(c.atoms, ch)| - 1].(occurrence := x.id)])
      && exists below :: Only(cell, Object) == below + Named(Showing(c.atoms, Object), x.id)
  {
    hide Welcome, LastOn, Authored, Applied, Only, Solid, LaidCells, LayerFrom, Showing;
    var l := ls[k];
    var p := c.local.Plus(l.x.offset);
    CellIsStack(req, g, ls, p);
    var below := TopIsLast(req, ls, k, p);
    assert l in ls;
    LayerIs(l.x.source.cells, l.x.offset, c);
    assert Brings(l, p) == Named(c.atoms, l.x.id);
    forall ch
      ensures Only(Authored(g, req.base, ls, p), ch) == Merged(Ground0(req, p), below + Named(c.atoms, l.x.id), ch)
      ensures Only(Solid(below + Named(c.atoms, l.x.id)), ch) ==
        Only(Solid(below), ch) + Named(Showing(c.atoms, ch), l.x.id)
    {
      ShowingMeaning(c.atoms, ch);
      AppliedMerged(Ground0(req, p), below + Named(c.atoms, l.x.id), ch);
      OnlyConcat(below, Named(c.atoms, l.x.id), ch);
      OnlyNamed(c.atoms, l.x.id, ch);
    }
    var under := Only(Ground0(req, p), Object) + Only(Solid(below), Object);
    assert Only(Authored(g, req.base, ls, p), Object) == under + Named(Showing(c.atoms, Object), l.x.id);
  }

  // ---- reserved points -----------------------------------------------------------------------------

  lemma {:induction false} AddedFrom(b: seq<Atom>, incoming: seq<Atom>, a: Atom)
    requires a in Applied(b, incoming)
    ensures a in b || a in incoming
  {
    if incoming != [] {
      var init, last := incoming[..|incoming| - 1], incoming[|incoming| - 1];
      if a != last {
        if !IsNoop(last) && ChannelOf(last) != Object && a in Drop(Applied(b, init), ChannelOf(last)) {
          DroppedFrom(Applied(b, init), ChannelOf(last), a);
        }
        AddedFrom(b, init, a);
      }
    }
  }

  lemma {:induction false} DroppedFrom(atoms: seq<Atom>, c: Channel, a: Atom)
    requires a in Drop(atoms, c)
    ensures a in atoms
  {
    if a != atoms[|atoms| - 1] { DroppedFrom(atoms[..|atoms| - 1], c, a); }
  }

  /** The atom comes from a cell that the template lands on the point. */
  ghost predicate BroughtBy(l: Layer, p: Point, a: Atom) {
    exists c, b ::
      c in l.x.source.cells && c.local.Plus(l.x.offset) == p && b in c.atoms && a == b.(occurrence := l.x.id)
  }

  lemma {:induction false} LayerCell(cells: seq<SourceCell>, offset: Point, p: Point)
    ensures LayerFrom(cells, offset, p).Some? ==>
      exists c :: c in cells && c.local.Plus(offset) == p && c.atoms == LayerFrom(cells, offset, p).value
  {
    if cells != [] {
      LayerCell(cells[..|cells| - 1], offset, p);
      assert cells[|cells| - 1] in cells && forall c :: c in cells[..|cells| - 1] ==> c in cells;
    }
  }

  lemma {:induction false} OnTopFrom(req: Request, ls: seq<Layer>, p: Point, a: Atom)
    requires a in OnTop(req, ls, p)
    ensures exists l :: l in ls && Welcome(req, l, p) && BroughtBy(l, p, a)
  {
    hide Welcome, LayerFrom;
    var init, l := ls[..|ls| - 1], ls[|ls| - 1];
    if a in OnTop(req, init, p) {
      OnTopFrom(req, init, p, a);
    } else {
      LayerCell(l.x.source.cells, l.x.offset, p);
      var i :| 0 <= i < |Brings(l, p)| && Brings(l, p)[i] == a;
      assert BroughtBy(l, p, a);
    }
  }

  /** On a reserved point there is no module and no base atom: every atom was brought by a fixed
      template. */
  lemma ReservedIsFixed(req: Request, g: Ground, ls: seq<Layer>, p: Point, a: Atom)
    requires GroundOf(req, g) && LayersOk(ls) && LaidCells(req, ls) <= 1_000_000
    requires ReservedBy(req.size, req.fixed, p) != "" && a in Authored(g, req.base, ls, p)
    ensures exists l :: l in ls && l.phase == Fixed && BroughtBy(l, p, a)
  {
    hide ReservedBy, BroughtBy, LaidCells, Authored, Applied, LayerFrom;
    CellIsStack(req, g, ls, p);
    AddedFrom(Ground0(req, p), OnTop(req, ls, p), a);
    OnTopFrom(req, ls, p, a);
  }

  /** The last fixed template with a real turf on a point of the map reserves it. */
  ghost predicate HasTurfOn(f: Placed, p: Point) {
    exists c, a :: c in f.source.cells && c.local.Plus(f.offset) == p && a in c.atoms &&
                   IsOf(a.path, "/turf") && a.path != "/turf/template_noop"
  }

  lemma {:induction false} ReservedMeaning(size: Point, fixed: seq<Placed>, p: Point)
    ensures var on := 1 <= p.X <= size.X && 1 <= p.Y <= size.Y && 1 <= p.Z <= size.Z;
      && (forall k :: 0 <= k < |fixed| && on && HasTurfOn(fixed[k], p) &&
                      (forall m :: k < m < |fixed| ==> !HasTurfOn(fixed[m], p)) ==>
            ReservedBy(size, fixed, p) == fixed[k].id)
      && ((!on || forall k :: 0 <= k < |fixed| ==> !HasTurfOn(fixed[k], p)) ==> ReservedBy(size, fixed, p) == "")
  {
    hide HasTurfOn;
    if fixed != [] {
      var init, f := fixed[..|fixed| - 1], fixed[|fixed| - 1];
      ReservedMeaning(size, init, p);
      ClaimsMeaning(size, f, p);
      assert forall k :: 0 <= k < |init| ==> init[k] == fixed[k];
    }
  }

  lemma ClaimsMeaning(size: Point, f: Placed, p: Point)
    ensures Claims(size, f, p) <==>
      1 <= p.X <= size.X && 1 <= p.Y <= size.Y && 1 <= p.Z <= size.Z && HasTurfOn(f, p)
  {
    if SomeClaims(f, f.source.cells, p) {
      var i :| 0 <= i < |f.source.cells| && CellClaims(f, f.source.cells[i], p);
      var c := f.source.cells[i];
      var k :| 0 <= k < |c.atoms| && ChannelOf(c.atoms[k]) == Turf && c.atoms[k].path != "/turf/template_noop";
      KindMeaning(c.atoms[k], Turf);
      assert c in f.source.cells && c.atoms[k] in c.atoms;
    }
    if HasTurfOn(f, p) {
      var c, a :| c in f.source.cells && c.local.Plus(f.offset) == p && a in c.atoms && IsOf(a.path, "/turf") &&
        a.path != "/turf/template_noop";
      KindMeaning(a, Turf);
      var i :| 0 <= i < |f.source.cells| && f.source.cells[i] == c;
      var k :| 0 <= k < |c.atoms| && c.atoms[k] == a;
      assert CellClaims(f, f.source.cells[i], p);
    }
  }

  // ---- what a record remembers -----------------------------------------------------------------------

  ghost predicate OnMap(req: Request, p: Point) {
    1 <= p.X <= req.size.X && 1 <= p.Y <= req.size.Y && 1 <= p.Z <= req.size.Z
  }

  /** The template has a cell for the point. */
  ghost predicate HasCellOn(l: Layer, p: Point) {
    exists c :: c in l.x.source.cells && c.local.Plus(l.x.offset) == p
  }

  /** The contributions that a reservation keeps out of a point, in order: of the base, then of the
      templates. */
  ghost function KeptOut(req: Request, ls: seq<Layer>, p: Point): seq<Contribution> {
    if ls == [] then
      if ReservedBy(req.size, req.fixed, p) != "" && exists c :: c in req.base.cells && c.local == p
      then [Contribution(req.base.path, p, "", Base)] else []
    else
      var l := ls[|ls| - 1];
      KeptOut(req, ls[..|ls| - 1], p) +
        if OnMap(req, p) && !Welcome(req, l, p) && HasCellOn(l, p)
        then [Contribution(l.x.source.path, p.Minus(l.x.offset), l.x.id, l.phase)] else []
  }

  lemma CellFound(cells: seq<SourceCell>, offset: Point, p: Point)
    ensures LayerFrom(cells, offset, p).Some? <==> exists c :: c in cells && c.local.Plus(offset) == p
  {
    LayerCell(cells, offset, p);
    if c :| c in cells && c.local.Plus(offset) == p {
      if LayerFrom(cells, offset, p).None? {
        NoCellFound(cells, offset, p);
        assert false;
      }
    }
  }

  lemma {:induction false} NoCellFound(cells: seq<SourceCell>, offset: Point, p: Point)
    requires LayerFrom(cells, offset, p).None?
    ensures forall c :: c in cells ==> c.local.Plus(offset) != p
  {
    if cells != [] {
      NoCellFound(cells[..|cells| - 1], offset, p);
      assert forall c :: c in cells ==> c in cells[..|cells| - 1] || c == cells[|cells| - 1];
    }
  }

  /** Within the cell budget a point counts as covered exactly when some welcome template has a cell for
      it, transparent or not, and remembers exactly the contributions that were kept out. */
  lemma {:induction false} TraceMeaning(req: Request, g: Ground, ls: seq<Layer>, p: Point)
    requires GroundOf(req, g) && LayersOk(ls) && LaidCells(req, ls) <= 1_000_000
    ensures var t := TraceOf(g, req.base, ls, p);
      && (t.covered <==> exists l :: l in ls && Welcome(req, l, p) && HasCellOn(l, p))
      && t.suppressed == KeptOut(req, ls, p)
  {
    hide OnePerPoint, LayerFrom, ReservedBy, WelcomeCells, SpentAll, Reached, HasCellOn;
    if ls == [] {
      assert p.Minus(Point(0, 0, 0)) == p;
      BaseFound(req, p);
    } else {
      var init, l := ls[..|ls| - 1], ls[|ls| - 1];
      assert LayersOk(init) && l in ls;
      TraceMeaning(req, g, init, p);
      NothingCut(req, g, init);
      AllReached(req, g, l, SpentAll(g, init).cells);
      assert LayerFrom(l.x.source.cells, l.x.offset, p).Some? <==> HasCellOn(l, p) by {
        CellFound(l.x.source.cells, l.x.offset, p);
        CellOnMeaning(l, p);
      }
      assert forall m :: m in ls <==> m in init || m == l;
    }
  }

  lemma CellOnMeaning(l: Layer, p: Point)
    ensures HasCellOn(l, p) <==> exists c :: c in l.x.source.cells && c.local.Plus(l.x.offset) == p
  {
  }

  lemma BaseFound(req: Request, p: Point)
    ensures LayerFrom(req.base.cells, Point(0, 0, 0), p).Some? <==> exists c :: c in req.base.cells && c.local == p
  {
    CellFound(req.base.cells, Point(0, 0, 0), p);
    assert forall c: SourceCell :: c.local.Plus(Point(0, 0, 0)) == c.local;
  }
}
