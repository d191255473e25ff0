/** The whole composition (internal/aphelion/mapping/compose.go:91-365): the base, the bounded
    breadth-first expansion of modules, and the fixed templates. */
module Compose {
  import opened Basics
  import opened Runs
  import opened Sorting
  import opened Composition
  import opened ComposeBoard

  const CELL_BUDGET: nat := 1_000_000
  const ATOM_BUDGET: nat := 4_000_000
  const ROOT_BUDGET: nat := 4096
  const MAX_DEPTH: nat := 32

  /** What has been contributed so far. */
  datatype Budget = Budget(cells: nat, atoms: nat)

  // ---- one template --------------------------------------------------------------------------------

  function Stamp(atoms: seq<Atom>, id: string): seq<Atom> {
    seq(|atoms|, i requires 0 <= i < |atoms| => atoms[i].(occurrence := id))
  }

  /** Fixed templates go on reserved cells, modules do not. */
  predicate Blocked(reserved: map<Point, string>, phase: Phase, p: Point)
  {
    phase == Modular && Holder(reserved, p) != ""
  }

  /** Where templates land: the size of the map and its reservations. */
  datatype Ground = Ground(size: Point, reserved: map<Point, string>)

  /** A template and the phase it is applied in. */
  datatype Layer = Layer(phase: Phase, x: Placed)

  /** The cell lands on the map and no reservation keeps it out. */
  predicate Takes(g: Ground, l: Layer, c: SourceCell) {
    var p := c.local.Plus(l.x.offset);
    Inside(g.size, p) && !Blocked(g.reserved, l.phase, p)
  }

  /** How many of the cells contribute, and how many atoms they hold. */
  function CellsTaken(g: Ground, l: Layer, cells: seq<SourceCell>): nat {
    if cells == [] then 0
    else CellsTaken(g, l, cells[..|cells| - 1]) + if Takes(g, l, cells[|cells| - 1]) then 1 else 0
  }

  function AtomsTaken(g: Ground, l: Layer, cells: seq<SourceCell>): nat {
    if cells == [] then 0
    else AtomsTaken(g, l, cells[..|cells| - 1]) + if Takes(g, l, cells[|cells| - 1]) then |cells[|cells| - 1].atoms|
      else 0
  }

  /** The longest beginning of the cells with no more than `room` contributions. */
  function Fitting(g: Ground, l: Layer, cells: seq<SourceCell>, room: nat): (k: nat)
    ensures k <= |cells| && CellsTaken(g, l, cells[..k]) <= room
  {
    if CellsTaken(g, l, cells) <= room then
      assert cells[..|cells|] == cells;
      |cells|
    else
      var k := Fitting(g, l, cells[..|cells| - 1], room);
      assert cells[..|cells| - 1][..k] == cells[..k];
      k
  }

  /** The cells of a template that are applied when `have` cells were contributed before. */
  function Reached(g: Ground, l: Layer, have: nat): seq<SourceCell> {
    l.x.source.cells[..Fitting(g, l, l.x.source.cells, if have < CELL_BUDGET then CELL_BUDGET - have else 0)]
  }

  function Spent(g: Ground, l: Layer, b: Budget): Budget {
    var cells := Reached(g, l, b.cells);
    Budget(b.cells + CellsTaken(g, l, cells), b.atoms + AtomsTaken(g, l, cells))
  }

  /** A cell after a template was applied over it. */
  ghost function Overlay(g: Ground, l: Layer, cells: seq<SourceCell>, p: Point, atoms: seq<Atom>): seq<Atom> {
    match LayerFrom(cells, l.x.offset, p)
    case None => atoms
    case Some(layer) =>
      if Inside(g.size, p) && !Blocked(g.reserved, l.phase, p) then Applied(atoms, Stamp(layer, l.x.id)) else atoms
  }

  /** What a template adds to the trace of a point: it covers it, or is kept out of it. */
  ghost function Leaves(g: Ground, l: Layer, cells: seq<SourceCell>, p: Point, t: Trace): Trace {
    if LayerFrom(cells, l.x.offset, p).None? || !Inside(g.size, p) then t
    else if Blocked(g.reserved, l.phase, p) then
      t.(suppressed := t.suppressed + [Contribution(l.x.source.path, p.Minus(l.x.offset), l.x.id, l.phase)])
    else t.(covered := true)
  }

  lemma TakenNext(g: Ground, l: Layer, cells: seq<SourceCell>, k: nat)
    requires k < |cells|
    ensures CellsTaken(g, l, cells[..k + 1]) == CellsTaken(g, l, cells[..k]) + if Takes(g, l, cells[k]) then 1 else 0
    ensures AtomsTaken(g, l, cells[..k + 1]) ==
            AtomsTaken(g, l, cells[..k]) + if Takes(g, l, cells[k]) then |cells[k].atoms| else 0
  {
    assert cells[..k + 1][..k] == cells[..k];
  }

  lemma {:induction false} TakenMore(g: Ground, l: Layer, cells: seq<SourceCell>, k: nat, n: nat)
    requires k <= n <= |cells|
    ensures CellsTaken(g, l, cells[..k]) <= CellsTaken(g, l, cells[..n])
    ensures AtomsTaken(g, l, cells[..k]) <= AtomsTaken(g, l, cells[..n])
    decreases n
  {
    if k < n {
      TakenNext(g, l, cells, n - 1);
      TakenMore(g, l, cells, k, n - 1);
    }
  }

  /** Where a template stops: before the first contribution that exceeds the room. */
  lemma {:induction false} FittingStops(g: Ground, l: Layer, cells: seq<SourceCell>, k: nat, room: nat)
    requires k < |cells| && CellsTaken(g, l, cells[..k]) <= room < CellsTaken(g, l, cells[..k + 1])
    ensures Fitting(g, l, cells, room) == k
  {
    hide CellsTaken;
    TakenMore(g, l, cells, k + 1, |cells|);
    assert cells[..|cells|] == cells;
    var init := cells[..|cells| - 1];
    if k == |init| {
      assert init == cells[..k];
    } else {
      assert init[..k] == cells[..k] && init[..k + 1] == cells[..k + 1];
      FittingStops(g, l, init, k, room);
    }
  }

  /** A beginning with enough room lies inside the longest one. */
  lemma {:induction false} FittingCovers(g: Ground, l: Layer, cells: seq<SourceCell>, k: nat, room: nat)
    requires k <= |cells| && CellsTaken(g, l, cells[..k]) <= room
    ensures k <= Fitting(g, l, cells, room)
  {
    hide CellsTaken;
    assert cells[..|cells|] == cells;
    if k < |cells| && CellsTaken(g, l, cells) > room {
      var init := cells[..|cells| - 1];
      assert init[..k] == cells[..k];
      FittingCovers(g, l, init, k, room);
    }
  }

  /** The template is one of those the composition was given or chose. */
  ghost predicate Registered(ins: Inputs, phase: Phase, x: Placed) {
    (phase == Modular && x in ins.placements) || (phase == Fixed && x in ins.fixed)
  }

  lemma StampTruthful(ins: Inputs, phase: Phase, x: Placed, k: nat)
    requires Registered(ins, phase, x) && k < |x.source.cells|
    ensures var c := x.source.cells[k];
      forall a :: a in Stamp(c.atoms, x.id) ==>
        Truthful(ins, c.local.Plus(x.offset), Tagged(a, Contribution(x.source.path, c.local, x.id, phase)))
  {
    var c := x.source.cells[k];
    forall a | a in Stamp(c.atoms, x.id)
      ensures Truthful(ins, c.local.Plus(x.offset), Tagged(a, Contribution(x.source.path, c.local, x.id, phase)))
    {
      var j :| 0 <= j < |c.atoms| && Stamp(c.atoms, x.id)[j] == a;
      assert FromPlaced(x, c.local.Plus(x.offset), Tagged(a, Contribution(x.source.path, c.local, x.id, phase)));
    }
  }

  /** How applying one cell ended. */
  datatype Ending = Went | OutOfCells | OutOfAtoms

  /** One cell of a template: skipped outside the map, suppressed by a reservation, or applied. */
  method ApplyOne(ghost ins: Inputs, g: Ground, l: Layer, k: nat, b: Board, ghost ts: Tags, budget: Budget)
    returns (end: Ending, b': Board, ghost ts': Tags, budget': Budget)
    requires Registered(ins, l.phase, l.x) && k < |l.x.source.cells| && BoardOk(ins, g.reserved, b, ts)
    requires budget.cells <= CELL_BUDGET && budget.atoms <= ATOM_BUDGET
    ensures BoardOk(ins, g.reserved, b', ts')
    ensures var c := l.x.source.cells[k];
      var takes := Takes(g, l, c);
      && (end == OutOfCells <==> takes && budget.cells == CELL_BUDGET)
      && (end == OutOfAtoms <==> takes && budget.cells < CELL_BUDGET && budget.atoms + |c.atoms| > ATOM_BUDGET)
      && (end == OutOfCells ==> budget' == budget && forall p :: CellAt(b', p) == CellAt(b, p))
      && (end == Went ==> budget' == if takes then Budget(budget.cells + 1, budget.atoms + |c.atoms|) else budget)
      && (end == Went ==> forall p ::
            CellAt(b', p) == if takes && p == c.local.Plus(l.x.offset) then
              Applied(CellAt(b, p), Stamp(c.atoms, l.x.id))
                             else CellAt(b, p))
      && (end == OutOfCells ==> forall p :: TraceAt(b', g.reserved, p) == TraceAt(b, g.reserved, p))
      && (end == Went ==> forall p :: TraceAt(b', g.reserved, p) == Leaves(g, l, [c], p, TraceAt(b, g.reserved, p)))
  {
    hide BoardOk, Applied, Truthful, Registered, Noted;
    b', ts', budget', end := b, ts, budget, Went;
    var c := l.x.source.cells[k];
    var p := c.local.Plus(l.x.offset);
    assert p.Minus(l.x.offset) == c.local;
    OneCell(c, l.x.offset);
    if !Inside(g.size, p) { return; }
    var o := Contribution(l.x.source.path, c.local, l.x.id, l.phase);
    if Blocked(g.reserved, l.phase, p) {
      SuppressOk(ins, g.reserved, b, ts, p, o);
      b' := Suppress(b, g.reserved, p, o);
      return;
    }
    TouchedOk(ins, g.reserved, b, ts, p);
    b' := b.(records := b.records[p := RecordAt(b, g.reserved, p)]);
    if budget.cells >= CELL_BUDGET { end := OutOfCells; return; }
    var incoming := Stamp(c.atoms, l.x.id);
    budget' := Budget(budget.cells + 1, budget.atoms + |incoming|);
    if budget'.atoms > ATOM_BUDGET { end := OutOfAtoms; return; }
    RegisteredPhase(ins, l.phase, l.x);
    StampTruthful(ins, l.phase, l.x, k);
    ContributeOk(ins, g.reserved, b, ts, p, incoming, o);
    NotedTrace(RecordAt(b, g.reserved, p).(covered := true), incoming, o);
    var atoms := ApplyCell(CellAt(b, p), incoming);
    var r := NoteAll(RecordAt(b, g.reserved, p).(covered := true), incoming, o);
    b' := Board(b.cells[p := atoms], b.records[p := r]);
    ts' := ts[p := TagAll(TagsAt(ts, p), incoming, o)];
  }

  lemma OneCell(c: SourceCell, offset: Point)
    ensures forall p :: LayerFrom([c], offset, p) == if p == c.local.Plus(offset) then Some(c.atoms) else None
  {
    assert [c][..0] == [];
  }

  lemma RegisteredPhase(ins: Inputs, phase: Phase, x: Placed)
    requires Registered(ins, phase, x)
    ensures phase == Modular || phase == Fixed
  {
  }

  /** apply: the template as far as the cell budget goes; more atoms than allowed, and nothing
      else, end the composition. */
  method ApplyTemplate(ghost ins: Inputs, g: Ground, l: Layer, b0: Board, ghost ts0: Tags, budget0: Budget)
    returns (ok: bool, b: Board, ghost ts: Tags, budget: Budget)
    requires Registered(ins, l.phase, l.x) && OnePerPoint(l.x.source) && BoardOk(ins, g.reserved, b0, ts0)
    requires budget0.cells <= CELL_BUDGET && budget0.atoms <= ATOM_BUDGET
    ensures BoardOk(ins, g.reserved, b, ts)
    ensures ok <==> Spent(g, l, budget0).atoms <= ATOM_BUDGET
    ensures ok ==> budget == Spent(g, l, budget0) && budget.cells <= CELL_BUDGET
    ensures ok ==> forall p :: CellAt(b, p) == Overlay(g, l, Reached(g, l, budget0.cells), p, CellAt(b0, p))
    ensures ok ==> forall p ::
      TraceAt(b, g.reserved, p) == Leaves(g, l, Reached(g, l, budget0.cells), p, TraceAt(b0, g.reserved, p))
  {
    hide BoardOk, Registered, OnePerPoint, Overlay, Leaves, Takes, CellsTaken, AtomsTaken, Applied, TraceAt;
    b, ts, budget := b0, ts0, budget0;
    var cells := l.x.source.cells;
    ghost var room := CELL_BUDGET - budget0.cells;
    NothingTaken(g, l);
    for k := 0 to |cells|
      invariant BoardOk(ins, g.reserved, b, ts) && budget.cells <= CELL_BUDGET && budget.atoms <= ATOM_BUDGET
      invariant budget.cells == budget0.cells + CellsTaken(g, l, cells[..k])
      invariant budget.atoms == budget0.atoms + AtomsTaken(g, l, cells[..k])
      invariant forall p :: CellAt(b, p) == Overlay(g, l, cells[..k], p, CellAt(b0, p))
      invariant forall p :: TraceAt(b, g.reserved, p) == Leaves(g, l, cells[..k], p, TraceAt(b0, g.reserved, p))
    {
      ghost var b1 := b;
      TakenNext(g, l, cells, k);
      var end;
      end, b, ts, budget := ApplyOne(ins, g, l, k, b, ts, budget);
      if end == OutOfCells {
        FittingStops(g, l, cells, k, room);
        return true, b, ts, budget;
      }
      if end == OutOfAtoms {
        FittingCovers(g, l, cells, k + 1, room);
        TakenMore(g, l, cells, k + 1, Fitting(g, l, cells, room));
        return false, b, ts, budget;
      }
      OverlayNext(g, l, k, b0, b1, b);
      LeavesNext(g, l, k);
    }
    assert cells[..|cells|] == cells;
    FittingCovers(g, l, cells, |cells|, room);
    ok := true;
  }

  lemma NothingTaken(g: Ground, l: Layer)
    ensures var none := l.x.source.cells[..0];
      && CellsTaken(g, l, none) == 0 && AtomsTaken(g, l, none) == 0
      && (forall p, atoms :: Overlay(g, l, none, p, atoms) == atoms) && forall p, t :: Leaves(g, l, none, p, t) == t
  {
  }

  lemma LeavesNext(g: Ground, l: Layer, k: nat)
    requires OnePerPoint(l.x.source) && k < |l.x.source.cells|
    ensures var cells := l.x.source.cells;
      forall p, t :: Leaves(g, l, cells[..k + 1], p, t) == Leaves(g, l, [cells[k]], p, Leaves(g, l, cells[..k], p, t))
  {
    hide OnePerPoint, LayerFrom, Inside, Blocked;
    LayerNext(l.x.source, l.x.offset, k);
    OneCell(l.x.source.cells[k], l.x.offset);
  }

  lemma OverlayNext(g: Ground, l: Layer, k: nat, b0: Board, b1: Board, b: Board)
    requires OnePerPoint(l.x.source) && k < |l.x.source.cells|
    requires forall p :: CellAt(b1, p) == Overlay(g, l, l.x.source.cells[..k], p, CellAt(b0, p))
    requires var c := l.x.source.cells[k];
      forall p :: CellAt(b, p) == if Takes(g, l, c) && p == c.local.Plus(l.x.offset)
                                  then Applied(CellAt(b1, p), Stamp(c.atoms, l.x.id)) else CellAt(b1, p)
    ensures forall p :: CellAt(b, p) == Overlay(g, l, l.x.source.cells[..k + 1], p, CellAt(b0, p))
  {
    hide OnePerPoint, LayerFrom, Applied, Stamp, Inside, Blocked, CellAt;
    LayerNext(l.x.source, l.x.offset, k);
  }

  // ---- choosing a module for a root ---------------------------------------------------------------

  datatype Candidate = Candidate(path: string, error: string)

  datatype Root = Root(id: string, config: string, key: string, bindingHash: string, destination: Point,
                       candidates: seq<Candidate>)

  datatype Choice = Choice(bindingHash: string, slot: int, candidateHash: string, documentID: string, generation: nat,
                           revision: nat)

  /** The catalogue's answers: loading a map, the roots it contains, and where it is anchored. */
  datatype Catalogue = Catalogue(
    load: string -> Option<Source>, roots: (Source, Point, string) -> seq<Root>,
    anchor: (Source, Point) -> Option<Point>)

  ghost predicate LoadsGrids(cat: Catalogue)
  {
    forall path :: cat.load(path).Some? ==> OnePerPoint(cat.load(path).value)
  }

  /** What a composition is given. */
  datatype Request = Request(cat: Catalogue, base: Source, size: Point, fixed: seq<Placed>, excluded: set<string>)

  ghost predicate RequestOk(req: Request) {
    OnePerPoint(req.base) && LoadsGrids(req.cat) && forall f :: f in req.fixed ==> OnePerPoint(f.source)
  }

  /** A root waiting for expansion, with the bindings on the way to it. */
  datatype Pending = Pending(root: Root, ancestry: seq<string>, depth: nat)

  function Binding(root: Root): string { root.config + "#" + root.key }

  /** A selected source for a root. */
  datatype Selected = Selected(source: Source, choice: Choice, pinned: bool)

  /** The pin still describes the loaded content. */
  predicate PinHolds(choice: Choice, source: Source) {
    || choice.candidateHash == "" || choice.candidateHash == source.structuralHash
    || (choice.documentID != "" && choice.documentID == source.documentID && choice.generation == source.generation
        && source.revision >= choice.revision)
  }

  /** The source selected for a root, or None when a diagnostic is issued instead. */
  function Select(e: Expansion, choices: map<string, Choice>, item: Pending): Option<Selected> {
    var root := item.root;
    if Holder(e.reserved, root.destination) != "" || root.id in e.req.excluded then None
    else if item.depth >= MAX_DEPTH || Binding(root) in item.ancestry then None
    else
      var pinned := root.id in choices;
      var choice := if pinned then choices[root.id] else Choice("", 0, "", "", 0, 0);
      if pinned && choice.bindingHash != "" && choice.bindingHash != root.bindingHash then None
      else if choice.slot < 0 || choice.slot >= |root.candidates| then None
      else if root.candidates[choice.slot].error != "" then None
      else
        match e.req.cat.load(root.candidates[choice.slot].path)
        case None => None
        case Some(source) => if PinHolds(choice, source) then Some(Selected(source, choice, pinned)) else None
  }

  /** A pinned choice is refreshed to what was selected, even when the source cannot be anchored. */
  function Refreshed(choices: map<string, Choice>, root: Root, s: Option<Selected>): map<string, Choice> {
    if s.None? || !s.value.pinned then choices
    else
      var source := s.value.source;
      choices[root.id := Choice(root.bindingHash, s.value.choice.slot, source.structuralHash, source.documentID,
                                source.generation, source.revision)]
  }

  /** The placement of a root: its selected source at its anchor. */
  function Resolve(e: Expansion, choices: map<string, Choice>, item: Pending): Option<Placed> {
    match Select(e, choices, item)
    case None => None
    case Some(s) =>
      match e.req.cat.anchor(s.source, item.root.destination)
      case None => None
      case Some(offset) => Some(Placed(item.root.id, Binding(item.root), s.source, offset))
  }

  lemma ResolvedFacts(e: Expansion, choices: map<string, Choice>, item: Pending)
    requires Resolve(e, choices, item).Some? && LoadsGrids(e.req.cat)
    ensures item.depth < MAX_DEPTH && Binding(item.root) !in item.ancestry
    ensures OnePerPoint(Resolve(e, choices, item).value.source)
  {
    hide OnePerPoint, PinHolds;
  }

  // ---- the order of the expansion -------------------------------------------------------------------

  /** The request, the reservations and the explicit choices an expansion starts with. */
  datatype Expansion = Expansion(req: Request, reserved: map<Point, string>, choices: map<string, Choice>)

  function Waiting(roots: seq<Root>, ancestry: seq<string>, depth: nat): seq<Pending> {
    seq(|roots|, i requires 0 <= i < |roots| => Pending(roots[i], ancestry, depth))
  }

  /** The roots of the base come first. */
  function Seeds(e: Expansion): seq<Pending> { Waiting(e.req.cat.roots(e.req.base, Point(0, 0, 0), ""), [], 0) }

  /** The roots a placed module contains. */
  function Children(e: Expansion, item: Pending, x: Placed): seq<Pending> {
    Waiting(e.req.cat.roots(x.source, x.offset, x.id), item.ancestry + [Binding(item.root)], item.depth + 1)
  }

  /** As many of them as the root budget leaves room for. */
  function Admitted(kids: seq<Pending>, have: nat): seq<Pending> {
    kids[..if have >= ROOT_BUDGET then 0 else Min(|kids|, ROOT_BUDGET - have)]
  }

  /** The choices after the items were visited. */
  ghost function ChoicesAfter(e: Expansion, items: seq<Pending>): map<string, Choice> {
    if items == [] then e.choices
    else
      var before, item := ChoicesAfter(e, items[..|items| - 1]), items[|items| - 1];
      Refreshed(before, item.root, Select(e, before, item))
  }

  /** What the last of the items places. */
  ghost function LastPlaced(e: Expansion, items: seq<Pending>): Option<Placed>
    requires items != []
  {
    Resolve(e, ChoicesAfter(e, items[..|items| - 1]), items[|items| - 1])
  }

  /** The placements of the items that resolve, in order; the others place nothing. */
  ghost function PlacementsOf(e: Expansion, items: seq<Pending>): seq<Placed> {
    if items == [] then []
    else PlacementsOf(e, items[..|items| - 1]) + match LastPlaced(e, items) case None => [] case Some(x) => [x]
  }

  /** Every root found while the items were visited, in breadth-first order. */
  ghost function Discovered(e: Expansion, items: seq<Pending>): seq<Pending> {
    if items == [] then Seeds(e)
    else
      var found := Discovered(e, items[..|items| - 1]);
      match LastPlaced(e, items)
      case None => found
      case Some(x) => found + Admitted(Children(e, items[|items| - 1], x), |found|)
  }

  /** Each visited item is the first discovered one that was not visited before. */
  ghost predicate InOrder(e: Expansion, items: seq<Pending>) {
    items == [] ||
    (var init := items[..|items| - 1];
     InOrder(e, init) && |init| < |Discovered(e, init)| && items[|items| - 1] == Discovered(e, init)[|init|])
  }

  ghost function RootsOf(items: seq<Pending>): seq<Root> {
    seq(|items|, i requires 0 <= i < |items| => items[i].root)
  }

  lemma ItemNext(e: Expansion, items: seq<Pending>, item: Pending)
    ensures var more := items + [item];
      var before := ChoicesAfter(e, items);
      var x, found := Resolve(e, before, item), Discovered(e, items);
      && LastPlaced(e, more) == x
      && ChoicesAfter(e, more) == Refreshed(before, item.root, Select(e, before, item))
      && PlacementsOf(e, more) == PlacementsOf(e, items) + (if x.Some? then [x.value] else [])
      && Discovered(e, more) == found + (if x.Some? then Admitted(Children(e, item, x.value), |found|) else [])
      && (InOrder(e, items) && |items| < |found| && item == found[|items|] ==> InOrder(e, more))
  {
    hide Resolve, Select, Children, Admitted;
    var more := items + [item];
    assert more[..|items|] == items && more[|items|] == item;
  }

  /** Discovering more never changes what was found. */
  lemma {:induction false} FoundStays(e: Expansion, items: seq<Pending>)
    requires InOrder(e, items)
    ensures |items| <= |Discovered(e, items)| && Discovered(e, items)[..|items|] == items
  {
    hide Admitted, Children, LastPlaced;
    if items != [] {
      var init := items[..|items| - 1];
      FoundStays(e, init);
      var had, found := Discovered(e, init), Discovered(e, items);
      assert had <= found;
      assert items == init + [items[|items| - 1]];
      assert found[..|init|] == had[..|init|];
    }
  }

  // ---- ancestry -------------------------------------------------------------------------------------

  /** The item is a root of the base, or a root of the module an earlier item placed, whose
      ancestry it extends. */
  ghost predicate HasParent(e: Expansion, items: seq<Pending>, item: Pending) {
    || (item.ancestry == [] && item.root in e.req.cat.roots(e.req.base, Point(0, 0, 0), ""))
    || (exists n :: 0 < n <= |items| && IsChild(e, items[..n], item))
  }

  ghost predicate IsChild(e: Expansion, line: seq<Pending>, item: Pending)
    requires line != []
  {
    var parent := line[|line| - 1];
    && LastPlaced(e, line).Some?
    && item.ancestry == parent.ancestry + [Binding(parent.root)]
    && var x := LastPlaced(e, line).value; item.root in e.req.cat.roots(x.source, x.offset, x.id)
  }

  ghost predicate Traceable(e: Expansion, items: seq<Pending>, item: Pending) {
    HasParent(e, items, item) && item.depth == |item.ancestry| <= MAX_DEPTH && Distinct(item.ancestry)
  }

  lemma {:induction false} FoundTraceable(e: Expansion, items: seq<Pending>)
    requires InOrder(e, items) && LoadsGrids(e.req.cat)
    ensures forall q :: q in Discovered(e, items) ==> Traceable(e, items, q)
  {
    hide LoadsGrids, Resolve, Select;
    if items == [] {
      SeedsTraceable(e);
    } else {
      var init, item := items[..|items| - 1], items[|items| - 1];
      FoundTraceable(e, init);
      assert item in Discovered(e, init);
      forall q | q in Discovered(e, items) ensures Traceable(e, items, q) {
        if q in Discovered(e, init) {
          StillTraceable(e, items, q);
        } else {
          var x := LastPlaced(e, items).value;
          assert q in Admitted(Children(e, item, x), |Discovered(e, init)|);
          ResolvedFacts(e, ChoicesAfter(e, init), item);
          ChildTraceable(e, items, x, q);
        }
      }
    }
  }

  lemma SeedsTraceable(e: Expansion)
    ensures forall q :: q in Seeds(e) ==> Traceable(e, [], q)
  {
  }

  lemma StillTraceable(e: Expansion, items: seq<Pending>, q: Pending)
    requires items != [] && Traceable(e, items[..|items| - 1], q)
    ensures Traceable(e, items, q)
  {
    hide IsChild;
    var init := items[..|items| - 1];
    if n :| 0 < n <= |init| && IsChild(e, init[..n], q) {
      assert items[..n] == init[..n];
    }
  }

  lemma ChildTraceable(e: Expansion, items: seq<Pending>, x: Placed, q: Pending)
    requires items != [] && LastPlaced(e, items) == Some(x) && q in Children(e, items[|items| - 1], x)
    requires var item := items[|items| - 1];
      item.depth == |item.ancestry| < MAX_DEPTH && Distinct(item.ancestry) && Binding(item.root) !in item.ancestry
    ensures Traceable(e, items, q)
  {
    hide LastPlaced;
    var item := items[|items| - 1];
    DistinctSnoc(item.ancestry, Binding(item.root));
    assert items[..|items|] == items;
    assert IsChild(e, items[..|items|], q);
  }

  /** Every placed module: its root is a root of the base or of a module placed earlier, and the
      bindings from the base down to it are at most 32 and none repeats. */
  lemma AncestryIsBounded(e: Expansion, items: seq<Pending>, v: nat)
    requires InOrder(e, items) && LoadsGrids(e.req.cat) && v < |items|
    requires LastPlaced(e, items[..v + 1]).Some?
    ensures HasParent(e, items[..v], items[v])
    ensures var line := items[v].ancestry + [Binding(items[v].root)]; Distinct(line) && |line| <= MAX_DEPTH
    ensures LastPlaced(e, items[..v + 1]).value.binding == Binding(items[v].root)
  {
    hide LoadsGrids, HasParent, Select;
    OrderPrefix(e, items, v + 1);
    var init := items[..v + 1][..v];
    assert init == items[..v];
    FoundTraceable(e, init);
    assert items[v] in Discovered(e, init);
    ResolvedFacts(e, ChoicesAfter(e, init), items[v]);
    DistinctSnoc(items[v].ancestry, Binding(items[v].root));
  }

  lemma {:induction false} OrderPrefix(e: Expansion, items: seq<Pending>, n: nat)
    requires InOrder(e, items) && n <= |items|
    ensures InOrder(e, items[..n])
  {
    if n < |items| {
      assert items[..|items| - 1][..n] == items[..n];
      OrderPrefix(e, items[..|items| - 1], n);
    } else {
      assert items[..n] == items;
    }
  }

  // ---- the content ----------------------------------------------------------------------------------

  lemma PlacedMore(ins: Inputs, x: Placed, reserved: map<Point, string>, b: Board, ts: Tags)
    requires BoardOk(ins, reserved, b, ts)
    ensures BoardOk(ins.(placements := ins.placements + [x]), reserved, b, ts)
  {
    hide Untag, Matches, FromPlaced, FromBase;
    var ins' := ins.(placements := ins.placements + [x]);
    forall p ensures CellOk(ins', Holder(reserved, p), p, CellAt(b, p), RecordAt(b, reserved, p), TagsAt(ts, p)) {
      assert CellOk(ins, Holder(reserved, p), p, CellAt(b, p), RecordAt(b, reserved, p), TagsAt(ts, p));
    }
  }

  ghost function Layers(phase: Phase, xs: seq<Placed>): seq<Layer> {
    seq(|xs|, i requires 0 <= i < |xs| => Layer(phase, xs[i]))
  }

  /** What several templates contribute, in order. */
  ghost function SpentAll(g: Ground, ls: seq<Layer>): Budget {
    if ls == [] then Budget(0, 0) else Spent(g, ls[|ls| - 1], SpentAll(g, ls[..|ls| - 1]))
  }

  /** The authored content of a cell: the base unless reserved, then every template in order, as
      far as the cell budget goes. */
  ghost function Authored(g: Ground, base: Source, ls: seq<Layer>, p: Point): seq<Atom> {
    if ls == [] then BaseCell(base.cells, g.reserved, p)
    else
      var init, l := ls[..|ls| - 1], ls[|ls| - 1];
      Overlay(g, l, Reached(g, l, SpentAll(g, init).cells), p, Authored(g, base, init, p))
  }

  /** The trace of a point after base and templates. */
  ghost function TraceOf(g: Ground, base: Source, ls: seq<Layer>, p: Point): Trace {
    if ls == [] then BaseTrace(base, base.cells, g.reserved, p)
    else
      var init, l := ls[..|ls| - 1], ls[|ls| - 1];
      Leaves(g, l, Reached(g, l, SpentAll(g, init).cells), p, TraceOf(g, base, init, p))
  }

  lemma LayerSnoc(g: Ground, base: Source, ls: seq<Layer>, l: Layer)
    ensures SpentAll(g, ls + [l]) == Spent(g, l, SpentAll(g, ls))
    ensures forall p ::
      Authored(g, base, ls + [l], p) == Overlay(g, l, Reached(g, l, SpentAll(g, ls).cells), p, Authored(g, base, ls, p))
    ensures forall p ::
      TraceOf(g, base, ls + [l], p) == Leaves(g, l, Reached(g, l, SpentAll(g, ls).cells), p, TraceOf(g, base, ls, p))
  {
    hide Overlay, Leaves, Spent, Reached;
    assert (ls + [l])[..|ls|] == ls;
  }

  /** The board holds what the layers author. */
  ghost predicate Holds(g: Ground, base: Source, ls: seq<Layer>, b: Board, budget: Budget) {
    && budget == SpentAll(g, ls) && budget.cells <= CELL_BUDGET && budget.atoms <= ATOM_BUDGET
    && (forall p :: CellAt(b, p) == Authored(g, base, ls, p))
    && forall p :: TraceAt(b, g.reserved, p) == TraceOf(g, base, ls, p)
  }

  /** One more layer, or too many atoms. */
  method AddLayer(ghost ins: Inputs, g: Ground, l: Layer, ghost ls: seq<Layer>, b0: Board, ghost ts0: Tags,
                  budget0: Budget)
    returns (ok: bool, b: Board, ghost ts: Tags, budget: Budget)
    requires Registered(ins, l.phase, l.x) && OnePerPoint(l.x.source) && BoardOk(ins, g.reserved, b0, ts0)
    requires Holds(g, ins.base, ls, b0, budget0)
    ensures BoardOk(ins, g.reserved, b, ts)
    ensures ok <==> SpentAll(g, ls + [l]).atoms <= ATOM_BUDGET
    ensures ok ==> Holds(g, ins.base, ls + [l], b, budget)
  {
    hide BoardOk, Registered, OnePerPoint, Overlay, Leaves, Spent, Reached, CellAt, TraceAt, Authored, TraceOf,
         SpentAll;
    LayerSnoc(g, ins.base, ls, l);
    ok, b, ts, budget := ApplyTemplate(ins, g, l, b0, ts0, budget0);
  }

  /** More layers never take atoms back. */
  lemma {:induction false} SpentMore(g: Ground, ls: seq<Layer>, more: seq<Layer>)
    ensures SpentAll(g, ls).atoms <= SpentAll(g, ls + more).atoms
  {
    hide Reached;
    if more == [] {
      assert ls + more == ls;
    } else {
      assert (ls + more)[..|ls + more| - 1] == ls + more[..|more| - 1];
      SpentMore(g, ls, more[..|more| - 1]);
    }
  }

  /** Every discovered root, up to the root budget, has been visited. */
  ghost predicate Complete(e: Expansion, items: seq<Pending>) {
    InOrder(e, items) && |items| == Min(ROOT_BUDGET, |Discovered(e, items)|)
  }

  /** The expansion of a request is unique: the visited items are not a matter of choice. */
  lemma CompleteIsUnique(e: Expansion, items: seq<Pending>, others: seq<Pending>)
    requires Complete(e, items) && Complete(e, others)
    ensures items == others
  {
    hide InOrder, Discovered;
    if |items| <= |others| { SameBeginning(e, items, others); } else { SameBeginning(e, others, items); }
  }

  lemma SameBeginning(e: Expansion, items: seq<Pending>, others: seq<Pending>)
    requires Complete(e, items) && Complete(e, others) && |items| <= |others|
    ensures items == others
  {
    hide Discovered, InOrder;
    OneOrder(e, items, others);
    if |items| < |others| {
      OrderGoesOn(e, others, |items|);
      assert false;
    }
    assert others[..|items|] == others;
  }

  lemma OrderGoesOn(e: Expansion, items: seq<Pending>, n: nat)
    requires InOrder(e, items) && n < |items|
    ensures InOrder(e, items[..n]) && n < |Discovered(e, items[..n])| && items[n] == Discovered(e, items[..n])[n]
  {
    hide Discovered;
    OrderPrefix(e, items, n + 1);
    assert items[..n + 1][..n] == items[..n];
  }

  lemma {:induction false} OneOrder(e: Expansion, items: seq<Pending>, others: seq<Pending>)
    requires InOrder(e, items) && InOrder(e, others) && |items| <= |others|
    ensures items == others[..|items|]
  {
    hide Discovered;
    if items != [] {
      var n := |items| - 1;
      OneOrder(e, items[..n], others);
      OrderGoesOn(e, others, n);
      OrderGoesOn(e, items, n);
    }
  }

  // ---- the expansion loop ---------------------------------------------------------------------------

  /** The state of the expansion. */
  datatype Progress = Progress(board: Board, placements: seq<Placed>, roots: seq<Root>, queue: seq<Pending>,
                               choices: map<string, Choice>, budget: Budget)

  /** The lists of the loop are those of the visited items. */
  ghost predicate Tracks(e: Expansion, items: seq<Pending>, st: Progress) {
    && InOrder(e, items) && |items| <= |Discovered(e, items)| && st.queue == Discovered(e, items)[|items|..]
    && st.roots == RootsOf(items) && st.placements == PlacementsOf(e, items) && st.choices == ChoicesAfter(e, items)
  }

  ghost predicate ProgressOk(e: Expansion, items: seq<Pending>, st: Progress, ts: Tags) {
    && Tracks(e, items, st)
    && BoardOk(Inputs(e.req.base, e.req.fixed, st.placements), e.reserved, st.board, ts)
    && Holds(Ground(e.req.size, e.reserved), e.req.base, Layers(Modular, st.placements), st.board, st.budget)
  }

  /** Children of a placed module join the queue until the root budget is used up. */
  method Enqueue(queue0: seq<Pending>, children: seq<Pending>, taken: nat) returns (queue: seq<Pending>)
    ensures queue == queue0 + Admitted(children, |queue0| + taken)
  {
    queue := queue0;
    var k := 0;
    while k < |children| && |queue| + taken < ROOT_BUDGET
      invariant 0 <= k <= |children| && queue == queue0 + children[..k] && (k > 0 ==> |queue| + taken <= ROOT_BUDGET)
    {
      queue, k := queue + [children[k]], k + 1;
    }
    assert children[..k] == Admitted(children, |queue0| + taken);
  }

  lemma TracksNext(e: Expansion, items: seq<Pending>, st: Progress, x: Option<Placed>, queue: seq<Pending>,
                   board: Board, budget: Budget)
    requires Tracks(e, items, st) && st.queue != []
    requires x == Resolve(e, st.choices, st.queue[0])
    requires var kids := if x.Some? then Children(e, st.queue[0], x.value) else [];
      queue == st.queue[1..] + Admitted(kids, |items| + |st.queue|)
    ensures var item := st.queue[0];
      Tracks(e, items + [item],
             Progress(board, st.placements + (if x.Some? then [x.value] else []), st.roots + [item.root], queue,
                                         Refreshed(st.choices, item.root, Select(e, st.choices, item)), budget))
  {
    hide Resolve, Select, Children, InOrder, Discovered, PlacementsOf, ChoicesAfter;
    var item := st.queue[0];
    var found := Discovered(e, items);
    ItemNext(e, items, item);
    assert found == found[..|items|] + st.queue;
    assert item == found[|items|];
  }

  /** One round of the loop: the head of the queue is visited. It fails only by its atoms. */
  method ExpandOne(e: Expansion, ghost items: seq<Pending>, st: Progress, ghost ts: Tags)
    returns (ok: bool, st': Progress, ghost ts': Tags)
    requires RequestOk(e.req) && ProgressOk(e, items, st, ts) && st.queue != []
    ensures InOrder(e, items + [st.queue[0]])
    ensures ok <==>
      SpentAll(Ground(e.req.size, e.reserved), Layers(Modular, PlacementsOf(e, items + [st.queue[0]]))).atoms <=
      ATOM_BUDGET
    ensures ok ==> ProgressOk(e, items + [st.queue[0]], st', ts')
  {
    hide BoardOk, Resolve, Select, Children, OnePerPoint, Holds, SpentAll, Tracks, LoadsGrids, Admitted;
    var item, g := st.queue[0], Ground(e.req.size, e.reserved);
    ok, st', ts' := true, st, ts;
    var x := Resolve(e, st.choices, item);
    var choices := Refreshed(st.choices, item.root, Select(e, st.choices, item));
    VisitFacts(e, items, st, x);
    if x.None? {
      NoneAdmitted(|items| + |st.queue|);
      assert st.queue[1..] + [] == st.queue[1..] && st.placements + [] == st.placements;
      TracksNext(e, items, st, x, st.queue[1..], st.board, st.budget);
      st' := Progress(st.board, st.placements, st.roots + [item.root], st.queue[1..], choices, st.budget);
      HoldsSpent(g, e.req.base, Layers(Modular, st.placements), st.board, st.budget);
      return;
    }
    ghost var ins := Inputs(e.req.base, e.req.fixed, st.placements);
    PlacedMore(ins, x.value, e.reserved, st.board, ts);
    assert Layers(Modular, st.placements + [x.value]) == Layers(Modular, st.placements) + [Layer(Modular, x.value)];
    assert x.value in st.placements + [x.value];
    var board, budget;
    ok, board, ts', budget := AddLayer(ins.(placements := st.placements + [x.value]), g, Layer(Modular, x.value),
                                       Layers(Modular, st.placements), st.board, ts, st.budget);
    if !ok { return; }
    var queue := Enqueue(st.queue[1..], Children(e, item, x.value), |st.roots| + 1);
    TracksNext(e, items, st, x, queue, board, budget);
    st' := Progress(board, st.placements + [x.value], st.roots + [item.root], queue, choices, budget);
  }

  lemma VisitFacts(e: Expansion, items: seq<Pending>, st: Progress, x: Option<Placed>)
    requires Tracks(e, items, st) && st.queue != [] && x == Resolve(e, st.choices, st.queue[0]) && LoadsGrids(e.req.cat)
    ensures InOrder(e, items + [st.queue[0]]) && |st.roots| == |items|
    ensures PlacementsOf(e, items + [st.queue[0]]) == st.placements + if x.Some? then [x.value] else []
    ensures x.Some? ==> OnePerPoint(x.value.source)
  {
    hide Resolve, Select, Children, Discovered, PlacementsOf, ChoicesAfter, LoadsGrids, OnePerPoint;
    ItemNext(e, items, st.queue[0]);
    if x.Some? { ResolvedFacts(e, st.choices, st.queue[0]); }
  }

  lemma NoneAdmitted(have: nat)
    ensures Admitted([], have) == []
  {
  }

  lemma HoldsSpent(g: Ground, base: Source, ls: seq<Layer>, b: Board, budget: Budget)
    requires Holds(g, base, ls, b, budget)
    ensures SpentAll(g, ls).atoms <= ATOM_BUDGET
  {
  }

  /** Breadth-first expansion, bounded by the number of roots. */
  method Expand(e: Expansion, st0: Progress, ghost ts0: Tags)
    returns (ok: bool, st: Progress, ghost ts: Tags, ghost items: seq<Pending>)
    requires RequestOk(e.req) && ProgressOk(e, [], st0, ts0)
    ensures InOrder(e, items)
    ensures ok ==> ProgressOk(e, items, st, ts) && Complete(e, items)
    ensures !ok ==>
      SpentAll(Ground(e.req.size, e.reserved), Layers(Modular, PlacementsOf(e, items))).atoms > ATOM_BUDGET
  {
    hide RequestOk, BoardOk, Holds, SpentAll, InOrder, Discovered;
    st, ts, items := st0, ts0, [];
    while st.queue != [] && |st.roots| < ROOT_BUDGET
      invariant ProgressOk(e, items, st, ts) && |items| <= ROOT_BUDGET
      decreases ROOT_BUDGET - |items|
    {
      ghost var more := items + [st.queue[0]];
      ok, st, ts := ExpandOne(e, items, st, ts);
      items := more;
      if !ok { return; }
    }
    ok := true;
  }

  // ---- the composition ------------------------------------------------------------------------------

  /** The result of a completed composition. */
  datatype Projection = Projection(cells: map<Point, seq<Atom>>, records: map<Point, Record>, placements: seq<Placed>,
                                   roots: seq<Root>, choices: map<string, Choice>)

  /** Applies the fixed templates in order. */
  method LayFixed(e: Expansion, st: Progress, ghost ts0: Tags) returns (ok: bool, b: Board, ghost ts: Tags)
    requires RequestOk(e.req) && BoardOk(Inputs(e.req.base, e.req.fixed, st.placements), e.reserved, st.board, ts0)
    requires Holds(Ground(e.req.size, e.reserved), e.req.base, Layers(Modular, st.placements), st.board, st.budget)
    ensures var g, ls := Ground(e.req.size, e.reserved), Layers(Modular, st.placements) + Layers(Fixed, e.req.fixed);
      && (ok <==> SpentAll(g, ls).atoms <= ATOM_BUDGET)
      && (ok ==> BoardOk(Inputs(e.req.base, e.req.fixed, st.placements), e.reserved, b, ts))
      && (ok ==> forall p :: CellAt(b, p) == Authored(g, e.req.base, ls, p))
      && (ok ==> forall p :: TraceAt(b, e.reserved, p) == TraceOf(g, e.req.base, ls, p))
  {
    hide BoardOk, OnePerPoint, LoadsGrids, Authored, TraceOf, SpentAll, CellAt, TraceAt;
    var g, fixed := Ground(e.req.size, e.reserved), e.req.fixed;
    ghost var ins, first := Inputs(e.req.base, fixed, st.placements), Layers(Modular, st.placements);
    b, ts := st.board, ts0;
    var budget := st.budget;
    assert first + Layers(Fixed, fixed[..0]) == first;
    for k := 0 to |fixed|
      invariant BoardOk(ins, e.reserved, b, ts) && Holds(g, e.req.base, first + Layers(Fixed, fixed[..k]), b, budget)
    {
      assert fixed[k] in fixed;
      assert first + Layers(Fixed, fixed[..k + 1]) == first + Layers(Fixed, fixed[..k]) + [Layer(Fixed, fixed[k])];
      ok, b, ts, budget := AddLayer(ins, g, Layer(Fixed, fixed[k]), first + Layers(Fixed, fixed[..k]), b, ts, budget);
      if !ok {
        assert first + Layers(Fixed, fixed) == first + Layers(Fixed, fixed[..k + 1]) + Layers(Fixed, fixed[k + 1..]);
        SpentMore(g, first + Layers(Fixed, fixed[..k + 1]), Layers(Fixed, fixed[k + 1..]));
        return;
      }
    }
    assert fixed[..|fixed|] == fixed;
    ok := true;
  }

  /** Compose. `items` are the visited roots with their ancestry: exactly the discovered ones in
      breadth-first order, up to the root budget. It fails exactly when the templates contribute
      too many atoms. Otherwise the placements are those of the roots that resolve, each cell's
      atoms and provenance correspond, reserved cells hold only fixed-template atoms, and every
      cell holds exactly its authored content. */
  method ComposeAll(req: Request, choices: map<string, Choice>)
    returns (ok: bool, out: Projection, reserved: map<Point, string>, ghost ts: Tags, ghost items: seq<Pending>)
    requires RequestOk(req)
    ensures forall p :: Holder(reserved, p) == ReservedBy(req.size, req.fixed, p)
    ensures var e, g := Expansion(req, reserved, choices), Ground(req.size, reserved);
      var ls := Layers(Modular, PlacementsOf(e, items)) + Layers(Fixed, req.fixed);
      && InOrder(e, items) && (ok <==> SpentAll(g, ls).atoms <= 4_000_000)
      && (!ok ==> Complete(e, items) || SpentAll(g, Layers(Modular, PlacementsOf(e, items))).atoms > 4_000_000)
      && (ok ==> Complete(e, items) && out.roots == RootsOf(items) && out.placements == PlacementsOf(e, items))
      && (ok ==> out.choices == ChoicesAfter(e, items))
      && (ok ==> BoardOk(Inputs(req.base, req.fixed, out.placements), reserved, Board(out.cells, out.records), ts))
      && (ok ==> forall p :: CellAt(Board(out.cells, out.records), p) == Authored(g, req.base, ls, p))
      && (ok ==> forall p :: TraceAt(Board(out.cells, out.records), reserved, p) == TraceOf(g, req.base, ls, p))
  {
    hide BoardOk, OnePerPoint, LoadsGrids, Authored, TraceOf, SpentAll, BaseCell, BaseTrace, TraceAt, InOrder,
         Discovered,
         Seeds;
    out := Projection(map[], map[], [], [], choices);
    reserved := Reserve(req.size, req.fixed);
    var e := Expansion(req, reserved, choices);
    var board;
    board, ts := LayBase(req.base, reserved, Inputs(req.base, req.fixed, []));
    var st := Progress(board, [], [], Seeds(e), choices, Budget(0, 0));
    StartExpansion(e, st, ts);
    ok, st, ts, items := Expand(e, st, ts);
    if !ok {
      SpentMore(Ground(req.size, reserved), Layers(Modular, PlacementsOf(e, items)), Layers(Fixed, req.fixed));
      return;
    }
    ok, board, ts := LayFixed(e, st, ts);
    if !ok { return; }
    out := Projection(board.cells, board.records, st.placements, st.roots, st.choices);
  }

  lemma StartExpansion(e: Expansion, st: Progress, ts: Tags)
    requires BoardOk(Inputs(e.req.base, e.req.fixed, []), e.reserved, st.board, ts) && st.placements == [] &&
      st.roots == []
    requires st.budget == Budget(0, 0) && st.queue == Seeds(e) && st.choices == e.choices
    requires forall p :: CellAt(st.board, p) == BaseCell(e.req.base.cells, e.reserved, p)
    requires forall p :: TraceAt(st.board, e.reserved, p) == BaseTrace(e.req.base, e.req.base.cells, e.reserved, p)
    ensures ProgressOk(e, [], st, ts)
  {
    hide BoardOk, BaseCell, BaseTrace, TraceAt, CellAt, Seeds;
    assert Layers(Modular, []) == [];
  }

  // ---- what a reader of the provenance may rely on ---------------------------------------------

  lemma {:induction false} OriginsPair(ts: seq<Tagged>, c: Channel)
    ensures |Origins(ts, c)| == |Only(Untag(ts), c)|
    ensures forall k :: 0 <= k < |Origins(ts, c)| ==> Tagged(Only(Untag(ts), c)[k], Origins(ts, c)[k]) in ts
  {
    if ts != [] {
      var init, last := ts[..|ts| - 1], ts[|ts| - 1];
      OriginsPair(init, c);
      assert Untag(ts)[..|Untag(ts)| - 1] == Untag(init);
      assert last in ts && forall t :: t in init ==> t in ts;
    }
  }

  /** The k-th object atom of a cell was contributed by the k-th recorded contributor; the last
      turf and the last area by the recorded ones, which are there exactly when the cell has such
      an atom; and every atom of a reserved cell comes from a fixed template. */
  lemma ProvenanceInStep(ins: Inputs, reserved: map<Point, string>, b: Board, ts: Tags, p: Point)
    requires BoardOk(ins, reserved, b, ts)
    ensures var atoms, r := CellAt(b, p), RecordAt(b, reserved, p);
      && |r.objects| == |Only(atoms, Object)|
      && (forall k :: 0 <= k < |r.objects| ==> Truthful(ins, p, Tagged(Only(atoms, Object)[k], r.objects[k])))
      && (r.turf == None <==> Only(atoms, Turf) == []) && (r.area == None <==> Only(atoms, Area) == [])
      && (r.turf.Some? ==> Truthful(ins, p, Tagged(Only(atoms, Turf)[|Only(atoms, Turf)| - 1], r.turf.value)))
      && (r.area.Some? ==> Truthful(ins, p, Tagged(Only(atoms, Area)[|Only(atoms, Area)| - 1], r.area.value)))
    ensures Holder(reserved, p) != "" ==> var r := RecordAt(b, reserved, p);
      (forall k :: 0 <= k < |r.objects| ==> r.objects[k].phase == Fixed)
      && (r.turf.Some? ==> r.turf.value.phase == Fixed) && (r.area.Some? ==> r.area.value.phase == Fixed)
  {
    hide Truthful, Origins, Untag, Only;
    var tags := TagsAt(ts, p);
    assert CellOk(ins, Holder(reserved, p), p, CellAt(b, p), RecordAt(b, reserved, p), tags);
    OriginsPair(tags, Object);
    OriginsPair(tags, Turf);
    OriginsPair(tags, Area);
  }
}
