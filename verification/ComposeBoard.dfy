/** The board a composition works on (internal/aphelion/mapping/compose.go:119-187): reservations, the
    base layer, and the cell-by-cell agreement of atoms and provenance. */
module ComposeBoard {
  import opened Basics
  import opened Runs
  import opened Composition

  // ---- reservations --------------------------------------------------------------------------------

  predicate Inside(size: Point, p: Point) { 1 <= p.X <= size.X && 1 <= p.Y <= size.Y && 1 <= p.Z <= size.Z }

  predicate HasRealTurf(atoms: seq<Atom>)
  {
    exists k :: 0 <= k < |atoms| && ChannelOf(atoms[k]) == Turf && atoms[k].path != "/turf/template_noop"
  }

  /** The template puts a real turf on the point. */
  ghost predicate Claims(size: Point, f: Placed, p: Point) {
    Inside(size, p) && SomeClaims(f, f.source.cells, p)
  }

  ghost predicate SomeClaims(f: Placed, cells: seq<SourceCell>, p: Point)
  {
    exists i :: 0 <= i < |cells| && CellClaims(f, cells[i], p)
  }

  predicate CellClaims(f: Placed, c: SourceCell, p: Point) { c.local.Plus(f.offset) == p && HasRealTurf(c.atoms) }

  /** The template that reserves a point: the last one that claims it. */
  ghost function ReservedBy(size: Point, fixed: seq<Placed>, p: Point): string {
    if fixed == [] then ""
    else if Claims(size, fixed[|fixed| - 1], p) then fixed[|fixed| - 1].id
    else ReservedBy(size, fixed[..|fixed| - 1], p)
  }

  function Holder(reserved: map<Point, string>, p: Point): string { if p in reserved then reserved[p] else "" }

  method ReserveOne(size: Point, f: Placed, reserved: map<Point, string>) returns (out: map<Point, string>)
    ensures forall p :: Holder(out, p) == if Claims(size, f, p) then f.id else Holder(reserved, p)
  {
    hide HasRealTurf;
    out := reserved;
    var cells := f.source.cells;
    for k := 0 to |cells|
      invariant forall p ::
        Holder(out, p) == if Inside(size, p) && SomeClaims(f, cells[..k], p) then f.id else Holder(reserved, p)
    {
      var destination := cells[k].local.Plus(f.offset);
      if Inside(size, destination) && HasRealTurf(cells[k].atoms) {
        assert CellClaims(f, cells[k], destination);
        out := out[destination := f.id];
      }
    }
    assert cells[..|cells|] == cells;
  }

  method Reserve(size: Point, fixed: seq<Placed>) returns (reserved: map<Point, string>)
    ensures forall p :: Holder(reserved, p) == ReservedBy(size, fixed, p)
  {
    hide Claims;
    reserved := map[];
    for k := 0 to |fixed|
      invariant forall p :: Holder(reserved, p) == ReservedBy(size, fixed[..k], p)
    {
      assert fixed[..k + 1][..k] == fixed[..k];
      reserved := ReserveOne(size, fixed[k], reserved);
    }
    assert fixed[..|fixed|] == fixed;
  }

  // ---- the board -----------------------------------------------------------------------------------

  datatype Board = Board(cells: map<Point, seq<Atom>>, records: map<Point, Record>)

  function CellAt(b: Board, p: Point): seq<Atom> { if p in b.cells then b.cells[p] else [] }

  function FreshRecord(id: string): Record { Record(false, None, None, [], [], id) }

  function RecordAt(b: Board, reserved: map<Point, string>, p: Point): Record {
    if p in b.records then b.records[p] else FreshRecord(Holder(reserved, p))
  }

  /** What a record says besides the contributors of the atoms: whether a template was laid on the
      point, and which contributions a reservation kept out. */
  datatype Trace = Trace(covered: bool, suppressed: seq<Contribution>)

  function TraceAt(b: Board, reserved: map<Point, string>, p: Point): Trace {
    Trace(RecordAt(b, reserved, p).covered, RecordAt(b, reserved, p).suppressed)
  }

  type Tags = map<Point, seq<Tagged>>

  ghost function TagsAt(ts: Tags, p: Point): seq<Tagged> { if p in ts then ts[p] else [] }

  /** What was put on the map so far. */
  datatype Inputs = Inputs(base: Source, fixed: seq<Placed>, placements: seq<Placed>)

  /** The atom stands in the template's cell that the placement brings to p. */
  ghost predicate FromPlaced(x: Placed, p: Point, t: Tagged) {
    && t.origin.source == x.source.path && t.origin.occurrence == x.id && t.origin.local.Plus(x.offset) == p
    && exists i, j ::
      0 <= i < |x.source.cells| && x.source.cells[i].local == t.origin.local && 0 <= j < |x.source.cells[i].atoms| &&
                      t.atom == x.source.cells[i].atoms[j].(occurrence := x.id)
  }

  ghost predicate FromBase(base: Source, p: Point, t: Tagged) {
    && t.origin.source == base.path && t.origin.local == p
    && exists i :: 0 <= i < |base.cells| && base.cells[i].local == p && t.atom in base.cells[i].atoms
  }

  /** The contributor recorded for an atom really contributed it. */
  ghost predicate Truthful(ins: Inputs, p: Point, t: Tagged) {
    match t.origin.phase
    case Base => FromBase(ins.base, p, t)
    case Modular => exists x :: x in ins.placements && FromPlaced(x, p, t)
    case Fixed => exists x :: x in ins.fixed && FromPlaced(x, p, t)
  }

  /** Everything known about one cell. */
  ghost predicate CellOk(ins: Inputs, id: string, p: Point, atoms: seq<Atom>, r: Record, ts: seq<Tagged>) {
    && Untag(ts) == atoms && Matches(r, ts) && r.reservedBy == id
    && forall t :: t in ts ==> Truthful(ins, p, t) && (id != "" ==> t.origin.phase == Fixed)
  }

  ghost predicate BoardOk(ins: Inputs, reserved: map<Point, string>, b: Board, ts: Tags) {
    && b.cells.Keys <= b.records.Keys
    && forall p :: CellOk(ins, Holder(reserved, p), p, CellAt(b, p), RecordAt(b, reserved, p), TagsAt(ts, p))
  }

  /** A cell changes to a good one; the others stay. */
  lemma BoardUpdated(ins: Inputs, reserved: map<Point, string>, b: Board, ts: Tags, b': Board, ts': Tags, p: Point)
    requires BoardOk(ins, reserved, b, ts)
    requires b'.records.Keys == b.records.Keys + {p} &&
      (b'.cells.Keys == b.cells.Keys || b'.cells.Keys == b.cells.Keys + {p})
    requires forall q :: q != p ==>
      CellAt(b', q) == CellAt(b, q) && RecordAt(b', reserved, q) == RecordAt(b, reserved, q) &&
        TagsAt(ts', q) == TagsAt(ts, q)
    requires CellOk(ins, Holder(reserved, p), p, CellAt(b', p), RecordAt(b', reserved, p), TagsAt(ts', p))
    ensures BoardOk(ins, reserved, b', ts')
  {
    hide CellOk;
    forall q ensures CellOk(ins, Holder(reserved, q), q, CellAt(b', q), RecordAt(b', reserved, q), TagsAt(ts', q)) {
      if q != p { assert CellOk(ins, Holder(reserved, q), q, CellAt(b, q), RecordAt(b, reserved, q), TagsAt(ts, q)); }
    }
  }

  /** A contribution to p: the two parallel updates of apply. */
  function Contribute(b: Board, reserved: map<Point, string>, p: Point, incoming: seq<Atom>, o: Contribution): Board {
    Board(b.cells[p := Applied(CellAt(b, p), incoming)],
          b.records[p := Noted(RecordAt(b, reserved, p).(covered := true), incoming, o)])
  }

  lemma ContributeOk(ins: Inputs, reserved: map<Point, string>, b: Board, ts: Tags, p: Point, incoming: seq<Atom>,
                     o: Contribution)
    requires BoardOk(ins, reserved, b, ts) && (Holder(reserved, p) != "" ==> o.phase == Fixed)
    requires forall a :: a in incoming ==> Truthful(ins, p, Tagged(a, o))
    ensures BoardOk(ins, reserved, Contribute(b, reserved, p, incoming, o), ts[p := TagAll(TagsAt(ts, p), incoming, o)])
  {
    hide Truthful, Matches, Untag, Applied, Noted, TagAll;
    assert CellOk(ins, Holder(reserved, p), p, CellAt(b, p), RecordAt(b, reserved, p), TagsAt(ts, p));
    var r := RecordAt(b, reserved, p).(covered := true);
    CoveredMatches(RecordAt(b, reserved, p), TagsAt(ts, p));
    TagAllMeaning(TagsAt(ts, p), incoming, o, r);
    forall t | t in TagAll(TagsAt(ts, p), incoming, o) ensures Truthful(ins, p, t) {
      if t !in TagsAt(ts, p) { assert t == Tagged(t.atom, o); }
    }
    BoardUpdated(ins, reserved, b, ts, Contribute(b, reserved, p, incoming, o),
                 ts[p := TagAll(TagsAt(ts, p), incoming, o)], p);
  }

  lemma CoveredMatches(r: Record, ts: seq<Tagged>)
    requires Matches(r, ts)
    ensures Matches(r.(covered := true), ts)
  {
  }

  /** A contribution that a reservation keeps out. */
  function Suppress(b: Board, reserved: map<Point, string>, p: Point, o: Contribution): Board {
    var r := RecordAt(b, reserved, p);
    b.(records := b.records[p := r.(suppressed := r.suppressed + [o])])
  }

  lemma SuppressOk(ins: Inputs, reserved: map<Point, string>, b: Board, ts: Tags, p: Point, o: Contribution)
    requires BoardOk(ins, reserved, b, ts)
    ensures BoardOk(ins, reserved, Suppress(b, reserved, p, o), ts)
  {
    hide Truthful, Untag;
    assert CellOk(ins, Holder(reserved, p), p, CellAt(b, p), RecordAt(b, reserved, p), TagsAt(ts, p));
    BoardUpdated(ins, reserved, b, ts, Suppress(b, reserved, p, o), ts, p);
  }

  /** A record is created even when the contribution then runs out of budget. */
  lemma TouchedOk(ins: Inputs, reserved: map<Point, string>, b: Board, ts: Tags, p: Point)
    requires BoardOk(ins, reserved, b, ts)
    ensures BoardOk(ins, reserved, b.(records := b.records[p := RecordAt(b, reserved, p)]), ts)
  {
    hide CellOk;
    var b' := b.(records := b.records[p := RecordAt(b, reserved, p)]);
    assert CellOk(ins, Holder(reserved, p), p, CellAt(b, p), RecordAt(b, reserved, p), TagsAt(ts, p));
    BoardUpdated(ins, reserved, b, ts, b', ts, p);
  }

  // ---- the base -------------------------------------------------------------------------------------

  /** The provenance of the base's own atoms, noops included. */
  function BaseNoted(r: Record, atoms: seq<Atom>, o: Contribution): Record {
    if atoms == [] then r
    else
      var r' := BaseNoted(r, atoms[..|atoms| - 1], o);
      match ChannelOf(atoms[|atoms| - 1])
      case Turf => r'.(turf := Some(o))
      case Area => r'.(area := Some(o))
      case Object => r'.(objects := r'.objects + [o])
  }

  method NoteBase(r: Record, atoms: seq<Atom>, o: Contribution) returns (out: Record)
    ensures out == BaseNoted(r, atoms, o)
  {
    out := r;
    for k := 0 to |atoms|
      invariant out == BaseNoted(r, atoms[..k], o)
    {
      assert atoms[..k + 1][..k] == atoms[..k];
      match ChannelOf(atoms[k])
      case Turf => out := out.(turf := Some(o));
      case Area => out := out.(area := Some(o));
      case Object => out := out.(objects := out.objects + [o]);
    }
    assert atoms[..|atoms|] == atoms;
  }

  ghost function BaseTags(atoms: seq<Atom>, o: Contribution): seq<Tagged> {
    if atoms == [] then [] else BaseTags(atoms[..|atoms| - 1], o) + [Tagged(atoms[|atoms| - 1], o)]
  }

  lemma {:induction false} BaseTagsMeaning(id: string, atoms: seq<Atom>, o: Contribution)
    ensures Untag(BaseTags(atoms, o)) == atoms && Matches(BaseNoted(FreshRecord(id), atoms, o), BaseTags(atoms, o))
    ensures BaseNoted(FreshRecord(id), atoms, o).reservedBy == id
    ensures forall t :: t in BaseTags(atoms, o) ==> t.origin == o && t.atom in atoms
  {
    hide Untag, Origins;
    if atoms == [] {
      NoTags();
    } else {
      var init := atoms[..|atoms| - 1];
      BaseTagsMeaning(id, init, o);
      UntagSnoc(BaseTags(init, o), Tagged(atoms[|atoms| - 1], o));
      assert init + [atoms[|atoms| - 1]] == atoms;
    }
  }

  /** The base cell of a point, unless a fixed template reserves it. */
  ghost function BaseCell(cells: seq<SourceCell>, reserved: map<Point, string>, p: Point): seq<Atom> {
    match LayerFrom(cells, Point(0, 0, 0), p)
    case None => []
    case Some(atoms) => if Holder(reserved, p) != "" then [] else atoms
  }

  /** The base is kept out of reserved cells. */
  ghost function BaseTrace(base: Source, cells: seq<SourceCell>, reserved: map<Point, string>, p: Point): Trace {
    Trace(false, if LayerFrom(cells, Point(0, 0, 0), p).Some? && Holder(reserved, p) != ""
                 then [Contribution(base.path, p, "", Base)] else [])
  }

  lemma {:induction false} BaseNotedTrace(r: Record, atoms: seq<Atom>, o: Contribution)
    ensures BaseNoted(r, atoms, o).covered == r.covered && BaseNoted(r, atoms, o).suppressed == r.suppressed
  {
    if atoms != [] { BaseNotedTrace(r, atoms[..|atoms| - 1], o); }
  }

  lemma {:induction false} NotedTrace(r: Record, incoming: seq<Atom>, o: Contribution)
    ensures Noted(r, incoming, o).covered == r.covered && Noted(r, incoming, o).suppressed == r.suppressed
  {
    if incoming != [] { NotedTrace(r, incoming[..|incoming| - 1], o); }
  }

  /** The atoms of the cell that the offset brings to p, if there is one. */
  ghost function LayerFrom(cells: seq<SourceCell>, offset: Point, p: Point): Option<seq<Atom>> {
    if cells == [] then None
    else if cells[|cells| - 1].local.Plus(offset) == p then Some(cells[|cells| - 1].atoms)
    else LayerFrom(cells[..|cells| - 1], offset, p)
  }

  lemma {:induction false} LayerMissing(cells: seq<SourceCell>, offset: Point, p: Point)
    requires forall i :: 0 <= i < |cells| ==> cells[i].local.Plus(offset) != p
    ensures LayerFrom(cells, offset, p) == None
  {
    if cells != [] { LayerMissing(cells[..|cells| - 1], offset, p); }
  }

  /** The next cell lands on a point no earlier cell landed on. */
  lemma LayerNext(s: Source, offset: Point, k: nat)
    requires OnePerPoint(s) && k < |s.cells|
    ensures LayerFrom(s.cells[..k], offset, s.cells[k].local.Plus(offset)) == None
    ensures forall p ::
      LayerFrom(s.cells[..k + 1], offset, p) ==
      if p == s.cells[k].local.Plus(offset) then Some(s.cells[k].atoms) else LayerFrom(s.cells[..k], offset, p)
  {
    assert s.cells[..k + 1][..k] == s.cells[..k];
    LayerMissing(s.cells[..k], offset, s.cells[k].local.Plus(offset));
  }

  lemma EmptyBoardOk(ins: Inputs, reserved: map<Point, string>)
    ensures BoardOk(ins, reserved, Board(map[], map[]), map[])
  {
    hide Origins, Untag;
    NoTags();
  }

  lemma BaseCellOk(ins: Inputs, reserved: map<Point, string>, b: Board, ts: Tags, k: nat)
    requires BoardOk(ins, reserved, b, ts) && k < |ins.base.cells| && ins.base.cells[k].local !in b.records
    requires Holder(reserved, ins.base.cells[k].local) == ""
    ensures var c := ins.base.cells[k];
      var o := Contribution(ins.base.path, c.local, "", Base);
      BoardOk(ins, reserved,
              Board(b.cells[c.local := c.atoms], b.records[c.local := BaseNoted(FreshRecord(""), c.atoms, o)]),
              ts[c.local := BaseTags(c.atoms, o)])
  {
    hide Matches, Untag;
    var c := ins.base.cells[k];
    var o := Contribution(ins.base.path, c.local, "", Base);
    BaseTagsMeaning("", c.atoms, o);
    hide BaseNoted, BaseTags;
    var b' := Board(b.cells[c.local := c.atoms], b.records[c.local := BaseNoted(FreshRecord(""), c.atoms, o)]);
    BoardUpdated(ins, reserved, b, ts, b', ts[c.local := BaseTags(c.atoms, o)], c.local);
  }

  method LayBase(base: Source, reserved: map<Point, string>, ghost ins: Inputs) returns (b: Board, ghost ts: Tags)
    requires OnePerPoint(base) && ins.base == base
    ensures BoardOk(ins, reserved, b, ts)
    ensures forall p :: CellAt(b, p) == BaseCell(base.cells, reserved, p)
    ensures forall p :: TraceAt(b, reserved, p) == BaseTrace(base, base.cells, reserved, p)
  {
    hide BoardOk, OnePerPoint, BaseNoted, BaseTags, LayerFrom, BaseCell;
    b, ts := Board(map[], map[]), map[];
    EmptyBoardOk(ins, reserved);
    NoLayer(base.cells, reserved);
    for k := 0 to |base.cells|
      invariant BoardOk(ins, reserved, b, ts)
      invariant forall p :: LayerFrom(base.cells[..k], Point(0, 0, 0), p).None? ==> p !in b.records
      invariant forall p :: CellAt(b, p) == BaseCell(base.cells[..k], reserved, p)
      invariant forall p :: TraceAt(b, reserved, p) == BaseTrace(base, base.cells[..k], reserved, p)
    {
      var c := base.cells[k];
      var o := Contribution(base.path, c.local, "", Base);
      ghost var b0 := b;
      LayerNext(base, Point(0, 0, 0), k);
      BaseCellNext(base, reserved, k);
      BaseTraceNext(base, reserved, k);
      assert c.local !in b.records;
      if Holder(reserved, c.local) != "" {
        SuppressOk(ins, reserved, b, ts, c.local, o);
        b := Suppress(b, reserved, c.local, o);
        assert forall p :: CellAt(b, p) == CellAt(b0, p);
        assert forall p :: TraceAt(b, reserved, p) == if p == c.local then Trace(false, [o]) else TraceAt(b0, reserved,
                                                                                                          p);
      } else {
        BaseCellOk(ins, reserved, b, ts, k);
        BaseNotedTrace(FreshRecord(""), c.atoms, o);
        var r := NoteBase(FreshRecord(""), c.atoms, o);
        b := Board(b.cells[c.local := c.atoms], b.records[c.local := r]);
        ts := ts[c.local := BaseTags(c.atoms, o)];
        assert forall p :: CellAt(b, p) == if p == c.local then c.atoms else CellAt(b0, p);
        assert forall p :: TraceAt(b, reserved, p) == TraceAt(b0, reserved, p);
      }
    }
    assert base.cells[..|base.cells|] == base.cells;
  }

  lemma BaseTraceNext(base: Source, reserved: map<Point, string>, k: nat)
    requires OnePerPoint(base) && k < |base.cells|
    ensures var at := base.cells[k].local;
      forall p :: BaseTrace(base, base.cells[..k + 1], reserved, p) ==
        if p == at && Holder(reserved, p) != "" then Trace(false, [Contribution(base.path, p, "", Base)])
        else BaseTrace(base, base.cells[..k], reserved, p)
  {
    hide LayerFrom, OnePerPoint;
    LayerNext(base, Point(0, 0, 0), k);
  }

  lemma BaseCellNext(base: Source, reserved: map<Point, string>, k: nat)
    requires OnePerPoint(base) && k < |base.cells|
    ensures base.cells[k].local.Plus(Point(0, 0, 0)) == base.cells[k].local
    ensures forall p ::
      BaseCell(base.cells[..k + 1], reserved, p) ==
      if p == base.cells[k].local && Holder(reserved, p) == "" then base.cells[k].atoms
        else BaseCell(base.cells[..k], reserved, p)
  {
    hide LayerFrom, OnePerPoint;
    LayerNext(base, Point(0, 0, 0), k);
  }

  lemma NoLayer(cells: seq<SourceCell>, reserved: map<Point, string>)
    ensures forall offset, p :: LayerFrom(cells[..0], offset, p) == None
    ensures forall p :: BaseCell(cells[..0], reserved, p) == []
  {
  }
}
