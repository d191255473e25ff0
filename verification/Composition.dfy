/** Composition of templates onto a map (internal/aphelion/mapping/compose.go): the authored atoms
    of every cell and their provenance stay in step. */
module Composition {
  import opened Basics
  import opened Paths
  import opened Runs

  datatype Atom = Atom(path: string, vars: map<string, string>, occurrence: string)

  datatype Channel = Turf | Area | Object

  function ChannelOf(a: Atom): Channel {
    if AtOrBelow(a.path, "/turf") then Turf else if AtOrBelow(a.path, "/area") then Area else Object
  }

  /** A transparent cell of a template. */
  predicate IsNoop(a: Atom) { a.path == "/turf/template_noop" || a.path == "/area/template_noop" }

  datatype Phase = Base | Modular | Fixed

  datatype Contribution = Contribution(source: string, local: Point, occurrence: string, phase: Phase)

  datatype Record = Record(covered: bool, turf: Option<Contribution>, area: Option<Contribution>,
                           objects: seq<Contribution>,
                           suppressed: seq<Contribution>, reservedBy: string)

  datatype SourceCell = SourceCell(local: Point, atoms: seq<Atom>)

  /** A parsed map: its cells in the order they are visited, and what identifies its content. */
  datatype Source = Source(path: string, cells: seq<SourceCell>, structuralHash: string, documentID: string,
                           generation: nat, revision: nat)

  /** The grid has one entry per point. */
  ghost predicate OnePerPoint(s: Source)
  {
    forall i, j :: 0 <= i < j < |s.cells| ==> s.cells[i].local != s.cells[j].local
  }

  /** A template put at an offset under an occurrence name; `binding` is the configured room it
      was chosen for, empty for a fixed template. */
  datatype Placed = Placed(id: string, binding: string, source: Source, offset: Point)

  // ---- atoms of one cell -------------------------------------------------------------------------

  function Drop(atoms: seq<Atom>, c: Channel): seq<Atom> {
    if atoms == [] then []
    else Drop(atoms[..|atoms| - 1], c) + if ChannelOf(atoms[|atoms| - 1]) == c then [] else [atoms[|atoms| - 1]]
  }

  /** One incoming atom: a turf or an area replaces the ones before, a noop does nothing. */
  function AddAtom(atoms: seq<Atom>, a: Atom): seq<Atom> {
    if IsNoop(a) then atoms else (if ChannelOf(a) == Object then atoms else Drop(atoms, ChannelOf(a))) + [a]
  }

  function Applied(atoms: seq<Atom>, incoming: seq<Atom>): seq<Atom> {
    if incoming == [] then atoms else AddAtom(Applied(atoms, incoming[..|incoming| - 1]), incoming[|incoming| - 1])
  }

  /** The atoms of one channel, in order. */
  function Only(atoms: seq<Atom>, c: Channel): seq<Atom> {
    if atoms == [] then []
    else Only(atoms[..|atoms| - 1], c) + if ChannelOf(atoms[|atoms| - 1]) == c then [atoms[|atoms| - 1]] else []
  }

  /** The atoms without the transparent ones. */
  function Solid(atoms: seq<Atom>): seq<Atom> {
    if atoms == [] then []
    else Solid(atoms[..|atoms| - 1]) + if IsNoop(atoms[|atoms| - 1]) then [] else [atoms[|atoms| - 1]]
  }

  /** What a channel holds after a template cell came in: objects stack on the old ones; the last
      solid turf or area replaces all old ones, and without one the old ones stay. */
  function Merged(before: seq<Atom>, incoming: seq<Atom>, c: Channel): seq<Atom> {
    var solid := Only(Solid(incoming), c);
    if c == Object then Only(before, c) + solid else if solid == [] then Only(before, c) else [solid[|solid| - 1]]
  }

  lemma OnlySnoc(atoms: seq<Atom>, a: Atom, c: Channel)
    ensures Only(atoms + [a], c) == Only(atoms, c) + if ChannelOf(a) == c then [a] else []
  {
    assert (atoms + [a])[..|atoms|] == atoms;
  }

  lemma {:induction false} OnlyDropped(atoms: seq<Atom>, d: Channel, c: Channel)
    ensures Only(Drop(atoms, d), c) == if c == d then [] else Only(atoms, c)
  {
    hide ChannelOf;
    if atoms != [] {
      var init, last := atoms[..|atoms| - 1], atoms[|atoms| - 1];
      OnlyDropped(init, d, c);
      OnlySnoc(Drop(init, d), last, c);
      assert Drop(init, d) + [] == Drop(init, d) && Only(init, c) + [] == Only(init, c);
    }
  }

  lemma AddedMerged(before: seq<Atom>, atoms: seq<Atom>, init: seq<Atom>, a: Atom, c: Channel)
    requires Only(atoms, c) == Merged(before, init, c)
    ensures Only(AddAtom(atoms, a), c) == Merged(before, init + [a], c)
  {
    hide Drop, Only, Solid, ChannelOf;
    SolidSnoc(init, a);
    var solid, old' := Only(Solid(init), c), Only(atoms, c);
    assert Solid(init) + [] == Solid(init) && solid + [] == solid && old' + [] == old';
    if !IsNoop(a) {
      OnlySnoc(Solid(init), a, c);
      OnlySnoc(atoms, a, c);
      OnlySnoc(Drop(atoms, ChannelOf(a)), a, c);
      OnlyDropped(atoms, ChannelOf(a), c);
    }
  }

  lemma SolidSnoc(atoms: seq<Atom>, a: Atom)
    ensures Solid(atoms + [a]) == Solid(atoms) + if IsNoop(a) then [] else [a]
  {
    assert (atoms + [a])[..|atoms|] == atoms;
  }

  /** The loop of applyCell, channel by channel. */
  lemma {:induction false} AppliedMerged(before: seq<Atom>, incoming: seq<Atom>, c: Channel)
    ensures Only(Applied(before, incoming), c) == Merged(before, incoming, c)
  {
    hide Only, AddAtom;
    if incoming == [] {
      NothingOnly(c);
    } else {
      var init, last := incoming[..|incoming| - 1], incoming[|incoming| - 1];
      AppliedMerged(before, init, c);
      AddedMerged(before, Applied(before, init), init, last, c);
      assert init + [last] == incoming;
    }
  }

  lemma NothingOnly(c: Channel)
    ensures Only([], c) == []
  {
  }

  method ApplyCell(base: seq<Atom>, incoming: seq<Atom>) returns (result: seq<Atom>)
    ensures forall c :: Only(result, c) == Merged(base, incoming, c)
    ensures result == Applied(base, incoming)
  {
    forall c ensures Only(Applied(base, incoming), c) == Merged(base, incoming, c) { AppliedMerged(base, incoming, c); }
    result := base;
    for k := 0 to |incoming|
      invariant result == Applied(base, incoming[..k])
    {
      assert incoming[..k + 1][..k] == incoming[..k];
      var a := incoming[k];
      if IsNoop(a) { continue; }
      if ChannelOf(a) != Object { result := Drop(result, ChannelOf(a)); }
      result := result + [a];
    }
    assert incoming[..|incoming|] == incoming;
  }

  /** The provenance of one incoming atom. */
  function Note(r: Record, a: Atom, o: Contribution): Record {
    if IsNoop(a) then r
    else match ChannelOf(a)
      case Turf => r.(turf := Some(o))
      case Area => r.(area := Some(o))
      case Object => r.(objects := r.objects + [o])
  }

  function Noted(r: Record, incoming: seq<Atom>, o: Contribution): Record {
    if incoming == [] then r else Note(Noted(r, incoming[..|incoming| - 1], o), incoming[|incoming| - 1], o)
  }

  method NoteAll(r: Record, incoming: seq<Atom>, o: Contribution) returns (out: Record)
    ensures out == Noted(r, incoming, o)
  {
    out := r;
    for k := 0 to |incoming|
      invariant out == Noted(r, incoming[..k], o)
    {
      assert incoming[..k + 1][..k] == incoming[..k];
      out := Note(out, incoming[k], o);
    }
    assert incoming[..|incoming|] == incoming;
  }

  // ---- the reference: atoms that carry their contributor -------------------------------------------

  datatype Tagged = Tagged(atom: Atom, origin: Contribution)

  ghost function Untag(ts: seq<Tagged>): seq<Atom>
  {
    if ts == [] then [] else Untag(ts[..|ts| - 1]) + [ts[|ts| - 1].atom]
  }

  /** The contributors of the atoms of one channel, in order. */
  ghost function Origins(ts: seq<Tagged>, c: Channel): seq<Contribution> {
    if ts == [] then []
    else Origins(ts[..|ts| - 1], c) + if ChannelOf(ts[|ts| - 1].atom) == c then [ts[|ts| - 1].origin] else []
  }

  ghost function LastOf(xs: seq<Contribution>): Option<Contribution> { if xs == [] then None else Some(xs[|xs| - 1]) }

  /** The record names, in order, the contributor of every object atom, and the contributor of
      the last turf and of the last area atom. */
  ghost predicate Matches(r: Record, ts: seq<Tagged>) {
    r.objects == Origins(ts, Object) && r.turf == LastOf(Origins(ts, Turf)) && r.area == LastOf(Origins(ts, Area))
  }

  ghost function DropTagged(ts: seq<Tagged>, c: Channel): seq<Tagged> {
    if ts == [] then []
    else DropTagged(ts[..|ts| - 1], c) + if ChannelOf(ts[|ts| - 1].atom) == c then [] else [ts[|ts| - 1]]
  }

  ghost function TagAtom(ts: seq<Tagged>, a: Atom, o: Contribution): seq<Tagged> {
    if IsNoop(a) then ts else (if ChannelOf(a) == Object then ts else DropTagged(ts, ChannelOf(a))) + [Tagged(a, o)]
  }

  ghost function TagAll(ts: seq<Tagged>, incoming: seq<Atom>, o: Contribution): seq<Tagged> {
    if incoming == [] then ts else TagAtom(TagAll(ts, incoming[..|incoming| - 1], o), incoming[|incoming| - 1], o)
  }

  lemma NoTags()
    ensures Untag([]) == [] && (forall c :: Origins([], c) == []) && forall c :: Drop([], c) == []
  {
  }

  lemma UntagSnoc(ts: seq<Tagged>, t: Tagged)
    ensures Untag(ts + [t]) == Untag(ts) + [t.atom]
    ensures forall c :: Origins(ts + [t], c) == Origins(ts, c) + if ChannelOf(t.atom) == c then [t.origin] else []
  {
    assert (ts + [t])[..|ts|] == ts;
  }

  lemma DropSnoc(atoms: seq<Atom>, a: Atom, c: Channel)
    ensures Drop(atoms + [a], c) == Drop(atoms, c) + if ChannelOf(a) == c then [] else [a]
  {
    assert (atoms + [a])[..|atoms|] == atoms;
  }

  /** Dropping a channel drops its contributors and no others. */
  lemma {:induction false} DropTaggedMeaning(ts: seq<Tagged>, c: Channel)
    ensures Untag(DropTagged(ts, c)) == Drop(Untag(ts), c)
    ensures forall d :: Origins(DropTagged(ts, c), d) == if d == c then [] else Origins(ts, d)
    ensures forall t :: t in DropTagged(ts, c) ==> t in ts
  {
    hide Untag, Origins, Drop, ChannelOf;
    NoTags();
    if ts != [] {
      var init, last := ts[..|ts| - 1], ts[|ts| - 1];
      DropTaggedMeaning(init, c);
      DropSnoc(Untag(init), last.atom, c);
      UntagSnoc(DropTagged(init, c), last);
      UntagSnoc(init, last);
      assert ts == init + [last];
      assert DropTagged(init, c) + [] == DropTagged(init, c);
    }
  }

  lemma TagAtomMeaning(ts: seq<Tagged>, a: Atom, o: Contribution, r: Record)
    requires Matches(r, ts)
    ensures Matches(Note(r, a, o), TagAtom(ts, a, o)) && Untag(TagAtom(ts, a, o)) == AddAtom(Untag(ts), a)
    ensures forall t :: t in TagAtom(ts, a, o) ==> t in ts || t == Tagged(a, o)
  {
    hide Untag, Origins, Drop, DropTagged;
    DropTaggedMeaning(ts, ChannelOf(a));
    UntagSnoc(ts, Tagged(a, o));
    UntagSnoc(DropTagged(ts, ChannelOf(a)), Tagged(a, o));
  }

  /** The code's two parallel updates agree with the tagged reference. */
  lemma {:induction false} TagAllMeaning(ts: seq<Tagged>, incoming: seq<Atom>, o: Contribution, r: Record)
    requires Matches(r, ts)
    ensures Matches(Noted(r, incoming, o), TagAll(ts, incoming, o)) &&
      Untag(TagAll(ts, incoming, o)) == Applied(Untag(ts), incoming)
    ensures forall t :: t in TagAll(ts, incoming, o) ==> t in ts || (t.origin == o && t.atom in incoming)
    ensures Noted(r, incoming, o).reservedBy == r.reservedBy
  {
    hide Untag, Matches, AddAtom, TagAtom;
    if incoming != [] {
      var init, last := incoming[..|incoming| - 1], incoming[|incoming| - 1];
      TagAllMeaning(ts, init, o, r);
      TagAtomMeaning(TagAll(ts, init, o), last, o, Noted(r, init, o));
    }
  }
}
