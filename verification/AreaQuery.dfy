/** AreaSelectionQuery: the flood fill as a resumable traversal over bitsets
    (internal/aphelion/editing/area_query.go). */
module AreaQuery {
  import opened Basics
  import opened Indexing
  import opened Bitset
  import opened Runs
  import opened SelectionModel
  import opened AreaSelection

  /** Position of a cell in the bitsets: column by column. */
  function IndexOf(q: Query, c: Cell): int { CellIndex(q.m.maxY, c.1 - 1, c.0 - 1) }

  function CellAt(q: Query, i: nat): Cell
    requires q.m.maxY > 0
  {
    (i / q.m.maxY + 1, i % q.m.maxY + 1)
  }

  function Total(q: Query): nat { q.m.maxX * q.m.maxY }

  function WordCount(q: Query): nat { (Total(q) + 63) / 64 }

  lemma IndexRoundTrip(q: Query, c: Cell)
    requires q.OnMap(c)
    ensures 0 <= IndexOf(q, c) < Total(q) && CellAt(q, IndexOf(q, c)) == c
  {
    CellIndexBounds(q.m.maxY, q.m.maxX, c.1 - 1, c.0 - 1);
    assert q.m.maxY * q.m.maxX == q.m.maxX * q.m.maxY;
  }

  lemma CellRoundTrip(q: Query, i: nat)
    requires i < Total(q)
    ensures q.m.maxY > 0 && q.OnMap(CellAt(q, i)) && IndexOf(q, CellAt(q, i)) == i
  {
    var h, w := q.m.maxY, q.m.maxX;
    assert h == 0 ==> Total(q) == 0;
    var a := i / h;
    assert i == a * h + i % h;
    if a >= w { MultipleTooBig(a, w, h); }
  }

  lemma MultipleTooBig(a: nat, w: nat, h: nat)
    requires a >= w
    ensures a * h >= w * h
  {
  }

  /** Index order is column order, then row order. */
  lemma IndexOrder(q: Query, a: Cell, b: Cell)
    requires q.OnMap(a) && q.OnMap(b)
    ensures IndexOf(q, a) < IndexOf(q, b) <==> a.0 < b.0 || (a.0 == b.0 && a.1 < b.1)
  {
    ColumnStep(q.m.maxY, a.0, b.0);
    ColumnStep(q.m.maxY, b.0, a.0);
  }

  lemma ColumnStep(h: nat, a: int, b: int)
    ensures a < b ==> (a - 1) * h + h <= (b - 1) * h
  {
    if a < b {
      var d := b - a - 1;
      assert (b - 1) * h == (a - 1) * h + h + d * h;
      assert d * h >= 0;
    }
  }

  /** The cells of a bitset. */
  ghost function CellsOf(q: Query, words: seq<nat>): set<Cell> {
    set c | c in q.AllCells() && HasBit(words, IndexOf(q, c))
  }

  lemma MarkCells(q: Query, words: seq<nat>, out: seq<nat>, c: Cell)
    requires q.OnMap(c) && forall k :: HasBit(out, k) <==> HasBit(words, k) || k == IndexOf(q, c)
    ensures CellsOf(q, out) == CellsOf(q, words) + {c}
    ensures HasBit(words, IndexOf(q, c)) <==> c in CellsOf(q, words)
  {
    forall d | d in q.AllCells() && IndexOf(q, d) == IndexOf(q, c) ensures d == c {
      IndexRoundTrip(q, d);
      IndexRoundTrip(q, c);
    }
  }

  lemma IndexWord(q: Query, c: Cell)
    requires q.OnMap(c)
    ensures 0 <= IndexOf(q, c) / 64 < WordCount(q)
  {
    IndexRoundTrip(q, c);
  }

  /** Every bit set belongs to a cell of the map. */
  ghost predicate OnlyCells(q: Query, words: seq<nat>) { forall i :: HasBit(words, i) ==> i < Total(q) }

  // ---- collecting runs ---------------------------------------------------------------------

  /** The cells collected so far, in index order, with the next index to come. */
  ghost predicate CollectedTo(q: Query, m: Mask, n: nat, members: set<Cell>) {
    && MaskOk(m)
    && (forall x, y :: InRuns(m.runs, x, y) <==> (x, y) in members)
    && (forall c :: c in members ==> q.OnMap(c) && IndexOf(q, c) < n)
    && (m.runs != [] ==> var last := m.runs[|m.runs| - 1]; (last.X1, last.Y2) in members)
  }

  /** appendPoint: the bounds grow by minimum and maximum, the run list by its last run. */
  method AppendPoint(q: Query, m: Mask, c: Cell, ghost n: nat, ghost members: set<Cell>) returns (out: Mask)
    requires CollectedTo(q, m, n, members) && q.OnMap(c) && n <= IndexOf(q, c)
    ensures CollectedTo(q, out, IndexOf(q, c) + 1, members + {c})
  {
    hide InRuns, Canonical, Tight, CountRuns;
    var r := Run(c.0, c.1, c.1);
    if m.runs != [] {
      ghost var last := m.runs[|m.runs| - 1];
      IndexOrder(q, (last.X1, last.Y2), c);
    }
    AppendedOk(m, r);
    var area := if m.count == 0 then r else m.area;
    area := Bounds(Min(area.X1, c.0), Min(area.Y1, c.1), Max(area.X2, c.0), Max(area.Y2, c.1));
    SameGrowth(m, r, area, c);
    out := Mask(area, Extend(m.runs, r), m.count + 1);
  }

  /** In index order the general minimum and maximum are the sweep's bounds. */
  lemma SameGrowth(m: Mask, r: Bounds, area: Bounds, c: Cell)
    requires MaskOk(m) && r == Run(c.0, c.1, c.1) && After(m.runs, r)
    requires var b := if m.count == 0 then r else m.area;
      area == Bounds(Min(b.X1, c.0), Min(b.Y1, c.1), Max(b.X2, c.0), Max(b.Y2, c.1))
    ensures area == Appended(m, r).area
  {
    CountPositive(m.runs);
    if m.runs != [] {
      var y :| InRuns(m.runs, m.area.X1, y);
      assert m.area.X1 <= m.area.X2;
    }
  }

  // ---- the traversal -------------------------------------------------------------------------

  /** The whole area as a set of cells. */
  ghost function AreaCells(q: Query, start: Cell, all: bool): set<Cell> {
    set c | c in q.AllCells() && InArea(q, start, all, c)
  }

  ghost function MatchingBelow(q: Query, n: nat): set<Cell> {
    set c | c in q.AllCells() && q.Matches(c) && IndexOf(q, c) < n
  }

  const EMPTY_MASK := Mask(Bounds(0, 0, 0, 0), [], 0)

  /** A well-formed bitset of map cells. */
  ghost predicate GoodWords(q: Query, words: seq<nat>) {
    |words| == WordCount(q) && Fits(words) && OnlyCells(q, words)
  }

  ghost predicate FloodState(q: Query, start: Cell, queue: seq<Cell>, next: nat, seen: seq<nat>, selected: seq<nat>,
                             last: Cell) {
    && GoodWords(q, seen) && GoodWords(q, selected) && next <= |queue|
    && Flood(q, start, CellsOf(q, seen), CellsOf(q, selected), queue[next..], last, 4)
  }

  lemma NothingCollected(q: Query)
    ensures CollectedTo(q, EMPTY_MASK, 0, MatchingBelow(q, 0))
  {
    assert MatchingBelow(q, 0) == {};
  }

  /** Collecting: the cells still set all come at or after position n. */
  ghost predicate CollectState(q: Query, start: Cell, selected: seq<nat>, scan: nat, m: Mask, n: nat) {
    && Fits(selected) && OnlyCells(q, selected)
    && CellsOf(q, selected) <= AreaCells(q, start, false)
    && (forall i :: HasBit(selected, i) ==> n <= i && scan <= i / 64)
    && CollectedTo(q, m, n, AreaCells(q, start, false) - CellsOf(q, selected))
  }

  ghost function Left(q: Query, queue: seq<Cell>, next: nat, seen: seq<nat>): nat
    requires next <= |queue|
  {
    |q.AllCells() - CellsOf(q, seen)| + |queue| - next
  }

  /** Which cells are seen after looking at a neighbour, and which join the queue. */
  ghost function SeenNext(q: Query, seen: set<Cell>, n: Cell): set<Cell> { if q.OnMap(n) then seen + {n} else seen }

  ghost function QueuedNext(q: Query, seen: set<Cell>, n: Cell): seq<Cell> {
    if q.OnMap(n) && n !in seen && q.Matches(n) then [n] else []
  }

  /** The same for the first k neighbours of p. */
  ghost function SeenAfter(q: Query, seen: set<Cell>, p: Cell, k: nat): set<Cell>
    requires k <= 4
  {
    if k == 0 then seen else SeenNext(q, SeenAfter(q, seen, p, k - 1), Neighbours(p)[k - 1])
  }

  ghost function QueuedAfter(q: Query, seen: set<Cell>, p: Cell, k: nat): seq<Cell>
    requires k <= 4
  {
    if k == 0 then []
      else QueuedAfter(q, seen, p, k - 1) + QueuedNext(q, SeenAfter(q, seen, p, k - 1), Neighbours(p)[k - 1])
  }

  /** Looks at one neighbour: marks it seen and queues it when it matches. */
  method LookAt(q: Query, ghost start: Cell, queue: seq<Cell>, next: nat, seen: seq<nat>, ghost selected: set<Cell>,
                p: Cell, k: nat)
    returns (queue': seq<Cell>, seen': seq<nat>)
    requires k < 4 && GoodWords(q, seen) && next <= |queue| && p in selected
    requires Flood(q, start, CellsOf(q, seen), selected, queue[next..], p, k)
    ensures GoodWords(q, seen') && next <= |queue'|
    ensures Flood(q, start, CellsOf(q, seen'), selected, queue'[next..], p, k + 1)
    ensures Left(q, queue', next, seen') <= Left(q, queue, next, seen)
    ensures CellsOf(q, seen') == SeenNext(q, CellsOf(q, seen), Neighbours(p)[k])
    ensures queue' == queue + QueuedNext(q, CellsOf(q, seen), Neighbours(p)[k])
  {
    hide Flood, CellsOf, IndexOf, HasBit, Fits;
    var n := Neighbours(p)[k];
    queue', seen' := queue, seen;
    FloodLook(q, start, CellsOf(q, seen), selected, queue[next..], p, k);
    if q.OnMap(n) {
      IndexRoundTrip(q, n);
      IndexWord(q, n);
      var previous;
      seen', previous := Mark(seen, IndexOf(q, n));
      MarkCells(q, seen, seen', n);
      assert CellsOf(q, seen') == CellsOf(q, seen) + {n};
      assert previous <==> n in CellsOf(q, seen);
      if !previous {
        assert n in q.AllCells() - CellsOf(q, seen);
        assert q.AllCells() - CellsOf(q, seen') == q.AllCells() - CellsOf(q, seen) - {n};
        if q.Matches(n) {
          queue' := queue + [n];
          assert queue'[next..] == queue[next..] + [n];
        }
      }
    }
  }

  /** Processes one queued cell. */
  method FloodWork(q: Query, ghost start: Cell, queue: seq<Cell>, next: nat, seen: seq<nat>, selected: seq<nat>,
                   ghost last: Cell)
    returns (queue': seq<Cell>, next': nat, seen': seq<nat>, selected': seq<nat>)
    requires FloodState(q, start, queue, next, seen, selected, last) && next < |queue|
    ensures FloodState(q, start, queue', next', seen', selected', queue[next])
    ensures Left(q, queue', next', seen') < Left(q, queue, next, seen)
    ensures CellsOf(q, selected') == CellsOf(q, selected) + {queue[next]}
    ensures CellsOf(q, seen') == SeenAfter(q, CellsOf(q, seen), queue[next], 4)
    ensures queue'[next'..] == queue[next + 1..] + QueuedAfter(q, CellsOf(q, seen), queue[next], 4)
  {
    hide Flood, CellsOf, HasBit, Fits, IndexOf;
    var p := queue[next];
    ghost var sel := CellsOf(q, selected);
    assert q.OnMap(p) by { FrontierOnMap(q, start, CellsOf(q, seen), sel, queue[next..], last); }
    FloodPop(q, start, CellsOf(q, seen), sel, queue[next..], last);
    queue', next', seen' := queue, next + 1, seen;
    assert queue[next..][1..] == queue'[next'..];
    IndexRoundTrip(q, p);
    IndexWord(q, p);
    var previous;
    selected', previous := Mark(selected, IndexOf(q, p));
    MarkCells(q, selected, selected', p);
    assert GoodWords(q, selected');
    for k := 0 to 4
      invariant GoodWords(q, seen') && next' <= |queue'|
      invariant Flood(q, start, CellsOf(q, seen'), CellsOf(q, selected'), queue'[next'..], p, k)
      invariant Left(q, queue', next', seen') < Left(q, queue, next, seen)
      invariant CellsOf(q, seen') == SeenAfter(q, CellsOf(q, seen), p, k)
      invariant queue' == queue + QueuedAfter(q, CellsOf(q, seen), p, k)
    {
      queue', seen' := LookAt(q, start, queue', next', seen', CellsOf(q, selected'), p, k);
    }
    assert queue'[next'..] == queue[next'..] + QueuedAfter(q, CellsOf(q, seen), p, 4);
    if next' >= 4096 {
      queue', next' := queue'[next'..], 0;
      assert queue'[0..] == queue';
    }
  }

  lemma FrontierOnMap(q: Query, start: Cell, seen: set<Cell>, selected: set<Cell>, frontier: seq<Cell>, p: Cell)
    requires Flood(q, start, seen, selected, frontier, p, 4) && frontier != []
    ensures q.OnMap(frontier[0])
  {
    hide Connected;
    assert frontier[0] in frontier;
  }

  /** Moves one selected cell from the bitset to the result. */
  method CollectWork(q: Query, ghost start: Cell, selected: seq<nat>, scan: nat, m: Mask, ghost n: nat)
    returns (selected': seq<nat>, m': Mask, ghost n': nat)
    requires CollectState(q, start, selected, scan, m, n) && scan < |selected| && selected[scan] != 0
    ensures CollectState(q, start, selected', scan, m', n') && |selected'| == |selected|
    ensures |CellsOf(q, selected')| < |CellsOf(q, selected)|
  {
    hide CollectedTo, IndexOf, CellAt, InArea, Fits, HasBit;
    var i;
    selected', i := TakeLowest(selected, scan);
    CellRoundTrip(q, i);
    var c := CellAt(q, i);
    UnmarkCells(q, selected, selected', c);
    ghost var area := AreaCells(q, start, false);
    assert area - CellsOf(q, selected') == (area - CellsOf(q, selected)) + {c};
    m' := AppendPoint(q, m, c, n, area - CellsOf(q, selected));
    n' := i + 1;
  }

  lemma UnmarkCells(q: Query, words: seq<nat>, out: seq<nat>, c: Cell)
    requires q.OnMap(c) && HasBit(words, IndexOf(q, c))
    requires forall k :: HasBit(out, k) <==> HasBit(words, k) && k != IndexOf(q, c)
    ensures CellsOf(q, out) == CellsOf(q, words) - {c} && c in CellsOf(q, words)
    ensures |CellsOf(q, out)| < |CellsOf(q, words)|
  {
    forall d | d in q.AllCells() && IndexOf(q, d) == IndexOf(q, c) ensures d == c {
      IndexRoundTrip(q, d);
      IndexRoundTrip(q, c);
    }
  }

  lemma CollectBegin(q: Query, start: Cell, queue: seq<Cell>, next: nat, seen: seq<nat>, selected: seq<nat>, last: Cell)
    requires FloodState(q, start, queue, next, seen, selected, last) && next == |queue| && q.Matches(start)
    ensures CollectState(q, start, selected, 0, EMPTY_MASK, 0)
    ensures |CellsOf(q, selected)| <= |q.AllCells()|
  {
    assert queue[next..] == [];
    assert CellsOf(q, selected) == AreaCells(q, start, false) by {
      hide Flood, InArea, CellsOf;
      forall c ensures c in CellsOf(q, selected) <==> InArea(q, start, false, c) {
        FloodDone(q, start, CellsOf(q, seen), CellsOf(q, selected), last, c);
      }
      CellsOnMap(q, selected);
    }
    SubsetSize(CellsOf(q, selected), q.AllCells());
  }

  lemma CellsOnMap(q: Query, words: seq<nat>)
    ensures CellsOf(q, words) <= q.AllCells()
  {
  }

  lemma FloodNext(q: Query, start: Cell, queue: seq<Cell>, next: nat, seen: seq<nat>, selected: seq<nat>, last: Cell)
    requires FloodState(q, start, queue, next, seen, selected, last)
    ensures next <= |queue| && |selected| == WordCount(q)
  {
  }

  lemma NoBits(q: Query, words: seq<nat>)
    requires |words| == WordCount(q) && forall k :: 0 <= k < |words| ==> words[k] == 0
    ensures GoodWords(q, words) && CellsOf(q, words) == {}
  {
    forall i: nat ensures !Bit(0, i) { ZeroHasNoBits(i); }
    assert forall i :: !HasBit(words, i);
  }

  lemma MatchingNext(q: Query, n: nat)
    requires n < Total(q)
    ensures q.m.maxY > 0
    ensures MatchingBelow(q, n + 1) == MatchingBelow(q, n) + if q.Matches(CellAt(q, n)) then {CellAt(q, n)} else {}
  {
    hide IndexOf, CellAt;
    CellRoundTrip(q, n);
    forall c | c in q.AllCells() && IndexOf(q, c) == n ensures c == CellAt(q, n) { IndexRoundTrip(q, c); }
  }

  lemma CollectedLater(q: Query, m: Mask, n: nat, members: set<Cell>)
    requires CollectedTo(q, m, n, members)
    ensures CollectedTo(q, m, n + 1, members)
  {
    hide InRuns, MaskOk;
  }

  lemma AllBelowTotal(q: Query, start: Cell)
    ensures MatchingBelow(q, Total(q)) == AreaCells(q, start, true)
  {
    hide IndexOf;
    forall c | c in q.AllCells() ensures IndexOf(q, c) < Total(q) { IndexRoundTrip(q, c); }
  }

  lemma NothingLeft(q: Query, start: Cell, selected: seq<nat>, scan: nat, m: Mask, n: nat)
    requires CollectState(q, start, selected, scan, m, n) && scan >= |selected|
    ensures CollectState(q, start, [], scan, m, n) && CellsOf(q, []) == {}
    ensures CollectedTo(q, m, n, AreaCells(q, start, false))
  {
    hide CollectedTo, IndexOf, InArea;
    assert forall i :: !HasBit(selected, i);
    assert CellsOf(q, selected) == {} && CellsOf(q, []) == {};
    assert AreaCells(q, start, false) - CellsOf(q, selected) == AreaCells(q, start, false);
  }

  lemma SkipWord(q: Query, start: Cell, selected: seq<nat>, scan: nat, m: Mask, n: nat)
    requires CollectState(q, start, selected, scan, m, n) && scan < |selected| && selected[scan] == 0
    ensures CollectState(q, start, selected, scan + 1, m, n)
  {
    hide CollectedTo, IndexOf, InArea;
    forall i | HasBit(selected, i) ensures n <= i && scan + 1 <= i / 64 {
      if i / 64 == scan { EmptyWord(selected, scan, i); }
    }
  }

  /** The finished mask is the area. */
  lemma FinishedMeaning(q: Query, start: Cell, all: bool, m: Mask)
    requires q.Matches(start) && exists n :: CollectedTo(q, m, n, AreaCells(q, start, all))
    ensures var s := FromMask(m, q.z);
      s.Valid() && (q.z >= 1 ==> s.IsTight()) &&
      forall p: Point :: s.Has(p) <==> p.Z == q.z && InArea(q, start, all, (p.X, p.Y))
  {
    hide InRuns, MaskOk, InArea, Tight;
    var n :| CollectedTo(q, m, n, AreaCells(q, start, all));
    FromMaskMeaning(m, q.z);
    assert InArea(q, start, all, start) by { StartInArea(q, start, all); }
    assert start in AreaCells(q, start, all);
    if m.runs == [] { NoRuns(start.0, start.1); }
    assert forall c :: InArea(q, start, all, c) ==> c in q.AllCells() by { AreaOnMap(q, start, all); }
  }

  lemma StartInArea(q: Query, start: Cell, all: bool)
    requires q.Matches(start)
    ensures InArea(q, start, all, start)
  {
    ConnectedStart(q, start);
  }

  lemma AreaOnMap(q: Query, start: Cell, all: bool)
    ensures forall c :: InArea(q, start, all, c) ==> c in q.AllCells()
  {
  }

  /** The traversal begins with the start tile seen and queued. */
  method MarkStart(q: Query, cell: Cell, words: seq<nat>) returns (marked: seq<nat>)
    requires q.Matches(cell) && |words| == WordCount(q) && forall k :: 0 <= k < |words| ==> words[k] == 0
    ensures FloodState(q, cell, [cell], 0, marked, words, cell)
  {
    hide CellsOf, IndexOf, HasBit, Fits, Flood;
    NoBits(q, words);
    IndexRoundTrip(q, cell);
    IndexWord(q, cell);
    var previous;
    marked, previous := Mark(words, IndexOf(q, cell));
    MarkCells(q, words, marked, cell);
    FloodStart(q, cell);
    assert [cell][0..] == [cell];
    assert CellsOf(q, marked) == {cell};
  }

  /** A resumable traversal; Step may be called with any amount of work, any number of times. */
  class AreaSelectionQuery {
    const q: Query
    const start: Cell
    const all: bool
    var queue: seq<Cell>
    var seen: seq<nat>
    var selected: seq<nat>
    var next: nat
    var scan: nat
    var collecting: bool
    var result: Mask
    ghost var last: Cell
    ghost var position: nat

    ghost predicate Valid()
      reads this
    {
      && q.Matches(start)
      && (all ==> !collecting && next <= Total(q) && CollectedTo(q, result, next, MatchingBelow(q, next)))
      && (!all && !collecting ==>
            FloodState(q, start, queue, next, seen, selected, last) && result == EMPTY_MASK && scan == 0)
      && (!all && collecting ==> CollectState(q, start, selected, scan, result, position))
    }

    /** An upper bound on the work still to do. */
    ghost function Work(): nat
      requires Valid()
      reads this
    {
      if all then Total(q) - next
      else if !collecting then Left(q, queue, next, seen) + 1 + |q.AllCells()| + WordCount(q)
      else |CellsOf(q, selected)| + Max(0, |selected| - scan)
    }

    /** NewAreaSelectionQuery, for a start tile that has an area. */
    constructor (m: AreaMap, start: Point, all: bool)
      requires m.HasTile(start) && m.key(start) != ""
      ensures Valid() && q == Query(m, start.Z, m.key(start)) && this.start == (start.X, start.Y) && this.all == all
    {
      var query := Query(m, start.Z, m.key(start));
      var cell: Cell := (start.X, start.Y);
      q, this.start, this.all := query, cell, all;
      queue, next, scan, collecting, result := [cell], 0, 0, false, EMPTY_MASK;
      last, position := cell, 0;
      var words := seq(WordCount(query), k => 0);
      var marked := words;
      if !all { marked := MarkStart(query, cell, words); }
      seen, selected := marked, words;
      new;
      hide FloodState, CollectState, CollectedTo, MatchingBelow;
      if all { NothingCollected(q); }
    }

    /** Spends at most `limit` units of work. */
    method Step(limit: int) returns (s: Selection, done: bool)
      requires Valid()
      modifies this
      ensures Valid()
      ensures done ==> s.Valid() && s.z == q.z && forall p: Point ::
        s.Has(p) <==> p.Z == q.z && InArea(q, start, all, (p.X, p.Y))
      ensures done ==> q.z >= 1 ==> s.IsTight()
      ensures !done ==> Work() + Max(limit, 0) <= old(Work())
    {
      s := NO_SELECTION;
      var work := 0;
      while work < limit
        invariant Valid() && 0 <= work <= Max(limit, 0) && Work() + work <= old(Work())
      {
        var finished := Unit();
        if finished {
          FinishedMeaning(q, start, all, result);
          return FromMask(result, q.z), true;
        }
        work := work + 1;
      }
      done := false;
    }

    /** One unit of work. */
    method Unit() returns (finished: bool)
      requires Valid()
      modifies this
      ensures Valid()
      ensures finished ==> exists n :: CollectedTo(q, result, n, AreaCells(q, start, all))
      ensures !finished ==> Work() < old(Work())
    {
      if all {
        finished := UnitAll();
      } else if collecting {
        finished := UnitCollect();
      } else {
        finished := false;
        UnitFlood();
      }
    }

    method UnitAll() returns (finished: bool)
      requires Valid() && all
      modifies this
      ensures Valid()
      ensures finished ==> exists n :: CollectedTo(q, result, n, AreaCells(q, start, all))
      ensures !finished ==> Work() < old(Work())
    {
      hide CollectedTo, IndexOf, CellAt;
      if next >= Total(q) {
        AllBelowTotal(q, start);
        return true;
      }
      CellRoundTrip(q, next);
      var c := CellAt(q, next);
      MatchingNext(q, next);
      next := next + 1;
      if q.Matches(c) {
        result := AppendPoint(q, result, c, next - 1, MatchingBelow(q, next - 1));
      } else {
        CollectedLater(q, result, next - 1, MatchingBelow(q, next - 1));
        assert MatchingBelow(q, next) == MatchingBelow(q, next - 1);
      }
      finished := false;
    }

    method UnitFlood()
      requires Valid() && !all && !collecting
      modifies this
      ensures Valid() && Work() < old(Work())
    {
      hide FloodState, CollectState, Left;
      if next >= |queue| {
        FloodNext(q, start, queue, next, seen, selected, last);
        CollectBegin(q, start, queue, next, seen, selected, last);
        queue, collecting, position := [], true, 0;
      } else {
        ghost var p := queue[next];
        queue, next, seen, selected := FloodWork(q, start, queue, next, seen, selected, last);
        last := p;
      }
    }

    method UnitCollect() returns (finished: bool)
      requires Valid() && !all && collecting
      modifies this
      ensures Valid()
      ensures finished ==> exists n :: CollectedTo(q, result, n, AreaCells(q, start, all))
      ensures !finished ==> Work() < old(Work())
    {
      hide CollectState, CollectedTo, CellsOf;
      if scan >= |selected| {
        NothingLeft(q, start, selected, scan, result, position);
        seen, selected := [], [];
        return true;
      }
      finished := false;
      if selected[scan] == 0 {
        SkipWord(q, start, selected, scan, result, position);
        scan := scan + 1;
      } else {
        selected, result, position := CollectWork(q, start, selected, scan, result, position);
      }
    }
  }

  /** NewAreaSelectionQuery: the cases in which no traversal starts. */
  method NewAreaSelectionQuery(m: AreaMap, start: Point, all: bool) returns (ok: bool, query: AreaSelectionQuery?)
    ensures ok <==> m.HasTile(start) && m.key(start) != "" && m.maxX <= MAX_MAP_DIMENSION && m.maxY <= MAX_MAP_DIMENSION
    ensures ok <==> query != null
    ensures ok ==> fresh(query) && query.Valid() && query.q == Query(m, start.Z, m.key(start))
    ensures ok ==> query.start == (start.X, start.Y) && query.all == all
  {
    if !m.HasTile(start) || m.key(start) == "" || m.maxX > MAX_MAP_DIMENSION || m.maxY > MAX_MAP_DIMENSION {
      return false, null;
    }
    query := new AreaSelectionQuery(m, start, all);
    ok := true;
  }

  /** However the work is sliced, the traversal ends with the same mask as the simple fill. */
  method RunSliced(m: AreaMap, start: Point, all: bool, slice: int -> int) returns (ok: bool, s: Selection)
    requires forall k :: slice(k) >= 1
    ensures ok <==> m.HasTile(start) && m.key(start) != "" && m.maxX <= MAX_MAP_DIMENSION && m.maxY <= MAX_MAP_DIMENSION
    ensures ok ==> s.Valid() && forall p: Point ::
      s.Has(p) <==> p.Z == start.Z && InArea(Query(m, start.Z, m.key(start)), (start.X, start.Y), all, (p.X, p.Y))
  {
    s := NO_SELECTION;
    var query;
    ok, query := NewAreaSelectionQuery(m, start, all);
    if !ok { return; }
    var done, k := false, 0;
    while !done
      invariant query.Valid() && fresh(query)
      invariant done ==> s.Valid() && forall p: Point ::
        s.Has(p) <==> p.Z == start.Z && InArea(query.q, query.start, all, (p.X, p.Y))
      decreases if done then 0 else 1 + query.Work()
    {
      s, done := query.Step(slice(k));
      k := k + 1;
    }
  }
}
