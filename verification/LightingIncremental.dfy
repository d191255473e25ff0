/** Update equals a fresh Compute, bit for bit, exactly when every directional cast
    fits the redrawn region (internal/aphelion/lighting/compute.go:36-59). */
module LightingIncremental {
  import opened Basics
  import opened LightingTypes
  import opened ShadowCast
  import opened LightingSum

  // ---- derived sources ----------------------------------------------------------

  /** Some dirty tile is at most one step away. */
  ghost predicate NextToDirty(dirty: Rect, x: int, y: int) {
    exists t: Tile :: dirty.Has(t.0, t.1) && Near(x, y, 1, t)
  }

  lemma SameNeighbours(l: Level, l': Level, dirty: Rect, x: int, y: int, p: (int, int) -> bool, p': (int, int) -> bool)
    requires l.W == l'.W && l.H == l'.H && !NextToDirty(dirty, x, y)
    requires forall u, v :: l.Inside(u, v) && !dirty.Has(u, v) ==> p(u, v) == p'(u, v)
    ensures SomeNeighbour(l, x, y, p) == SomeNeighbour(l', x, y, p')
  {
    forall u, v | Abs(u - x) <= 1 && Abs(v - y) <= 1 ensures !dirty.Has(u, v) {
      var t: Tile := (u, v);
      assert Near(x, y, 1, t);
    }
    if SomeNeighbour(l, x, y, p) {
      var u, v :| (u != x || v != y) && Abs(u - x) <= 1 && Abs(v - y) <= 1 && l.Inside(u, v) && p(u, v);
      assert l'.Inside(u, v) && p'(u, v);
    }
    if SomeNeighbour(l', x, y, p') {
      var u, v :| (u != x || v != y) && Abs(u - x) <= 1 && Abs(v - y) <= 1 && l'.Inside(u, v) && p'(u, v);
      assert l.Inside(u, v) && p(u, v);
    }
  }

  /** Derived sources follow neighbour edits only. */
  lemma DerivedUnchanged(l: Level, l': Level, dirty: Rect, x: int, y: int)
    requires EditWithin(l, l', dirty) && !NextToDirty(dirty, x, y)
    ensures StarAt(l, x, y) == StarAt(l', x, y) && EdgeSourceAt(l, x, y) == EdgeSourceAt(l', x, y)
  {
    if l.Inside(x, y) {
      var here: Tile := (x, y);
      assert Near(x, y, 1, here);
      SameNeighbours(l, l', dirty, x, y, NonSpaceTest(l), NonSpaceTest(l'));
      if EdgeAt(l, x, y).Some? {
        var family := EdgeAt(l, x, y).value.Family;
        SameNeighbours(l, l', dirty, x, y, OtherFamilyTest(l, family), OtherFamilyTest(l', family));
      }
    }
  }

  /** A tile map of derived sources, each allowed to cast no further than Update redraws. */
  ghost predicate DerivedPair<V>(l: Level, l': Level, opts: Options, look: Look<V>, dirty: Rect,
                              emit: (int, int) -> seq<Source>, emit': (int, int) -> seq<Source>)
  {
    && InPlace(emit) && InPlace(emit')
    && (forall x, y :: !NextToDirty(dirty, x, y) ==> emit(x, y) == emit'(x, y))
    && (forall x, y, s :: s in emit(x, y) ==> Suits(s, opts, look))
  }

  lemma SameDerivedAt<V>(l: Level, l': Level, opts: Options, look: Look<V>, dirty: Rect,
                         emit: (int, int) -> seq<Source>,
                      emit': (int, int) -> seq<Source>, i: int, j: int, x: int, y: int)
    requires EditWithin(l, l', dirty) && DerivedPair(l, l', opts, look, dirty, emit, emit')
    requires CornerRect(l).Has(i, j) && !UpdateRegion(l, opts, dirty).Has(i, j)
    ensures Contributions(l, opts, look, emit(x, y), i, j) == Contributions(l', opts, look, emit'(x, y), i, j)
  {
    if NextToDirty(dirty, x, y) {
      var t: Tile :| dirty.Has(t.0, t.1) && Near(x, y, 1, t);
      forall s | s in emit(x, y) ensures Contribution(l, opts, look, s, i, j) == [] {
        CloseContributesNothing(l, opts, look, dirty, s, t.0, t.1, i, j);
      }
      forall s | s in emit'(x, y) ensures Contribution(l', opts, look, s, i, j) == [] {
        CloseContributesNothing(l', opts, look, dirty, s, t.0, t.1, i, j);
      }
      FarEmitsNothing(l, opts, look, emit(x, y), i, j);
      FarEmitsNothing(l', opts, look, emit'(x, y), i, j);
    } else {
      SameContributions(l, l', opts, look, dirty, emit(x, y), i, j);
    }
  }

  lemma SameDerived<V>(l: Level, l': Level, opts: Options, look: Look<V>, dirty: Rect, emit: (int, int) -> seq<Source>,
                    emit': (int, int) -> seq<Source>, i: int, j: int)
    requires EditWithin(l, l', dirty) && DerivedPair(l, l', opts, look, dirty, emit, emit')
    requires CornerRect(l).Has(i, j) && !UpdateRegion(l, opts, dirty).Has(i, j)
    ensures Contributions(l, opts, look, RowMajor(emit, LevelRect(l)), i, j)
         == Contributions(l', opts, look, RowMajor(emit', LevelRect(l')), i, j)
  {
    var f, f' := ContributionMap(l, opts, look, emit, i, j), ContributionMap(l', opts, look, emit', i, j);
    calc {
      Contributions(l, opts, look, RowMajor(emit, LevelRect(l)), i, j);
      { ContributionsOfRows(l, opts, look, emit, LevelRect(l), i, j); }
      RowMajor(f, LevelRect(l));
      {
        forall x, y | LevelRect(l).Has(x, y) ensures f(x, y) == f'(x, y) {
          SameDerivedAt(l, l', opts, look, dirty, emit, emit', i, j, x, y);
        }
        RowMajorSame(f, f', LevelRect(l));
      }
      RowMajor(f', LevelRect(l'));
      { ContributionsOfRows(l', opts, look, emit', LevelRect(l'), i, j); }
      Contributions(l', opts, look, RowMajor(emit', LevelRect(l')), i, j);
    }
  }

  lemma StarFits<V>(l: Level, opts: Options, look: Look<V>, x: int, y: int, s: Source)
    requires l.Valid() && s in StarAt(l, x, y)
    ensures Suits(s, opts, look)
  {
    assert s.System == Complex;
  }

  lemma StarPair<V>(l: Level, l': Level, opts: Options, look: Look<V>, dirty: Rect)
    requires EditWithin(l, l', dirty)
    ensures DerivedPair(l, l', opts, look, dirty, StarMap(l), StarMap(l'))
  {
    var emit, emit' := StarMap(l), StarMap(l');
    forall x, y | !NextToDirty(dirty, x, y) ensures emit(x, y) == emit'(x, y) {
      DerivedUnchanged(l, l', dirty, x, y);
    }
    forall x, y, s | s in emit(x, y) ensures Suits(s, opts, look) {
      StarFits(l, opts, look, x, y, s);
    }
  }

  lemma EdgeLightOf(l: Level, x: int, y: int, s: Source) returns (e: EdgeLight)
    requires l.Valid() && s in EdgeSourceAt(l, x, y)
    ensures e in l.EdgeLights && s == e.Source.(X := x, Y := y)
  {
    hide BordersOtherFamily;
    e := EdgeAt(l, x, y).value;
  }

  lemma EdgeSourceFits<V>(l: Level, opts: Options, look: Look<V>, x: int, y: int, s: Source)
    requires l.Valid() && LevelFits(l, opts, look) && s in EdgeSourceAt(l, x, y)
    ensures Suits(s, opts, look)
  {
    var e := EdgeLightOf(l, x, y, s);
    SuitsAnywhere(e.Source, opts, look, x, y);
  }

  lemma EdgesInPlace(l: Level, l': Level, dirty: Rect)
    requires EditWithin(l, l', dirty)
    ensures l.Valid() && l'.Valid() && InPlace(EdgeMap(l)) && InPlace(EdgeMap(l'))
  {
    DerivedInPlace(l);
    DerivedInPlace(l');
  }

  lemma EdgePair<V>(l: Level, l': Level, opts: Options, look: Look<V>, dirty: Rect)
    requires EditWithin(l, l', dirty) && LevelFits(l, opts, look)
    ensures DerivedPair(l, l', opts, look, dirty, EdgeMap(l), EdgeMap(l'))
  {
    hide EditWithin, LevelFits, Suits, EdgeSourceAt;
    EdgesInPlace(l, l', dirty);
    var emit, emit' := EdgeMap(l), EdgeMap(l');
    forall x, y | !NextToDirty(dirty, x, y) ensures emit(x, y) == emit'(x, y) {
      DerivedUnchanged(l, l', dirty, x, y);
    }
    forall x, y, s | s in emit(x, y) ensures Suits(s, opts, look) {
      EdgeSourceFits(l, opts, look, x, y, s);
    }
  }

  /** A corner outside the redrawn region has the same ordered contributions before and after. */
  lemma SameAllContributions<V>(l: Level, l': Level, opts: Options, look: Look<V>, dirty: Rect, i: int, j: int)
    requires EditWithin(l, l', dirty) && LevelFits(l, opts, look)
    requires CornerRect(l).Has(i, j) && !UpdateRegion(l, opts, dirty).Has(i, j)
    ensures AllContributions(l, opts, look, i, j) == AllContributions(l', opts, look, i, j)
  {
    OnlyOutsideMatters(l, opts, look, dirty, l.Sources, i, j);
    OnlyOutsideMatters(l', opts, look, dirty, l'.Sources, i, j);
    OutsideSubset(l.Sources, dirty);
    SameContributions(l, l', opts, look, dirty, Outside(l.Sources, dirty), i, j);
    StarPair(l, l', opts, look, dirty);
    SameDerived(l, l', opts, look, dirty, StarMap(l), StarMap(l'), i, j);
    EdgePair(l, l', opts, look, dirty);
    SameDerived(l, l', opts, look, dirty, EdgeMap(l), EdgeMap(l'), i, j);
  }

  // ---- the claim ------------------------------------------------------------------

  lemma ComputedIsComplete<C(!new), V>(op: Optics<C>, l: Level, opts: Options, look: Look<V>, i: int, j: int)
    requires l.Valid() && CornerRect(l).Has(i, j) && Respects(op, look)
    ensures Computed(op, l, opts, i, j) == Sum(op, look, AllContributions(l, opts, look, i, j), i, j)
  {
    RenderedIsComplete(op, l, opts, look, CornerRect(l), i, j);
  }

  lemma {:induction false} OutsideOfNothing(ss: seq<Source>, dirty: Rect)
    requires dirty.Empty()
    ensures Outside(ss, dirty) == ss
  {
    if ss != [] { OutsideOfNothing(ss[..|ss| - 1], dirty); }
  }

  /** With an empty dirty rectangle nothing that lights any corner has changed. */
  lemma NoDirtyTile<V>(l: Level, l': Level, opts: Options, look: Look<V>, dirty: Rect, i: int, j: int)
    requires dirty.Empty() && EditWithin(l, l', dirty) && LevelFits(l, opts, look) && CornerRect(l).Has(i, j)
    ensures AllContributions(l, opts, look, i, j) == AllContributions(l', opts, look, i, j)
  {
    var nowhere := Rect(0, 0, -4 * Reach(opts) - 2, 0);
    OutsideOfNothing(l.Sources, dirty);
    OutsideOfNothing(l'.Sources, dirty);
    OutsideOfNothing(l.Sources, nowhere);
    OutsideOfNothing(l'.Sources, nowhere);
    SameAllContributions(l, l', opts, look, nowhere, i, j);
  }

  /** Update on the old result equals a fresh Compute at every corner, for every deposit that
      depends only on what is seen of an emitter, when the casts of the level fit what is seen. */
  lemma UpdateEqualsCompute<C(!new), V>(op: Optics<C>, opts: Options, look: Look<V>, l: Level, l': Level, dirty: Rect,
                                        i: int,
                                     j: int)
    requires EditWithin(l, l', dirty) && LevelFits(l, opts, look) && Respects(op, look) && CornerRect(l).Has(i, j)
    ensures Updated(op, l', opts, dirty, Computed(op, l, opts, i, j), i, j) == Computed(op, l', opts, i, j)
  {
    var region := UpdateRegion(l', opts, dirty);
    ComputedIsComplete(op, l, opts, look, i, j);
    ComputedIsComplete(op, l', opts, look, i, j);
    if !dirty.Empty() && region.Has(i, j) {
      RenderedIsComplete(op, l', opts, look, region, i, j);
    } else if !region.Has(i, j) {
      SameAllContributions(l, l', opts, look, dirty, i, j);
    } else {
      NoDirtyTile(l, l', opts, look, dirty, i, j);
    }
  }

  // ---- whole editing sessions -------------------------------------------------------

  datatype Edit = Edit(level: Level, dirty: Rect)

  ghost predicate SameSize(l: Level, l': Level) { l.W == l'.W && l.H == l'.H }

  /** Each edit either resizes the level or stays within its dirty rectangle. */
  ghost predicate EditsOk<V>(l: Level, opts: Options, look: Look<V>, edits: seq<Edit>)
    decreases |edits|
  {
    edits == [] ||
    (&& edits[0].level.Valid()
     && (SameSize(l, edits[0].level) ==> EditWithin(l, edits[0].level, edits[0].dirty) && LevelFits(l, opts, look))
     && EditsOk(edits[0].level, opts, look, edits[1..]))
  }

  /** The corner sums after one Update call. */
  ghost function AfterUpdate<C>(op: Optics<C>, opts: Options, l: Level, e: Edit, sum: (int, int) -> C): (int, int) -> C
    requires e.level.Valid()
  {
    if SameSize(l, e.level) then (i, j) => Updated(op, e.level, opts, e.dirty, sum(i, j), i, j)
    else (i, j) => Computed(op, e.level, opts, i, j)
  }

  ghost function AfterUpdates<C>(op: Optics<C>, opts: Options, l: Level, edits: seq<Edit>, sum: (int, int) -> C)
    : (int, int) -> C
    requires forall k :: 0 <= k < |edits| ==> edits[k].level.Valid()
    decreases |edits|
  {
    if edits == [] then sum
    else AfterUpdates(op, opts, edits[0].level, edits[1..], AfterUpdate(op, opts, l, edits[0], sum))
  }

  function FinalLevel(l: Level, edits: seq<Edit>): Level {
    if edits == [] then l else edits[|edits| - 1].level
  }

  /** However many edits a session makes, the incremental result is the fresh one. */
  lemma {:induction false} SessionEqualsCompute<C(!new), V>(op: Optics<C>, opts: Options, look: Look<V>, l: Level,
                                                         edits: seq<Edit>,
                                                         sum: (int, int) -> C, i: int, j: int)
    requires l.Valid() && EditsOk(l, opts, look, edits) && Respects(op, look)
    requires forall u, v :: CornerRect(l).Has(u, v) ==> sum(u, v) == Computed(op, l, opts, u, v)
    requires FinalLevel(l, edits).Valid() && CornerRect(FinalLevel(l, edits)).Has(i, j)
    ensures forall k :: 0 <= k < |edits| ==> edits[k].level.Valid()
    ensures AfterUpdates(op, opts, l, edits, sum)(i, j) == Computed(op, FinalLevel(l, edits), opts, i, j)
    decreases |edits|
  {
    if edits != [] {
      var e, next := edits[0], AfterUpdate(op, opts, l, edits[0], sum);
      forall u, v | CornerRect(e.level).Has(u, v) ensures next(u, v) == Computed(op, e.level, opts, u, v) {
        if SameSize(l, e.level) { UpdateEqualsCompute(op, opts, look, l, e.level, e.dirty, u, v); }
      }
      assert FinalLevel(e.level, edits[1..]) == FinalLevel(l, edits);
      SessionEqualsCompute(op, opts, look, e.level, edits[1..], next, i, j);
    }
  }

  // ---- the condition on casts is exact -------------------------------------------------

  /** From darkness, different sights leave different sums. */
  ghost predicate Tells<C, V>(op: Optics<C>, look: Look<V>) {
    && (forall e, i, j :: Tint(look, e, i, j).Some? ==> op.deposit(op.dark, e, i, j) != op.dark)
    && (forall e: EffSource, e': EffSource, i, j ::
          e.src.X == e'.src.X && e.src.Y == e'.src.Y && Tint(look, e, i, j) != Tint(look, e', i, j) ==>
            op.deposit(op.dark, e, i, j) != op.deposit(op.dark, e', i, j))
  }

  /** A level with one source in the middle and sight blocked at the listed tiles only. */
  ghost function Arena(m: nat, s: Source, walls: set<Tile>): Level {
    Level(2 * m + 1, 2 * m + 1, (x, y) => (x, y) in walls, None, Starlight(false, NotFinite, NotFinite, s.Color),
          [s.(X := m, Y := m)], None, [])
  }

  /** Levels lit by copies of one source and nothing else. */
  ghost predicate OnlySource(l: Level, s: Source) {
    && (forall t :: t in l.Sources ==> t.(X := 0, Y := 0) == s.(X := 0, Y := 0))
    && l.EdgeLights == []
  }

  lemma ArenaContributions<V>(m: nat, s: Source, walls: set<Tile>, opts: Options, look: Look<V>, i: int, j: int)
    ensures AllContributions(Arena(m, s, walls), opts, look, i, j) ==
      Contribution(Arena(m, s, walls), opts, look, s.(X := m, Y := m), i, j)
  {
    hide Contribution;
    var l := Arena(m, s, walls);
    RowMajorShrink(StarMap(l), LevelRect(l), Rect(0, 0, 0, 0));
    RowMajorShrink(EdgeMap(l), LevelRect(l), Rect(0, 0, 0, 0));
    assert Contributions(l, opts, look, [], i, j) == [];
    assert l.Sources[..0] == [];
  }

  /** What is seen of an emitter in an empty arena. */
  function InOpen<V>(look: Look<V>, e: EffSource, u: int, v: int): seq<Seen<V>> {
    match Shown(look, e, u, v)
    case None => []
    case Some(x) => [Seen(e.src.X, e.src.Y, x)]
  }

  /** An arena whose walls are out of view has one contribution at most. */
  lemma ArenaLit<V>(m: nat, s: Source, walls: set<Tile>, opts: Options, look: Look<V>, e: EffSource, u: int, v: int)
    requires Normalize(Arena(m, s, walls), s.(X := m, Y := m), opts) == Some(e) && 1 <= e.wr < m
    requires e.src.X == m && e.src.Y == m
    requires forall t: Tile :: t in walls ==> !Near(m, m, e.wr, t)
    ensures AllContributions(Arena(m, s, walls), opts, look, m + u, m + v) == InOpen(look, e, u, v)
  {
    hide Lit;
    var l := Arena(m, s, walls);
    ArenaContributions(m, s, walls, opts, look, m + u, m + v);
    assert OpenSquare(l, m, m, e.wr);
    OpenLit(l, e, m + u, m + v);
  }

  lemma ArenaCorner(m: nat, s: Source, walls: set<Tile>, i: int, j: int)
    ensures Arena(m, s, walls).Valid() && CornerRect(Arena(m, s, walls)) == Rect(0, 0, 2 * m + 2, 2 * m + 2)
  {
  }

  /** The sum of what is seen in an empty arena is one deposit, or darkness. */
  lemma SumInOpen<C(!new), V>(op: Optics<C>, look: Look<V>, e: EffSource, u: int, v: int)
    requires Respects(op, look)
    ensures var i, j := e.src.X + u, e.src.Y + v;
      Sum(op, look, InOpen(look, e, u, v), i, j) ==
        if Shown(look, e, u, v).Some? then op.deposit(op.dark, e, i, j) else op.dark
  {
    hide Respects, AtOrigin, InView;
    var i, j := e.src.X + u, e.src.Y + v;
    NothingSummed(op, look, i, j);
    if Shown(look, e, u, v).Some? {
      SumNext(op, look, [], e, i, j);
      assert [] + [Tint(look, e, i, j).value] == InOpen(look, e, u, v);
    }
  }

  // ---- walls ahead of the source -----------------------------------------------------------

  /** The tile q steps ahead of the middle. */
  function Ahead(m: int, dx: int, dy: int, q: int): Tile { (m + q * dx, m + q * dy) }

  /** All walls lie ahead of the source, at distance k or more. */
  ghost predicate OnRay(m: nat, dx: int, dy: int, k: int, walls: set<Tile>) {
    forall t :: t in walls ==> exists q :: k <= q && t == Ahead(m, dx, dy, q)
  }

  lemma UnitSteps(d: int, q: int)
    requires -1 <= d <= 1 && q >= 0
    ensures -q <= q * d <= q && (d == 1 ==> q * d == q) && (d == -1 ==> q * d == -q) && (d == 0 ==> q * d == 0)
  {
  }

  lemma AheadInjective(m: int, dx: int, dy: int, p: int, q: int)
    requires -1 <= dx <= 1 && -1 <= dy <= 1 && (dx != 0 || dy != 0) && p >= 0 && q >= 0
    requires Ahead(m, dx, dy, p) == Ahead(m, dx, dy, q)
    ensures p == q
  {
    UnitSteps(dx, p);
    UnitSteps(dy, p);
    UnitSteps(dx, q);
    UnitSteps(dy, q);
  }

  /** Walls further ahead than r are outside the view of radius r. */
  lemma WallsOutOfView(m: nat, dx: int, dy: int, k: int, r: int, walls: set<Tile>)
    requires -1 <= dx <= 1 && -1 <= dy <= 1 && (dx != 0 || dy != 0) && OnRay(m, dx, dy, k, walls) && 0 <= r < k
    ensures forall t: Tile :: t in walls ==> !Near(m, m, r, t)
  {
    forall t: Tile | t in walls ensures !Near(m, m, r, t) {
      var q :| k <= q && t == Ahead(m, dx, dy, q);
      UnitSteps(dx, q);
      UnitSteps(dy, q);
    }
  }

  lemma OpenAhead(m: nat, s: Source, dx: int, dy: int, k: int, p: nat, walls: set<Tile>)
    requires -1 <= dx <= 1 && -1 <= dy <= 1 && (dx != 0 || dy != 0) && p < k && p <= m && OnRay(m, dx, dy, k, walls)
    ensures !Arena(m, s, walls).Blocked(Ahead(m, dx, dy, p).0, Ahead(m, dx, dy, p).1)
  {
    UnitSteps(dx, p);
    UnitSteps(dy, p);
    var t := Ahead(m, dx, dy, p);
    if t in walls {
      var q :| k <= q && t == Ahead(m, dx, dy, q);
      AheadInjective(m, dx, dy, p, q);
    }
  }

  lemma WallBlocks(m: nat, s: Source, wall: Tile, walls: set<Tile>)
    requires wall in walls
    ensures Arena(m, s, walls).Blocked(wall.0, wall.1)
  {
  }

  lemma Succ(p: int, d: int)
    ensures (p + 1) * d == p * d + d
  {
  }

  /** The cast stops right before the first wall. */
  lemma {:induction false} WallSteps(m: nat, s: Source, dx: int, dy: int, n: nat, k: nat, p: nat, walls: set<Tile>)
    requires -1 <= dx <= 1 && -1 <= dy <= 1 && (dx != 0 || dy != 0) && p <= k <= n < m
    requires Ahead(m, dx, dy, k + 1) in walls && OnRay(m, dx, dy, k + 1, walls)
    ensures StepsFrom(Arena(m, s, walls), Ahead(m, dx, dy, p).0, Ahead(m, dx, dy, p).1, dx, dy, n - p) == k - p
    decreases k - p
  {
    hide OnRay, Arena;
    Succ(p, dx);
    Succ(p, dy);
    if p < k {
      OpenAhead(m, s, dx, dy, k + 1, p + 1, walls);
      WallSteps(m, s, dx, dy, n, k, p + 1, walls);
    } else {
      WallBlocks(m, s, Ahead(m, dx, dy, k + 1), walls);
    }
  }

  /** A wall k + 1 tiles ahead turns the source into the emitter of k steps. */
  lemma ArenaNormalize(m: nat, s: Source, opts: Options, k: int, walls: set<Tile>)
    requires Moves(s, opts) && s.X == m && s.Y == m && 0 <= k <= CastLength(s) < m
    requires Ahead(m, s.Dir.Dx(), s.Dir.Dy(), k + 1) in walls && OnRay(m, s.Dir.Dx(), s.Dir.Dy(), k + 1, walls)
    ensures Normalize(Arena(m, s, walls), s, opts) == Some(Emitter(s, opts, k))
  {
    hide Emitter, CastLength, OnRay;
    WallSteps(m, s, s.Dir.Dx(), s.Dir.Dy(), CastLength(s), k, 0, walls);
  }

  // ---- stale corners -------------------------------------------------------------------------

  /** A corner that Update leaves wrong. */
  ghost predicate Stale<C>(op: Optics<C>, opts: Options, l: Level, l': Level, dirty: Rect, i: int, j: int)
    requires l.Valid() && l'.Valid()
  {
    Updated(op, l', opts, dirty, Computed(op, l, opts, i, j), i, j) != Computed(op, l', opts, i, j)
  }

  /** Casts of a and b tiles look different from a corner that is not redrawn: the deciding tile is
      then out of both views. */
  lemma UnfitIsFar<V>(s: Source, opts: Options, look: Look<V>, a: int, b: int, u: int, v: int)
    requires Moves(s, opts) && 0 <= a < b && !Followed(s, opts, a, u, v)
    requires Shown(look, Emitter(s, opts, a), u, v) != Shown(look, Emitter(s, opts, b), u, v)
    ensures 1 <= Emitter(s, opts, a).wr <= a && 1 <= Emitter(s, opts, b).wr <= a
    ensures Abs(u) <= Reach(opts) && Abs(v) <= Reach(opts)
  {
    hide Emitter, Reach, AtOrigin;
    WorkingRangeBound(s, opts, a);
    WorkingRangeBound(s, opts, b);
    UnitSteps(s.Dir.Dx(), a + 1);
    UnitSteps(s.Dir.Dy(), a + 1);
  }

  lemma ArenaEdit(m: nat, s: Source, walls: set<Tile>, t: Tile)
    ensures EditWithin(Arena(m, s, walls), Arena(m, s, {t} + walls), Rect(t.0, t.1, t.0 + 1, t.1 + 1))
    ensures OnlySource(Arena(m, s, walls), s) && OnlySource(Arena(m, s, {t} + walls), s)
  {
  }

  lemma NotInRegion(l: Level, opts: Options, m: int, x: int, y: int, u: int, v: int)
    requires !Redrawn(opts, x, y, u, v)
    ensures !UpdateRegion(l, opts, Rect(m + x, m + y, m + x + 1, m + y + 1)).Has(m + u, m + v)
  {
  }

  /** The sum at a corner when the first wall stands k + 1 tiles ahead, out of the view. */
  lemma WalledSum<C(!new), V>(op: Optics<C>, m: nat, s: Source, opts: Options, look: Look<V>, k: int, walls: set<Tile>,
                              u: int, v: int)
    requires Respects(op, look) && Moves(s, opts) && s.X == m && s.Y == m && 0 <= k <= CastLength(s) < m
    requires Ahead(m, s.Dir.Dx(), s.Dir.Dy(), k + 1) in walls && OnRay(m, s.Dir.Dx(), s.Dir.Dy(), k + 1, walls)
    requires 1 <= Emitter(s, opts, k).wr <= k && Rect(0, 0, 2 * m + 2, 2 * m + 2).Has(m + u, m + v)
    ensures var e := Emitter(s, opts, k);
      Computed(op, Arena(m, s, walls), opts, m + u, m + v) ==
        if Shown(look, e, u, v).Some? then op.deposit(op.dark, e, m + u, m + v) else op.dark
  {
    hide Emitter, CastLength, OnRay, Shown, Computed, Near, Normalize, Respects, Arena, Accepted, AllContributions,
         InOpen,
         Sum, Ahead;
    WorkingRangeBound(s, opts, k);
    WallsOutOfView(m, s.Dir.Dx(), s.Dir.Dy(), k + 1, Emitter(s, opts, k).wr, walls);
    assert s.(X := m, Y := m) == s;
    ArenaNormalize(m, s, opts, k, walls);
    ArenaCorner(m, s, walls, m + u, m + v);
    ComputedIsComplete(op, Arena(m, s, walls), opts, look, m + u, m + v);
    ArenaLit(m, s, walls, opts, look, Emitter(s, opts, k), u, v);
    SumInOpen(op, look, Emitter(s, opts, k), u, v);
  }

  /** Two emitters that look different from a corner leave different sums there. */
  lemma TellsShown<C, V>(op: Optics<C>, look: Look<V>, e: EffSource, e': EffSource, u: int, v: int)
    requires Tells(op, look) && e.src.X == e'.src.X && e.src.Y == e'.src.Y
    requires Shown(look, e, u, v) != Shown(look, e', u, v)
    ensures var i, j := e.src.X + u, e.src.Y + v;
      (if Shown(look, e, u, v).Some? then op.deposit(op.dark, e, i, j) else op.dark) !=
      (if Shown(look, e', u, v).Some? then op.deposit(op.dark, e', i, j) else op.dark)
  {
    hide AtOrigin, InView;
    var i, j := e.src.X + u, e.src.Y + v;
    var t, t' := Tint(look, e, i, j), Tint(look, e', i, j);
  }

  /** Two walls ahead of a source, the near one raised by the edit. */
  ghost function Walled(m: nat, s: Source, k: int, far: int): Level {
    var dx, dy := s.Dir.Dx(), s.Dir.Dy();
    var end := {Ahead(m, dx, dy, far + 1)};
    Arena(m, s, if k < far then {Ahead(m, dx, dy, k + 1)} + end else end)
  }

  function AheadRect(m: nat, s: Source, k: int): Rect {
    var t := Ahead(m, s.Dir.Dx(), s.Dir.Dy(), k + 1);
    Rect(t.0, t.1, t.0 + 1, t.1 + 1)
  }

  /** Raising a wall a + 1 tiles ahead, before one b + 1 tiles ahead, leaves stale every corner that
      is not redrawn and sees the two casts differently. */
  lemma PairIsStale<C(!new), V>(op: Optics<C>, m: nat, s: Source, opts: Options, look: Look<V>, a: int, b: int, u: int,
                                v: int)
    requires Respects(op, look) && Tells(op, look) && Moves(s, opts) && s.X == m && s.Y == m
    requires 0 <= a < b <= CastLength(s) < m && Rect(0, 0, 2 * m + 2, 2 * m + 2).Has(m + u, m + v)
    requires !Followed(s, opts, a, u, v)
    requires Shown(look, Emitter(s, opts, a), u, v) != Shown(look, Emitter(s, opts, b), u, v)
    ensures var l, l' := Walled(m, s, b, b), Walled(m, s, a, b);
      && EditWithin(l, l', AheadRect(m, s, a)) && CornerRect(l).Has(m + u, m + v)
      && OnlySource(l, s) && OnlySource(l', s)
      && Computed(op, l', opts, m + u, m + v) ==
           (if Shown(look, Emitter(s, opts, a), u, v).Some?
            then op.deposit(op.dark, Emitter(s, opts, a), m + u, m + v) else op.dark)
      && Stale(op, opts, l, l', AheadRect(m, s, a), m + u, m + v)
  {
    hide Emitter, Shown, CastLength, Computed, OnlySource, UpdateRegion, EditWithin, OnRay, Respects, Tells, Arena,
         Ahead,
         Accepted;
    var dx, dy := s.Dir.Dx(), s.Dir.Dy();
    UnfitIsFar(s, opts, look, a, b, u, v);
    WorkingRangeBound(s, opts, a);
    WorkingRangeBound(s, opts, b);
    WallsOnRay(m, dx, dy, a, b);
    var near, far := Ahead(m, dx, dy, a + 1), Ahead(m, dx, dy, b + 1);
    ArenaCorner(m, s, {far}, m + u, m + v);
    WalledSum(op, m, s, opts, look, b, {far}, u, v);
    ArenaCorner(m, s, {near} + {far}, m + u, m + v);
    WalledSum(op, m, s, opts, look, a, {near} + {far}, u, v);
    AheadNotInRegion(Walled(m, s, a, b), opts, m, s, a, u, v);
    ArenaEdit(m, s, {far}, near);
    TellsShown(op, look, Emitter(s, opts, a), Emitter(s, opts, b), u, v);
  }

  lemma AheadNotInRegion(l: Level, opts: Options, m: nat, s: Source, a: int, u: int, v: int)
    requires !Followed(s, opts, a, u, v)
    ensures !UpdateRegion(l, opts, AheadRect(m, s, a)).Has(m + u, m + v)
  {
    hide UpdateRegion, Redrawn;
    NotInRegion(l, opts, m, (a + 1) * s.Dir.Dx(), (a + 1) * s.Dir.Dy(), u, v);
  }

  /** A source whose cast does not fit makes Update stale: a wall raised far ahead of it changes
      a corner that its light reaches and that is not redrawn. */
  lemma UnfitCastIsStale<C(!new), V>(op: Optics<C>, s0: Source, opts: Options, look: Look<V>)
    returns (l: Level, l': Level, dirty: Rect, i: int, j: int)
    requires Respects(op, look) && Tells(op, look) && !CastFits(s0, opts, look)
    ensures EditWithin(l, l', dirty) && CornerRect(l).Has(i, j) && OnlySource(l, s0) && OnlySource(l', s0)
    ensures Stale(op, opts, l, l', dirty, i, j)
  {
    hide Emitter, Followed, Shown, CastLength, Computed, OnlySource, EditWithin, Stale, Respects, Tells, Walled,
         AheadRect;
    LengthBound(s0, opts);
    var m: nat := CastLength(s0) + Reach(opts) + 2;
    var s := s0.(X := m, Y := m);
    LengthAnywhere(s0, m);
    if CastFits(s, opts, look) { CastFitsAnywhere(s, opts, look, s0.X, s0.Y); }
    var a, b :| 0 <= a < b <= CastLength(s) && !PairFits(s, opts, look, a, b);
    var u, v :| !Followed(s, opts, a, u, v) &&
      Shown(look, Emitter(s, opts, a), u, v) != Shown(look, Emitter(s, opts, b), u, v);
    UnfitIsFar(s, opts, look, a, b, u, v);
    l, l', dirty, i, j := Walled(m, s, b, b), Walled(m, s, a, b), AheadRect(m, s, a), m + u, m + v;
    PairIsStale(op, m, s, opts, look, a, b, u, v);
    OnlySourceAnywhere(l, s, s0);
    OnlySourceAnywhere(l', s, s0);
  }

  lemma LengthBound(s: Source, opts: Options)
    requires Accepted(s, opts)
    ensures CastLength(s) >= 0 && Reach(opts) >= 4
  {
  }

  lemma LengthAnywhere(s: Source, m: int)
    requires s.Range.Finite?
    ensures CastLength(s.(X := m, Y := m)) == CastLength(s)
  {
  }

  lemma OnlySourceAnywhere(l: Level, s: Source, s0: Source)
    requires OnlySource(l, s) && s == s0.(X := s.X, Y := s.Y)
    ensures OnlySource(l, s0)
  {
  }

  lemma WallsOnRay(m: nat, dx: int, dy: int, a: int, b: int)
    requires a < b
    ensures OnRay(m, dx, dy, b + 1, {Ahead(m, dx, dy, b + 1)})
    ensures OnRay(m, dx, dy, a + 1, {Ahead(m, dx, dy, a + 1)} + {Ahead(m, dx, dy, b + 1)})
  {
    hide Ahead;
  }

  /** For a deposit that depends on what it sees and tells it apart: Update is exact for every edit
      of every level lit by copies of `s` if and only if the cast of `s` fits what is seen. */
  lemma CastFitsIsExact<C(!new), V>(op: Optics<C>, s: Source, opts: Options, look: Look<V>)
    requires Respects(op, look) && Tells(op, look) && RimTold(s, opts, look)
    ensures CastFits(s, opts, look) <==>
      forall l, l', dirty, i, j ::
        (EditWithin(l, l', dirty) && OnlySource(l, s) && OnlySource(l', s) && CornerRect(l).Has(i, j)) ==>
        !Stale(op, opts, l, l', dirty, i, j)
  {
    hide CastFits, RimTold, Stale, Respects, Tells;
    if CastFits(s, opts, look) {
      forall l, l', dirty, i, j | EditWithin(l, l', dirty) && OnlySource(l, s) && OnlySource(l', s) &&
        CornerRect(l).Has(i, j)
        ensures !Stale(op, opts, l, l', dirty, i, j)
      {
        FitsEverywhere(s, opts, look, l);
        FitIsNotStale(op, opts, look, l, l', dirty, i, j);
      }
    } else {
      var l, l', dirty, i, j := UnfitCastIsStale(op, s, opts, look);
    }
  }

  lemma FitsEverywhere<V>(s: Source, opts: Options, look: Look<V>, l: Level)
    requires CastFits(s, opts, look) && RimTold(s, opts, look) && OnlySource(l, s)
    ensures LevelFits(l, opts, look)
  {
    hide CastFits, RimTold;
    assert Suits(s, opts, look);
    hide Suits;
    forall t | t in l.Sources ensures Suits(t, opts, look) {
      assert t == s.(X := t.X, Y := t.Y);
      SuitsAnywhere(s, opts, look, t.X, t.Y);
    }
  }

  lemma FitIsNotStale<C(!new), V>(op: Optics<C>, opts: Options, look: Look<V>, l: Level, l': Level, dirty: Rect, i: int,
                                  j: int)
    requires EditWithin(l, l', dirty) && LevelFits(l, opts, look) && Respects(op, look) && CornerRect(l).Has(i, j)
    ensures !Stale(op, opts, l, l', dirty, i, j)
  {
    hide EditWithin, LevelFits, Updated, Computed, Respects;
    UpdateEqualsCompute(op, opts, look, l, l', dirty, i, j);
  }
}
