/** What Compute and Update leave at a corner, and why the two agree
    (internal/aphelion/lighting: compute.go, ambient.go, edge.go). */
module LightingSum {
  import opened Basics
  import opened LightingTypes
  import opened ShadowCast

  /** How one emitter changes the sum at one corner. Nothing is assumed about `deposit`:
      it need be neither associative nor commutative, so equal sums are bit-identical sums. */
  datatype Optics<!C> = Optics(dark: C, deposit: (C, EffSource, int, int) -> C)

  // ---- sources in order -------------------------------------------------------

  /** Values emitted by the tiles of a rectangle, in row-major order. */
  ghost function RowMajor<T>(emit: (int, int) -> seq<T>, r: Rect): seq<T>
    decreases r.Y1 - r.Y0
  {
    if r.Y0 >= r.Y1 then [] else Row(emit, r.X0, r.X1, r.Y0) + RowMajor(emit, r.(Y0 := r.Y0 + 1))
  }

  ghost function Row<T>(emit: (int, int) -> seq<T>, x: int, x1: int, y: int): seq<T>
    decreases x1 - x
  {
    if x >= x1 then [] else emit(x, y) + Row(emit, x + 1, x1, y)
  }

  /** Some neighbour of (x, y) on the level satisfies p. */
  ghost predicate SomeNeighbour(l: Level, x: int, y: int, p: (int, int) -> bool) {
    exists nx, ny :: (nx != x || ny != y) && Abs(nx - x) <= 1 && Abs(ny - y) <= 1 && l.Inside(nx, ny) && p(nx, ny)
  }

  function NonSpaceTest(l: Level): (int, int) -> bool
    requires l.Valid()
  {
    (nx, ny) => l.Inside(nx, ny) && !SpaceAt(l, nx, ny)
  }

  function OtherFamilyTest(l: Level, family: int): (int, int) -> bool
    requires l.Valid()
  {
    (nx, ny) => l.Inside(nx, ny) && (EdgeAt(l, nx, ny).None? || EdgeAt(l, nx, ny).value.Family != family)
  }

  ghost predicate HasNonSpaceNeighbour(l: Level, x: int, y: int)
    requires l.Valid()
  {
    SomeNeighbour(l, x, y, NonSpaceTest(l))
  }

  ghost predicate BordersOtherFamily(l: Level, x: int, y: int, family: int)
    requires l.Valid()
  {
    SomeNeighbour(l, x, y, OtherFamilyTest(l, family))
  }

  function StarSource(l: Level, x: int, y: int): Source {
    Source(x, y, 0.0, 0.0, l.Starlight.Range, l.Starlight.Power, l.Starlight.Color,
           Dir(true, false, false, false), 360.0, -0.5, Complex)
  }

  /** The starlight source of a tile, if it emits. */
  ghost function StarAt(l: Level, x: int, y: int): seq<Source>
    requires l.Valid()
  {
    if l.Starlight.Enabled && l.Inside(x, y) && SpaceAt(l, x, y) && HasNonSpaceNeighbour(l, x, y)
    then [StarSource(l, x, y)] else []
  }

  /** The edge light of a tile, if it is switched on. */
  ghost function EdgeSourceAt(l: Level, x: int, y: int): seq<Source>
    requires l.Valid()
  {
    if l.Inside(x, y) && EdgeAt(l, x, y).Some? && EdgeAt(l, x, y).value.Emits
       && BordersOtherFamily(l, x, y, EdgeAt(l, x, y).value.Family)
    then [EdgeAt(l, x, y).value.Source.(X := x, Y := y)] else []
  }

  function LevelRect(l: Level): Rect { Rect(0, 0, l.W, l.H) }

  ghost function StarMap(l: Level): (int, int) -> seq<Source>
    requires l.Valid()
  {
    (x, y) => StarAt(l, x, y)
  }

  ghost function EdgeMap(l: Level): (int, int) -> seq<Source>
    requires l.Valid()
  {
    (x, y) => EdgeSourceAt(l, x, y)
  }

  ghost function StarlightSources(l: Level, scan: Rect): seq<Source>
    requires l.Valid()
  {
    RowMajor(StarMap(l), ClipRect(scan, LevelRect(l)))
  }

  ghost function EdgeSources(l: Level, scan: Rect): seq<Source>
    requires l.Valid()
  {
    RowMajor(EdgeMap(l), ClipRect(scan, LevelRect(l)))
  }

  /** Normalised sources: explicit ones in slice order, then starlight, then edge lights. */
  ghost function EffectiveSources(l: Level, opts: Options, scan: Rect): seq<EffSource>
    requires l.Valid()
  {
    Normalized(l, opts, l.Sources + StarlightSources(l, scan) + EdgeSources(l, scan))
  }

  function Normalized(l: Level, opts: Options, ss: seq<Source>): seq<EffSource> {
    if ss == [] then []
    else
      var rest := Normalized(l, opts, ss[..|ss| - 1]);
      match Normalize(l, ss[|ss| - 1], opts)
      case None => rest
      case Some(e) => rest + [e]
  }

  // ---- corner sums ------------------------------------------------------------

  /** The emitters of a list that light corner (i, j), in order. */
  ghost function LitOnly(l: Level, es: seq<EffSource>, i: int, j: int): seq<EffSource> {
    if es == [] then []
    else
      var e := es[|es| - 1];
      LitOnly(l, es[..|es| - 1], i, j) + if Lit(l, e, i, j) then [e] else []
  }

  /** The ordered fold of deposits at a corner, starting from darkness. */
  ghost function Deposits<C>(op: Optics<C>, es: seq<EffSource>, i: int, j: int): C {
    if es == [] then op.dark
    else op.deposit(Deposits(op, es[..|es| - 1], i, j), es[|es| - 1], i, j)
  }

  /** The corners render is asked to redraw for a whole level. */
  function CornerRect(l: Level): Rect { Rect(0, 0, l.W + 1, l.H + 1) }

  /** The sum render leaves at a corner of its region. */
  ghost function Rendered<C>(op: Optics<C>, l: Level, opts: Options, region: Rect, i: int, j: int): C
    requires l.Valid()
  {
    Deposits(op, LitOnly(l, EffectiveSources(l, opts, region.Expand(Reach(opts) + 1)), i, j), i, j)
  }

  /** The sum a fresh Compute leaves at corner (i, j). */
  ghost function Computed<C>(op: Optics<C>, l: Level, opts: Options, i: int, j: int): C
    requires l.Valid()
  {
    Rendered(op, l, opts, CornerRect(l), i, j)
  }

  /** The corners Update redraws for a dirty rectangle. */
  function UpdateRegion(l: Level, opts: Options, dirty: Rect): Rect {
    var r := dirty.Expand(2 * Reach(opts));
    ClipRect(r.(X1 := r.X1 + 1, Y1 := r.Y1 + 1), CornerRect(l))
  }

  /** The sum Update leaves at a corner that held `before`, the level size being unchanged. */
  ghost function Updated<C>(op: Optics<C>, l: Level, opts: Options, dirty: Rect, before: C, i: int, j: int): C
    requires l.Valid()
  {
    var region := UpdateRegion(l, opts, dirty);
    if dirty.Empty() || !region.Has(i, j) then before else Rendered(op, l, opts, region, i, j)
  }

  // ---- contributions of raw sources -------------------------------------------

  /** A deposit depends only on what `look` shows of the emitter, and changes nothing where it
      shows nothing. */
  ghost predicate Respects<C(!new), V>(op: Optics<C>, look: Look<V>) {
    && (forall c, e, i, j :: Tint(look, e, i, j) == None ==> op.deposit(c, e, i, j) == c)
    && (forall c, e, e', i, j ::
          Tint(look, e, i, j) == Tint(look, e', i, j) ==> op.deposit(c, e, i, j) == op.deposit(c, e', i, j))
  }

  /** What one raw source contributes to a corner: nothing or what is seen of its emitter. */
  ghost function Contribution<V>(l: Level, opts: Options, look: Look<V>, s: Source, i: int, j: int): seq<Seen<V>> {
    match Normalize(l, s, opts)
    case None => []
    case Some(e) => if Lit(l, e, i, j) && Tint(look, e, i, j).Some? then [Tint(look, e, i, j).value] else []
  }

  ghost function Contributions<V>(l: Level, opts: Options, look: Look<V>, ss: seq<Source>, i: int, j: int)
    : seq<Seen<V>>
  {
    if ss == [] then []
    else Contributions(l, opts, look, ss[..|ss| - 1], i, j) + Contribution(l, opts, look, ss[|ss| - 1], i, j)
  }

  /** The deposit of any emitter that is seen this way. */
  ghost function Add<C, V>(op: Optics<C>, look: Look<V>, c: C, seen: Seen<V>, i: int, j: int): C {
    if exists e :: Tint(look, e, i, j) == Some(seen) then
      var e :| Tint(look, e, i, j) == Some(seen);
      op.deposit(c, e, i, j)
    else c
  }

  /** The ordered fold of what a corner sees, starting from darkness. */
  ghost function Sum<C, V>(op: Optics<C>, look: Look<V>, vs: seq<Seen<V>>, i: int, j: int): C {
    if vs == [] then op.dark else Add(op, look, Sum(op, look, vs[..|vs| - 1], i, j), vs[|vs| - 1], i, j)
  }

  lemma SumNext<C(!new), V>(op: Optics<C>, look: Look<V>, vs: seq<Seen<V>>, e: EffSource, i: int, j: int)
    requires Respects(op, look)
    ensures var t, c := Tint(look, e, i, j), Sum(op, look, vs, i, j);
      op.deposit(c, e, i, j) == if t.None? then c else Sum(op, look, vs + [t.value], i, j)
  {
    hide Tint;
    var t := Tint(look, e, i, j);
    if t.Some? { assert (vs + [t.value])[..|vs|] == vs; }
  }

  lemma DepositNext<C>(op: Optics<C>, es: seq<EffSource>, e: EffSource, i: int, j: int)
    ensures Deposits(op, es + [e], i, j) == op.deposit(Deposits(op, es, i, j), e, i, j)
  {
    assert (es + [e])[..|es|] == es;
  }

  /** The fold of deposits is the fold of what is seen; lit corners that see nothing can be left out. */
  lemma {:induction false} DepositsOfContributions<C(!new), V>(op: Optics<C>, l: Level, opts: Options, look: Look<V>,
                                                               ss: seq<Source>, i: int, j: int)
    requires Respects(op, look)
    ensures Deposits(op, LitOnly(l, Normalized(l, opts, ss), i, j), i, j) ==
      Sum(op, look, Contributions(l, opts, look, ss, i, j), i, j)
  {
    hide Lit, Tint, Respects, Deposits, Sum, Normalize;
    if ss == [] {
      assert Deposits(op, [], i, j) == Sum(op, look, [], i, j) by { NothingSummed(op, look, i, j); }
    } else {
      var init := ss[..|ss| - 1];
      DepositsOfContributions(op, l, opts, look, init, i, j);
      var n := Normalize(l, ss[|ss| - 1], opts);
      var es, vs := Normalized(l, opts, init), Contributions(l, opts, look, init, i, j);
      assert vs + [] == vs;
      if n.None? {
        assert Normalized(l, opts, ss) == es && Contributions(l, opts, look, ss, i, j) == vs;
      } else {
        assert (es + [n.value])[..|es|] == es;
        assert LitOnly(l, es, i, j) + [] == LitOnly(l, es, i, j);
        DepositNext(op, LitOnly(l, es, i, j), n.value, i, j);
        SumNext(op, look, vs, n.value, i, j);
      }
    }
  }

  lemma NothingSummed<C, V>(op: Optics<C>, look: Look<V>, i: int, j: int)
    ensures Deposits(op, [], i, j) == op.dark == Sum(op, look, [], i, j)
  {
  }

  lemma {:induction false} ContributionsConcat<V>(l: Level, opts: Options, look: Look<V>, a: seq<Source>,
                                                  b: seq<Source>, i: int,
                                               j: int)
    ensures Contributions(l, opts, look, a + b, i, j) ==
      Contributions(l, opts, look, a, i, j) + Contributions(l, opts, look, b, i, j)
  {
    hide Contribution;
    if b == [] {
      assert a + b == a;
    } else {
      var init, last := b[..|b| - 1], b[|b| - 1];
      calc {
        Contributions(l, opts, look, a + b, i, j);
        { assert (a + b)[..|a + b| - 1] == a + init; }
        Contributions(l, opts, look, a + init, i, j) + Contribution(l, opts, look, last, i, j);
        { ContributionsConcat(l, opts, look, a, init, i, j); }
        Contributions(l, opts, look, a, i, j) + Contributions(l, opts, look, init, i, j)
        + Contribution(l, opts, look, last, i, j);
      }
    }
  }

  /** The contributions of whatever a tile emits. */
  ghost function ContributionMap<V>(l: Level, opts: Options, look: Look<V>, emit: (int, int) -> seq<Source>, i: int,
                                    j: int)
    : (int, int) -> seq<Seen<V>>
  {
    (u, v) => Contributions(l, opts, look, emit(u, v), i, j)
  }

  lemma {:induction false} ContributionsOfRow<V>(l: Level, opts: Options, look: Look<V>,
                                                 emit: (int, int) -> seq<Source>,
                                              x: int, x1: int, y: int, i: int, j: int)
    ensures Contributions(l, opts, look, Row(emit, x, x1, y), i, j)
         == Row(ContributionMap(l, opts, look, emit, i, j), x, x1, y)
    decreases x1 - x
  {
    if x < x1 {
      ContributionsOfRow(l, opts, look, emit, x + 1, x1, y, i, j);
      ContributionsConcat(l, opts, look, emit(x, y), Row(emit, x + 1, x1, y), i, j);
    }
  }

  lemma {:induction false} ContributionsOfRows<V>(l: Level, opts: Options, look: Look<V>,
                                                  emit: (int, int) -> seq<Source>,
                                               r: Rect, i: int, j: int)
    ensures Contributions(l, opts, look, RowMajor(emit, r), i, j)
         == RowMajor(ContributionMap(l, opts, look, emit, i, j), r)
    decreases r.Y1 - r.Y0
  {
    var f := ContributionMap(l, opts, look, emit, i, j);
    if r.Y0 < r.Y1 {
      var row, rest := Row(emit, r.X0, r.X1, r.Y0), RowMajor(emit, r.(Y0 := r.Y0 + 1));
      calc {
        Contributions(l, opts, look, RowMajor(emit, r), i, j);
        Contributions(l, opts, look, row + rest, i, j);
        { ContributionsConcat(l, opts, look, row, rest, i, j); }
        Contributions(l, opts, look, row, i, j) + Contributions(l, opts, look, rest, i, j);
        { ContributionsOfRow(l, opts, look, emit, r.X0, r.X1, r.Y0, i, j); }
        Row(f, r.X0, r.X1, r.Y0) + Contributions(l, opts, look, rest, i, j);
        { ContributionsOfRows(l, opts, look, emit, r.(Y0 := r.Y0 + 1), i, j); }
        Row(f, r.X0, r.X1, r.Y0) + RowMajor(f, r.(Y0 := r.Y0 + 1));
        RowMajor(f, r);
      }
    }
  }

  lemma {:induction false} RowSame<T>(f: (int, int) -> seq<T>, g: (int, int) -> seq<T>, x: int, x1: int, y: int)
    requires forall u :: x <= u < x1 ==> f(u, y) == g(u, y)
    ensures Row(f, x, x1, y) == Row(g, x, x1, y)
    decreases x1 - x
  {
    if x < x1 { RowSame(f, g, x + 1, x1, y); }
  }

  lemma {:induction false} RowMajorSame<T>(f: (int, int) -> seq<T>, g: (int, int) -> seq<T>, r: Rect)
    requires forall u, v :: r.Has(u, v) ==> f(u, v) == g(u, v)
    ensures RowMajor(f, r) == RowMajor(g, r)
    decreases r.Y1 - r.Y0
  {
    if r.Y0 < r.Y1 {
      forall u | r.X0 <= u < r.X1 ensures f(u, r.Y0) == g(u, r.Y0) { assert r.Has(u, r.Y0); }
      RowSame(f, g, r.X0, r.X1, r.Y0);
      forall u, v | r.(Y0 := r.Y0 + 1).Has(u, v) ensures f(u, v) == g(u, v) { assert r.Has(u, v); }
      RowMajorSame(f, g, r.(Y0 := r.Y0 + 1));
    }
  }

  lemma {:induction false} RowShrink<T>(f: (int, int) -> seq<T>, x: int, x1: int, a: int, b: int, y: int)
    requires forall u :: x <= u < x1 && !(a <= u < b) ==> f(u, y) == []
    ensures Row(f, x, x1, y) == Row(f, Max(x, a), Min(x1, b), y)
    decreases x1 - x
  {
    if x < x1 {
      RowShrink(f, x + 1, x1, a, b, y);
      if !(a <= x < b) { assert f(x, y) == []; }
    }
  }

  lemma RowShrinkTo<T>(f: (int, int) -> seq<T>, r: Rect, inner: Rect, y: int)
    requires forall u, v :: r.Has(u, v) && !inner.Has(u, v) ==> f(u, v) == []
    requires r.Y0 <= y < r.Y1
    ensures inner.Y0 <= y < inner.Y1 ==>
      Row(f, r.X0, r.X1, y) == Row(f, ClipRect(inner, r).X0, ClipRect(inner, r).X1, y)
    ensures !(inner.Y0 <= y < inner.Y1) ==> Row(f, r.X0, r.X1, y) == []
  {
    if inner.Y0 <= y < inner.Y1 {
      forall u | r.X0 <= u < r.X1 && !(inner.X0 <= u < inner.X1) ensures f(u, y) == [] {
        assert r.Has(u, y) && !inner.Has(u, y);
      }
      RowShrink(f, r.X0, r.X1, inner.X0, inner.X1, y);
    } else {
      forall u | r.X0 <= u < r.X1 ensures f(u, y) == [] {
        assert r.Has(u, y) && !inner.Has(u, y);
      }
      RowShrink(f, r.X0, r.X1, r.X1, r.X1, y);
    }
  }

  /** Tiles that emit nothing can be left out of a scan. */
  lemma {:induction false} RowMajorShrink<T>(f: (int, int) -> seq<T>, r: Rect, inner: Rect)
    requires forall u, v :: r.Has(u, v) && !inner.Has(u, v) ==> f(u, v) == []
    ensures RowMajor(f, r) == RowMajor(f, ClipRect(inner, r))
    decreases r.Y1 - r.Y0
  {
    if r.Y0 < r.Y1 {
      var rest := r.(Y0 := r.Y0 + 1);
      RowShrinkTo(f, r, inner, r.Y0);
      forall u, v | rest.Has(u, v) && !inner.Has(u, v) ensures f(u, v) == [] { assert r.Has(u, v); }
      RowMajorShrink(f, rest, inner);
      if r.Y0 < inner.Y0 {
        assert ClipRect(inner, rest) == ClipRect(inner, r);
      } else if r.Y0 < inner.Y1 {
        assert ClipRect(inner, r).(Y0 := ClipRect(inner, r).Y0 + 1) == ClipRect(inner, rest);
      }
    }
  }

  // ---- a source that is far away changes nothing --------------------------------

  lemma ContributionIsNear<V>(l: Level, opts: Options, look: Look<V>, s: Source, i: int, j: int)
    requires Contribution(l, opts, look, s, i, j) != []
    ensures l.Inside(s.X, s.Y)
    ensures s.X - (Reach(opts) - 1) <= i <= s.X + Reach(opts)
    ensures s.Y - (Reach(opts) - 1) <= j <= s.Y + Reach(opts)
  {
    var e := Normalize(l, s, opts).value;
    WorkingRangeBound(s, opts, CastSteps(l, s));
    LitIsNear(l, e, i, j);
  }

  /** A tile map that emits only sources standing on their own tile. */
  ghost predicate InPlace(emit: (int, int) -> seq<Source>) {
    forall x, y, s :: s in emit(x, y) ==> s.X == x && s.Y == y
  }

  lemma FarTileEmitsNothing<V>(l: Level, opts: Options, look: Look<V>, emit: (int, int) -> seq<Source>, region: Rect,
                            i: int, j: int, u: int, v: int)
    requires region.Has(i, j) && InPlace(emit) && !region.Expand(Reach(opts) + 1).Has(u, v)
    ensures Contributions(l, opts, look, emit(u, v), i, j) == []
  {
    forall s | s in emit(u, v) ensures Contribution(l, opts, look, s, i, j) == [] {
      if Contribution(l, opts, look, s, i, j) != [] { ContributionIsNear(l, opts, look, s, i, j); }
    }
    FarEmitsNothing(l, opts, look, emit(u, v), i, j);
  }

  /** Derived sources outside the scanned rectangle cannot reach the region. */
  lemma ScanSuffices<V>(l: Level, opts: Options, look: Look<V>, emit: (int, int) -> seq<Source>, region: Rect, i: int,
                        j: int)
    requires region.Has(i, j) && InPlace(emit)
    ensures Contributions(l, opts, look, RowMajor(emit, ClipRect(region.Expand(Reach(opts) + 1), LevelRect(l))), i, j)
         == Contributions(l, opts, look, RowMajor(emit, LevelRect(l)), i, j)
  {
    var scan, full := region.Expand(Reach(opts) + 1), LevelRect(l);
    var f := ContributionMap(l, opts, look, emit, i, j);
    forall u, v | full.Has(u, v) && !scan.Has(u, v) ensures f(u, v) == [] {
      FarTileEmitsNothing(l, opts, look, emit, region, i, j, u, v);
    }
    calc {
      Contributions(l, opts, look, RowMajor(emit, ClipRect(scan, full)), i, j);
      { ContributionsOfRows(l, opts, look, emit, ClipRect(scan, full), i, j); }
      RowMajor(f, ClipRect(scan, full));
      { RowMajorShrink(f, full, scan); }
      RowMajor(f, full);
      { ContributionsOfRows(l, opts, look, emit, full, i, j); }
      Contributions(l, opts, look, RowMajor(emit, full), i, j);
    }
  }

  lemma {:induction false} FarEmitsNothing<V>(l: Level, opts: Options, look: Look<V>, ss: seq<Source>, i: int, j: int)
    requires forall s :: s in ss ==> Contribution(l, opts, look, s, i, j) == []
    ensures Contributions(l, opts, look, ss, i, j) == []
  {
    if ss != [] { FarEmitsNothing(l, opts, look, ss[..|ss| - 1], i, j); }
  }

  /** All that is seen from a corner, whatever the scanned rectangle. */
  ghost function AllContributions<V>(l: Level, opts: Options, look: Look<V>, i: int, j: int): seq<Seen<V>>
    requires l.Valid()
  {
    Contributions(l, opts, look, l.Sources, i, j)
    + Contributions(l, opts, look, RowMajor(StarMap(l), LevelRect(l)), i, j)
    + Contributions(l, opts, look, RowMajor(EdgeMap(l), LevelRect(l)), i, j)
  }

  lemma DerivedInPlace(l: Level)
    requires l.Valid()
    ensures InPlace(StarMap(l)) && InPlace(EdgeMap(l))
  {
    hide BordersOtherFamily, HasNonSpaceNeighbour;
  }

  lemma ScannedIsComplete<V>(l: Level, opts: Options, look: Look<V>, region: Rect, i: int, j: int)
    requires l.Valid() && region.Has(i, j)
    ensures var scan := region.Expand(Reach(opts) + 1);
      Contributions(l, opts, look, l.Sources + StarlightSources(l, scan) + EdgeSources(l, scan), i, j)
      == AllContributions(l, opts, look, i, j)
  {
    var scan := region.Expand(Reach(opts) + 1);
    var star, edge := StarlightSources(l, scan), EdgeSources(l, scan);
    DerivedInPlace(l);
    calc {
      Contributions(l, opts, look, l.Sources + star + edge, i, j);
      { ContributionsConcat(l, opts, look, l.Sources + star, edge, i, j); }
      Contributions(l, opts, look, l.Sources + star, i, j) + Contributions(l, opts, look, edge, i, j);
      { ContributionsConcat(l, opts, look, l.Sources, star, i, j); }
      Contributions(l, opts, look, l.Sources, i, j) + Contributions(l, opts, look, star, i, j)
      + Contributions(l, opts, look, edge, i, j);
      { ScanSuffices(l, opts, look, StarMap(l), region, i, j); ScanSuffices(l, opts, look, EdgeMap(l), region, i, j); }
      AllContributions(l, opts, look, i, j);
    }
  }

  /** Rendering any region leaves the full ordered fold at each of its corners. */
  lemma RenderedIsComplete<C(!new), V>(op: Optics<C>, l: Level, opts: Options, look: Look<V>, region: Rect, i: int,
                                       j: int)
    requires l.Valid() && region.Has(i, j) && Respects(op, look)
    ensures Rendered(op, l, opts, region, i, j) == Sum(op, look, AllContributions(l, opts, look, i, j), i, j)
  {
    hide Respects, Deposits, Sum, LitOnly, Normalized, Contributions, AllContributions, StarlightSources, EdgeSources,
         Reach;
    var scan := region.Expand(Reach(opts) + 1);
    DepositsOfContributions(op, l, opts, look, l.Sources + StarlightSources(l, scan) + EdgeSources(l, scan), i, j);
    ScannedIsComplete(l, opts, look, region, i, j);
  }

  // ---- an edit inside the dirty rectangle ----------------------------------------

  function Outside(ss: seq<Source>, dirty: Rect): seq<Source> {
    if ss == [] then []
    else
      var s := ss[|ss| - 1];
      Outside(ss[..|ss| - 1], dirty) + if dirty.Has(s.X, s.Y) then [] else [s]
  }

  /** Everything that changed lies inside `dirty`; sources outside it keep their order. */
  ghost predicate EditWithin(old_: Level, new_: Level, dirty: Rect) {
    && old_.Valid() && new_.Valid()
    && old_.W == new_.W && old_.H == new_.H && old_.Starlight == new_.Starlight
    && Outside(old_.Sources, dirty) == Outside(new_.Sources, dirty)
    && forall x, y :: old_.Inside(x, y) && !dirty.Has(x, y) ==>
         && old_.Occ(x, y) == new_.Occ(x, y)
         && SpaceAt(old_, x, y) == SpaceAt(new_, x, y)
         && EdgeAt(old_, x, y) == EdgeAt(new_, x, y)
  }

  /** Moving the centre of the source changes nothing that Update leaves alone. */
  ghost predicate Suits<V>(s: Source, opts: Options, look: Look<V>) {
    CastFits(s, opts, look) && RimTold(s, opts, look)
  }

  /** Every directional source of the level keeps its cast within what Update redraws. */
  ghost predicate LevelFits<V>(l: Level, opts: Options, look: Look<V>) {
    && (forall s :: s in l.Sources ==> Suits(s, opts, look))
    && (forall e :: e in l.EdgeLights ==> Suits(e.Source, opts, look))
  }

  /** The test that needs no knowledge of the deposit. */
  lemma ShortCastsFit<V>(l: Level, opts: Options, look: Look<V>)
    requires forall s :: s in l.Sources ==> CastIsShort(s, opts)
    requires forall e :: e in l.EdgeLights ==> CastIsShort(e.Source, opts)
    ensures LevelFits(l, opts, look)
  {
    hide CastIsShort, CastFits, RimTold;
    forall s | s in l.Sources ensures Suits(s, opts, look) { ShortCastFits(s, opts, look); }
    forall e | e in l.EdgeLights ensures Suits(e.Source, opts, look) { ShortCastFits(e.Source, opts, look); }
  }

  /** An emitter close to a dirty tile cannot light a corner that Update leaves alone. */
  lemma NotLitBeyondRegion(l: Level, opts: Options, dirty: Rect, e: EffSource, rho: int, u: int, v: int, i: int, j: int)
    requires dirty.Has(u, v) && Abs(u - e.src.X) <= rho && Abs(v - e.src.Y) <= rho
    requires 0 <= e.wr && rho + e.wr <= 2 * Reach(opts)
    requires CornerRect(l).Has(i, j) && !UpdateRegion(l, opts, dirty).Has(i, j)
    ensures !Lit(l, e, i, j)
  {
    if Lit(l, e, i, j) { LitIsNear(l, e, i, j); }
  }

  /** Two different cast lengths: the tile that decides between them is dirty. */
  lemma DecidingTile(l: Level, l': Level, dirty: Rect, s: Source)
    requires l.W == l'.W && l.H == l'.H && s.Range.Finite?
    requires forall x, y :: l.Inside(x, y) && !dirty.Has(x, y) ==> l.Occ(x, y) == l'.Occ(x, y)
    requires CastSteps(l, s) < CastSteps(l', s)
    ensures var k := CastSteps(l, s) + 1; dirty.Has(s.X + k * s.Dir.Dx(), s.Y + k * s.Dir.Dy())
    ensures Directional(s) && (s.Dir.Dx() != 0 || s.Dir.Dy() != 0) && CastSteps(l', s) <= CastLength(s)
  {
    StepsDiffer(l, l', s.X, s.Y, s.Dir.Dx(), s.Dir.Dy(), Max(CastLength(s), 0));
  }

  /** A corner that is redrawn with a dirty tile belongs to the region of Update. */
  lemma RedrawnInRegion(l: Level, opts: Options, dirty: Rect, x: int, y: int, i: int, j: int)
    requires dirty.Has(x, y) && Redrawn(opts, x, y, i, j) && CornerRect(l).Has(i, j)
    ensures UpdateRegion(l, opts, dirty).Has(i, j)
  {
  }

  /** A lit corner sees what is shown when nothing is in the way. */
  lemma LitShows<V>(l: Level, look: Look<V>, e: EffSource, i: int, j: int)
    requires Lit(l, e, i, j) && e.wr >= 0
    ensures Shown(look, e, i - e.src.X, j - e.src.Y) == look(AtOrigin(e), i - e.src.X, j - e.src.Y)
  {
    LitIsNear(l, e, i, j);
  }

  lemma FollowedInRegion(l: Level, opts: Options, dirty: Rect, s: Source, a: int, i: int, j: int)
    requires dirty.Has(s.X + (a + 1) * s.Dir.Dx(), s.Y + (a + 1) * s.Dir.Dy())
    requires CornerRect(l).Has(i, j) && !UpdateRegion(l, opts, dirty).Has(i, j)
    ensures !Followed(s, opts, a, i - s.X, j - s.Y)
  {
    var x, y := (a + 1) * s.Dir.Dx(), (a + 1) * s.Dir.Dy();
    if Redrawn(opts, x, y, i - s.X, j - s.Y) {
      assert Redrawn(opts, s.X + x, s.Y + y, i, j);
      RedrawnInRegion(l, opts, dirty, s.X + x, s.Y + y, i, j);
    }
  }

  /** Two different cast lengths on the two levels: an untouched corner is shown the same, and it
      sees as much of the one emitter before as of the other after. */
  lemma CastChangeUnseen<V>(l: Level, l': Level, opts: Options, look: Look<V>, dirty: Rect, s: Source, e: EffSource,
                            e': EffSource, i: int, j: int)
    requires l.W == l'.W && l.H == l'.H && l.Inside(s.X, s.Y) && Accepted(s, opts) && Suits(s, opts, look)
    requires forall x, y :: l.Inside(x, y) && !dirty.Has(x, y) ==> l.Occ(x, y) == l'.Occ(x, y)
    requires CornerRect(l).Has(i, j) && !UpdateRegion(l, opts, dirty).Has(i, j)
    requires CastSteps(l, s) < CastSteps(l', s)
    requires e == Emitter(s, opts, CastSteps(l, s)) && e' == Emitter(s, opts, CastSteps(l', s))
    ensures Shown(look, e, i - s.X, j - s.Y) == Shown(look, e', i - s.X, j - s.Y)
    ensures Shown(look, e, i - s.X, j - s.Y).Some? ==> Lit(l, e, i, j) == Lit(l', e', i, j)
  {
    hide Emitter, Lit, CastSteps, UpdateRegion, Followed, Inner, Shown;
    var a, b := CastSteps(l, s), CastSteps(l', s);
    DecidingTile(l, l', dirty, s);
    FollowedInRegion(l, opts, dirty, s, a, i, j);
    WorkingRangeBound(s, opts, a);
    WorkingRangeBound(s, opts, b);
    assert PairFits(s, opts, look, a, b) && PairRim(s, opts, look, a, b);
    if Shown(look, e, i - s.X, j - s.Y).Some? {
      SameLit(l, l', opts, dirty, s, e, i, j);
      SameLit(l, l', opts, dirty, s, e', i, j);
      if e.wr == e'.wr { LitByRange(l', e, e', i, j); } else { LitInside(l', e, e', i, j); }
    }
  }

  lemma LitByRange(l: Level, e: EffSource, e': EffSource, i: int, j: int)
    requires e.src.X == e'.src.X && e.src.Y == e'.src.Y && e.wr == e'.wr
    ensures Lit(l, e, i, j) == Lit(l, e', i, j)
  {
    hide ViewTiles, CornerOf;
  }

  /** Whether one and the same emitter lights an untouched corner does not change. */
  lemma SameLit(l: Level, l': Level, opts: Options, dirty: Rect, s: Source, e: EffSource, i: int, j: int)
    requires l.W == l'.W && l.H == l'.H && l.Inside(s.X, s.Y) && e.src.X == s.X && e.src.Y == s.Y
    requires 1 <= e.wr <= Reach(opts) - 1
    requires forall x, y :: l.Inside(x, y) && !dirty.Has(x, y) ==> l.Occ(x, y) == l'.Occ(x, y)
    requires CornerRect(l).Has(i, j) && !UpdateRegion(l, opts, dirty).Has(i, j)
    ensures Lit(l, e, i, j) == Lit(l', e, i, j)
  {
    hide Lit;
    if exists t: Tile :: dirty.Has(t.0, t.1) && Near(s.X, s.Y, e.wr, t) {
      var t: Tile :| dirty.Has(t.0, t.1) && Near(s.X, s.Y, e.wr, t);
      NotLitBeyondRegion(l, opts, dirty, e, e.wr, t.0, t.1, i, j);
      NotLitBeyondRegion(l', opts, dirty, e, e.wr, t.0, t.1, i, j);
    } else {
      LitIsLocal(l, l', e, i, j);
    }
  }

  lemma RegionBySize(l: Level, l': Level, opts: Options, dirty: Rect)
    requires l.W == l'.W && l.H == l'.H
    ensures UpdateRegion(l, opts, dirty) == UpdateRegion(l', opts, dirty)
  {
  }

  /** A source present on both levels contributes the same to every corner Update leaves alone. */
  lemma SameContribution<V>(l: Level, l': Level, opts: Options, look: Look<V>, dirty: Rect, s: Source, i: int, j: int)
    requires EditWithin(l, l', dirty) && Suits(s, opts, look)
    requires CornerRect(l).Has(i, j) && !UpdateRegion(l, opts, dirty).Has(i, j)
    ensures Contribution(l, opts, look, s, i, j) == Contribution(l', opts, look, s, i, j)
  {
    hide Emitter, Lit, Suits, CastSteps, UpdateRegion, Shown;
    if l.Inside(s.X, s.Y) && Accepted(s, opts) {
      var a, b := CastSteps(l, s), CastSteps(l', s);
      var e, e' := Emitter(s, opts, a), Emitter(s, opts, b);
      WorkingRangeBound(s, opts, a);
      WorkingRangeBound(s, opts, b);
      if a == b {
        SameLit(l, l', opts, dirty, s, e, i, j);
      } else {
        if a < b {
          CastChangeUnseen(l, l', opts, look, dirty, s, e, e', i, j);
        } else {
          RegionBySize(l, l', opts, dirty);
          CastChangeUnseen(l', l, opts, look, dirty, s, e', e, i, j);
        }
        if Lit(l, e, i, j) { LitShows(l, look, e, i, j); }
        if Lit(l', e', i, j) { LitShows(l', look, e', i, j); }
      }
    }
  }

  /** A source standing within one tile of the dirty rectangle contributes nothing there. */
  lemma CloseContributesNothing<V>(l: Level, opts: Options, look: Look<V>, dirty: Rect, s: Source, u: int, v: int,
                                   i: int,
                                j: int)
    requires dirty.Has(u, v) && Abs(u - s.X) <= 1 && Abs(v - s.Y) <= 1
    requires CornerRect(l).Has(i, j) && !UpdateRegion(l, opts, dirty).Has(i, j)
    ensures Contribution(l, opts, look, s, i, j) == []
  {
    if l.Inside(s.X, s.Y) && Accepted(s, opts) {
      WorkingRangeBound(s, opts, CastSteps(l, s));
      NotLitBeyondRegion(l, opts, dirty, Normalize(l, s, opts).value, 1, u, v, i, j);
    }
  }

  lemma {:induction false} OnlyOutsideMatters<V>(l: Level, opts: Options, look: Look<V>, dirty: Rect, ss: seq<Source>,
                                                 i: int,
                                              j: int)
    requires CornerRect(l).Has(i, j) && !UpdateRegion(l, opts, dirty).Has(i, j)
    ensures Contributions(l, opts, look, ss, i, j) == Contributions(l, opts, look, Outside(ss, dirty), i, j)
  {
    if ss != [] {
      var s, init := ss[|ss| - 1], ss[..|ss| - 1];
      OnlyOutsideMatters(l, opts, look, dirty, init, i, j);
      if dirty.Has(s.X, s.Y) {
        CloseContributesNothing(l, opts, look, dirty, s, s.X, s.Y, i, j);
        assert Outside(ss, dirty) == Outside(init, dirty);
      } else {
        assert Outside(ss, dirty)[..|Outside(ss, dirty)| - 1] == Outside(init, dirty);
      }
    }
  }

  lemma {:induction false} SameContributions<V>(l: Level, l': Level, opts: Options, look: Look<V>, dirty: Rect,
                                                ss: seq<Source>,
                                             i: int, j: int)
    requires EditWithin(l, l', dirty) && forall s :: s in ss ==> Suits(s, opts, look)
    requires CornerRect(l).Has(i, j) && !UpdateRegion(l, opts, dirty).Has(i, j)
    ensures Contributions(l, opts, look, ss, i, j) == Contributions(l', opts, look, ss, i, j)
  {
    if ss != [] {
      SameContributions(l, l', opts, look, dirty, ss[..|ss| - 1], i, j);
      SameContribution(l, l', opts, look, dirty, ss[|ss| - 1], i, j);
    }
  }

  lemma {:induction false} OutsideSubset(ss: seq<Source>, dirty: Rect)
    ensures forall s :: s in Outside(ss, dirty) ==> s in ss
  {
    if ss != [] { OutsideSubset(ss[..|ss| - 1], dirty); }
  }

  lemma EmitterAnywhere(s: Source, opts: Options, x: int, y: int, k: int)
    requires Accepted(s, opts)
    ensures Emitter(s.(X := x, Y := y), opts, k)
         == EffSource(Emitter(s, opts, k).src.(X := x, Y := y), Emitter(s, opts, k).wr)
  {
  }

  lemma CastFitsAnywhere<V>(s: Source, opts: Options, look: Look<V>, x: int, y: int)
    requires CastFits(s, opts, look)
    ensures CastFits(s.(X := x, Y := y), opts, look)
  {
    hide Emitter, Followed, PairFits;
    var s' := s.(X := x, Y := y);
    if Moves(s', opts) {
      forall a, b | 0 <= a < b <= CastLength(s') ensures PairFits(s', opts, look, a, b) {
        assert PairFits(s, opts, look, a, b);
        PairAnywhere(s, opts, look, x, y, a, b);
      }
    }
  }

  lemma RimToldAnywhere<V>(s: Source, opts: Options, look: Look<V>, x: int, y: int)
    requires RimTold(s, opts, look)
    ensures RimTold(s.(X := x, Y := y), opts, look)
  {
    hide Emitter, Followed, PairRim;
    var s' := s.(X := x, Y := y);
    if Moves(s', opts) {
      forall a, b | 0 <= a < b <= CastLength(s') ensures PairRim(s', opts, look, a, b) {
        assert PairRim(s, opts, look, a, b);
        PairAnywhere(s, opts, look, x, y, a, b);
      }
    }
  }

  lemma SuitsAnywhere<V>(s: Source, opts: Options, look: Look<V>, x: int, y: int)
    requires Suits(s, opts, look)
    ensures Suits(s.(X := x, Y := y), opts, look)
  {
    hide CastFits, RimTold;
    CastFitsAnywhere(s, opts, look, x, y);
    RimToldAnywhere(s, opts, look, x, y);
  }

  /** Where the source stands makes no difference. */
  lemma PairAnywhere<V>(s: Source, opts: Options, look: Look<V>, x: int, y: int, a: int, b: int)
    requires Accepted(s, opts)
    ensures PairFits(s.(X := x, Y := y), opts, look, a, b) <==> PairFits(s, opts, look, a, b)
    ensures PairRim(s.(X := x, Y := y), opts, look, a, b) <==> PairRim(s, opts, look, a, b)
  {
    hide Emitter;
    var s' := s.(X := x, Y := y);
    EmitterAnywhere(s, opts, x, y, a);
    EmitterAnywhere(s, opts, x, y, b);
    ShownAnywhere(look, Emitter(s, opts, a), Emitter(s', opts, a));
    ShownAnywhere(look, Emitter(s, opts, b), Emitter(s', opts, b));
    hide Shown, Inner;
    assert forall u, v :: Followed(s', opts, a, u, v) == Followed(s, opts, a, u, v);
    hide Followed;
  }

  lemma ShownAnywhere<V>(look: Look<V>, e: EffSource, f: EffSource)
    requires AtOrigin(e) == AtOrigin(f) && e.wr == f.wr
    ensures forall u, v :: Shown(look, e, u, v) == Shown(look, f, u, v) && Inner(e, u, v) == Inner(f, u, v)
  {
  }
}
