/** The imperative lighting computation (internal/aphelion/lighting: compute.go, ambient.go,
    edge.go), each loop proved against the functions of LightingSum and ShadowCast. */
module LightingCompute {
  import opened Basics
  import opened Indexing
  import opened LightingTypes
  import opened ShadowCast
  import opened LightingSum
  import opened LightingIncremental

  // ---- derived sources ------------------------------------------------------------

  /** The eight-neighbour scan shared by hasNonSpaceNeighbour and bordersOtherFamily. */
  method ScanNeighbours(l: Level, x: int, y: int, p: (int, int) -> bool) returns (found: bool)
    ensures found == SomeNeighbour(l, x, y, p)
  {
    for dy := -1 to 2
      invariant forall u, v :: (u != x || v != y) && Abs(u - x) <= 1 && -1 <= v - y < dy && l.Inside(u, v) ==> !p(u, v)
    {
      for dx := -1 to 2
        invariant forall u, v :: ((u != x || v != y) && Abs(u - x) <= 1 && Abs(v - y) <= 1 && l.Inside(u, v) &&
                                  (v - y < dy || (v - y == dy && u - x < dx))) ==> !p(u, v)
      {
        if (dx != 0 || dy != 0) && l.Inside(x + dx, y + dy) && p(x + dx, y + dy) { return true; }
      }
    }
    return false;
  }

  method StarlightTile(l: Level, x: int, y: int) returns (out: seq<Source>)
    requires l.Valid() && l.Inside(x, y)
    ensures out == StarAt(l, x, y)
  {
    out := [];
    if l.Starlight.Enabled && SpaceAt(l, x, y) {
      var found := ScanNeighbours(l, x, y, NonSpaceTest(l));
      if found { out := [StarSource(l, x, y)]; }
    }
  }

  method EdgeTile(l: Level, x: int, y: int) returns (out: seq<Source>)
    requires l.Valid() && l.Inside(x, y)
    ensures out == EdgeSourceAt(l, x, y)
  {
    out := [];
    var e := EdgeAt(l, x, y);
    if e.Some? && e.value.Emits {
      var border := ScanNeighbours(l, x, y, OtherFamilyTest(l, e.value.Family));
      if border { out := [e.value.Source.(X := x, Y := y)]; }
    }
  }

  lemma Assoc<T>(a: seq<T>, b: seq<T>, c: seq<T>)
    ensures a + (b + c) == (a + b) + c
  {
  }

  method StarlightRow(l: Level, r: Rect, y: int) returns (out: seq<Source>)
    requires l.Valid() && 0 <= r.X0 && r.X1 <= l.W && 0 <= y < l.H
    ensures out == Row(StarMap(l), r.X0, r.X1, y)
  {
    hide StarAt;
    out := [];
    ghost var emit := StarMap(l);
    var x := r.X0;
    while x < r.X1
      invariant r.X0 <= x
      invariant out + Row(emit, x, r.X1, y) == Row(emit, r.X0, r.X1, y)
    {
      var tile := StarlightTile(l, x, y);
      assert tile == emit(x, y);
      Assoc(out, tile, Row(emit, x + 1, r.X1, y));
      out := out + tile;
      x := x + 1;
    }
  }

  method StarlightSourcesIn(l: Level, scan: Rect) returns (out: seq<Source>)
    requires l.Valid()
    ensures out == StarlightSources(l, scan)
  {
    hide StarAt, StarMap;
    out := [];
    var r := ClipRect(scan, LevelRect(l));
    ghost var emit := StarMap(l);
    var y := r.Y0;
    while y < r.Y1
      invariant r.Y0 <= y
      invariant out + RowMajor(emit, r.(Y0 := y)) == RowMajor(emit, r)
    {
      var row := StarlightRow(l, r, y);
      Assoc(out, row, RowMajor(emit, r.(Y0 := y + 1)));
      out := out + row;
      y := y + 1;
    }
  }

  method EdgeRow(l: Level, r: Rect, y: int) returns (out: seq<Source>)
    requires l.Valid() && 0 <= r.X0 && r.X1 <= l.W && 0 <= y < l.H
    ensures out == Row(EdgeMap(l), r.X0, r.X1, y)
  {
    hide EdgeSourceAt;
    out := [];
    ghost var emit := EdgeMap(l);
    var x := r.X0;
    while x < r.X1
      invariant r.X0 <= x
      invariant out + Row(emit, x, r.X1, y) == Row(emit, r.X0, r.X1, y)
    {
      var tile := EdgeTile(l, x, y);
      assert tile == emit(x, y);
      Assoc(out, tile, Row(emit, x + 1, r.X1, y));
      out := out + tile;
      x := x + 1;
    }
  }

  method EdgeSourcesIn(l: Level, scan: Rect) returns (out: seq<Source>)
    requires l.Valid()
    ensures out == EdgeSources(l, scan)
  {
    hide EdgeSourceAt, EdgeMap;
    out := [];
    var r := ClipRect(scan, LevelRect(l));
    ghost var emit := EdgeMap(l);
    var y := r.Y0;
    while y < r.Y1
      invariant r.Y0 <= y
      invariant out + RowMajor(emit, r.(Y0 := y)) == RowMajor(emit, r)
    {
      var row := EdgeRow(l, r, y);
      Assoc(out, row, RowMajor(emit, r.(Y0 := y + 1)));
      out := out + row;
      y := y + 1;
    }
  }

  /** The loop of castDirectional. */
  method CastDirectional(l: Level, s: Source) returns (steps: nat)
    requires s.Range.Finite?
    ensures steps == CastSteps(l, s)
  {
    if !Directional(s) || (s.Dir.Dx() == 0 && s.Dir.Dy() == 0) { return 0; }
    var dist := CastLength(s);
    var x, y := s.X, s.Y;
    var i := 1;
    steps := 0;
    while i <= dist
      invariant 1 <= i && steps == i - 1 && (i <= dist || steps == Max(dist, 0))
      invariant steps + StepsFrom(l, x, y, s.Dir.Dx(), s.Dir.Dy(), Max(dist - steps, 0)) == CastSteps(l, s)
    {
      if l.Blocked(x + s.Dir.Dx(), y + s.Dir.Dy()) { break; }
      x, y, steps, i := x + s.Dir.Dx(), y + s.Dir.Dy(), i, i + 1;
    }
  }

  method NormalizeAll(l: Level, opts: Options, ghost done: seq<Source>, ss: seq<Source>, es: seq<EffSource>)
    returns (out: seq<EffSource>)
    requires es == Normalized(l, opts, done)
    ensures out == Normalized(l, opts, done + ss)
  {
    hide Emitter;
    out := es;
    assert done + ss[..0] == done;
    for k := 0 to |ss|
      invariant out == Normalized(l, opts, done + ss[..k])
    {
      var s := ss[k];
      assert (done + ss[..k + 1])[..|done| + k] == done + ss[..k];
      if l.Inside(s.X, s.Y) && Accepted(s, opts) {
        var steps := CastDirectional(l, s);
        out := out + [Emitter(s, opts, steps)];
      }
    }
    assert ss[..|ss|] == ss;
  }

  method CollectSources(l: Level, opts: Options, scan: Rect) returns (out: seq<EffSource>)
    requires l.Valid()
    ensures out == EffectiveSources(l, opts, scan)
  {
    out := NormalizeAll(l, opts, [], l.Sources, []);
    assert [] + l.Sources == l.Sources;
    var star := StarlightSourcesIn(l, scan);
    out := NormalizeAll(l, opts, l.Sources, star, out);
    var edge := EdgeSourcesIn(l, scan);
    out := NormalizeAll(l, opts, l.Sources + star, edge, out);
  }

  // ---- visibility scratch -------------------------------------------------------------

  /** Corner (i, j) belongs to a transparent tile of the set. */
  ghost predicate Touches(l: Level, tiles: set<Tile>, i: int, j: int) {
    exists t :: t in tiles && !l.Occ(t.0, t.1) && CornerOf(t, i, j)
  }

  lemma CornerIndexInjective(w: nat, i: int, j: int, u: int, v: int)
    requires 0 <= i < w && 0 <= u < w
    ensures CellIndex(w, i, j) == CellIndex(w, u, v) ==> i == u && j == v
  {
    DivModUnique(w, j, i);
    DivModUnique(w, v, u);
  }

  /** Reusable buffers for visibility and corner de-duplication. */
  class Scratch {
    const lvl: Level
    const stamp: array<nat>
    var gen: nat
    var corners: seq<int>
    ghost var view: set<Tile>

    /** No stamp is newer than the current generation. */
    ghost predicate Ready()
      reads this, stamp
    {
      && stamp.Length == (lvl.W + 1) * (lvl.H + 1)
      && forall k :: 0 <= k < stamp.Length ==> stamp[k] <= gen
    }

    /** The corner list holds each corner stamped with this generation exactly once. */
    ghost predicate Valid()
      reads this, stamp
    {
      && Ready()
      && (forall k :: 0 <= k < stamp.Length ==> (stamp[k] == gen <==> k in corners))
      && (forall k :: k in corners ==> 0 <= k < stamp.Length)
      && (forall a, b :: 0 <= a < b < |corners| ==> corners[a] != corners[b])
    }

    /** The collected corners are exactly those of the transparent tiles marked so far. */
    ghost predicate Collected()
      reads this
    {
      && (forall t :: t in view ==> lvl.Inside(t.0, t.1))
      && forall i, j :: CornerRect(lvl).Has(i, j) ==>
           (CellIndex(lvl.W + 1, i, j) in corners <==> Touches(lvl, view, i, j))
    }

    constructor (l: Level)
      ensures lvl == l && Ready() && fresh(stamp)
    {
      lvl := l;
      var n := (l.W + 1) * (l.H + 1);
      stamp := new nat[n](_ => 0);
      gen := 0;
      corners := [];
      view := {};
    }

    /** Starts a new source: nothing is collected yet. */
    method Begin()
      requires Ready()
      modifies this
      ensures Valid() && Collected() && view == {}
    {
      gen := gen + 1;
      corners := [];
      view := {};
    }

    method AddCorner(i: int, j: int)
      requires Valid() && CornerRect(lvl).Has(i, j)
      modifies this`corners, stamp
      ensures Valid()
      ensures forall u, v :: CornerRect(lvl).Has(u, v) ==>
        (CellIndex(lvl.W + 1, u, v) in corners <==> CellIndex(lvl.W + 1, u, v) in old(corners) || (u == i && v == j))
    {
      var idx := CellIndex(lvl.W + 1, i, j);
      CellIndexBounds(lvl.W + 1, lvl.H + 1, i, j);
      if stamp[idx] != gen {
        stamp[idx] := gen;
        corners := corners + [idx];
      }
      forall u, v | CornerRect(lvl).Has(u, v)
        ensures CellIndex(lvl.W + 1, u, v) == idx ==> u == i && v == j
      {
        CornerIndexInjective(lvl.W + 1, u, v, i, j);
      }
    }

    method Mark(x: int, y: int)
      requires Valid() && Collected() && lvl.Inside(x, y)
      modifies this`corners, this`view, stamp
      ensures Valid() && Collected() && view == old(view) + {(x, y)}
    {
      view := view + {(x, y)};
      if !lvl.Occ(x, y) {
        AddCorner(x, y);
        AddCorner(x + 1, y);
        AddCorner(x, y + 1);
        AddCorner(x + 1, y + 1);
      }
      forall i, j | CornerRect(lvl).Has(i, j)
        ensures Touches(lvl, view, i, j) <==>
          Touches(lvl, old(view), i, j) || (!lvl.Occ(x, y) && CornerOf((x, y), i, j))
      {
        if !lvl.Occ(x, y) && CornerOf((x, y), i, j) { assert (x, y) in view; }
        if Touches(lvl, old(view), i, j) {
          var t :| t in old(view) && !lvl.Occ(t.0, t.1) && CornerOf(t, i, j);
          assert t in view;
        }
      }
    }

    /** Recursive shadowcasting over one octant. */
    method Cast(o: Octant, row: int, start0: real, end: real, radius: int)
      requires Valid() && Collected() && row >= 1
      modifies this`corners, this`view, stamp
      ensures Valid() && Collected()
      ensures view == old(view) + CastTiles(lvl, o, radius, row, start0, end)
      decreases radius - row + 1
    {
      if start0 < end { return; }
      var start, newStart, j := start0, 0.0, row;
      ghost var goal := view + CastTiles(lvl, o, radius, row, start0, end);
      while j <= radius
        invariant Valid() && Collected() && j >= row
        invariant view + RowTiles(lvl, o, radius, j, start, end, newStart) == goal
      {
        var dx, blocked := -j - 1, false;
        while dx <= 0
          invariant Valid() && Collected() && dx <= 1
          invariant view + CellTiles(lvl, o, radius, j, dx + 1, start, end, newStart, blocked) == goal
        {
          dx := dx + 1;
          var left, right := LeftSlope(dx, j), RightSlope(dx, j);
          if start < right { continue; }
          if end > left { break; }
          var x, y := o.X(dx, j), o.Y(dx, j);
          var inside := lvl.Inside(x, y);
          if inside { Mark(x, y); }
          var isOpaque := !inside || lvl.Occ(x, y);
          if blocked {
            if isOpaque {
              newStart := right;
              continue;
            }
            blocked := false;
            start := newStart;
          } else if isOpaque && j < radius {
            blocked := true;
            Cast(o, j + 1, start, left, radius);
            newStart := right;
          }
        }
        assert view + (if blocked then {} else RowTiles(lvl, o, radius, j + 1, start, end, newStart)) == goal;
        if blocked { break; }
        j := j + 1;
      }
    }

    /** Collects the corners of every transparent tile in the square view. */
    method VisibleCorners(sx: int, sy: int, radius: int)
      requires Valid() && Collected() && view == {} && lvl.Inside(sx, sy)
      modifies this`corners, this`view, stamp
      ensures Valid() && Collected() && view == ViewTiles(lvl, sx, sy, radius)
    {
      Mark(sx, sy);
      for oct := 0 to 8
        invariant Valid() && Collected()
        invariant view + OctantsFrom(lvl, sx, sy, radius, oct) == ViewTiles(lvl, sx, sy, radius)
      {
        Cast(OctantOf(sx, sy, oct), 1, 1.0, 0.0, radius);
      }
    }

    /** Adds one source's contribution to the corners inside the region. */
    method AddSource<C>(op: Optics<C>, sum: array<C>, e: EffSource, region: Rect)
      requires Ready() && sum as object != stamp as object && sum.Length == (lvl.W + 1) * (lvl.H + 1)
      requires lvl.Inside(e.src.X, e.src.Y)
      modifies this, stamp, sum
      ensures Ready()
      ensures forall i, j :: CornerRect(lvl).Has(i, j) ==>
        CornerSum(sum, lvl.W, lvl.H, i, j) ==
          if region.Has(i, j) && Lit(lvl, e, i, j) then op.deposit(old(CornerSum(sum, lvl.W, lvl.H, i, j)), e, i, j)
          else old(CornerSum(sum, lvl.W, lvl.H, i, j))
    {
      Begin();
      VisibleCorners(e.src.X, e.src.Y, e.wr);
      var cw := lvl.W + 1;
      for p := 0 to |corners|
        modifies sum
        invariant forall k :: 0 <= k < sum.Length ==>
          sum[k] == if k in corners[..p] && region.Has(k % cw, k / cw)
                    then op.deposit(old(sum[k]), e, k % cw, k / cw) else old(sum[k])
      {
        var c := corners[p];
        assert c in corners;
        assert corners[..p + 1] == corners[..p] + [c];
        assert c !in corners[..p];
        var i, j := c % cw, c / cw;
        if region.Has(i, j) { sum[c] := op.deposit(sum[c], e, i, j); }
      }
      assert corners[..|corners|] == corners;
      forall i, j | CornerRect(lvl).Has(i, j)
        ensures CornerSum(sum, lvl.W, lvl.H, i, j) ==
          if region.Has(i, j) && Lit(lvl, e, i, j) then op.deposit(old(CornerSum(sum, lvl.W, lvl.H, i, j)), e, i, j)
          else old(CornerSum(sum, lvl.W, lvl.H, i, j))
      {
        CellIndexBounds(cw, lvl.H + 1, i, j);
        assert Touches(lvl, view, i, j) == Lit(lvl, e, i, j);
      }
    }
  }

  // ---- results --------------------------------------------------------------------------

  /** The sum stored for corner (i, j) of a level. */
  ghost function CornerSum<C>(sum: array<C>, w: nat, h: nat, i: int, j: int): C
    requires sum.Length == (w + 1) * (h + 1) && 0 <= i <= w && 0 <= j <= h
    reads sum
  {
    CellIndexBounds(w + 1, h + 1, i, j);
    sum[CellIndex(w + 1, i, j)]
  }

  function Area(r: Rect): nat
    requires !r.Empty()
  {
    (r.X1 - r.X0) * (r.Y1 - r.Y0)
  }

  /** Raw per-corner light sums for one level. */
  class Result<C(!new)> {
    const op: Optics<C>
    const opts: Options
    var W: nat
    var H: nat
    var sum: array<C>

    ghost predicate Sized(l: Level)
      reads this
    {
      W == l.W && H == l.H && sum.Length == (l.W + 1) * (l.H + 1)
    }

    /** Every corner holds what a fresh Compute of `l` leaves there. */
    ghost predicate Fresh(l: Level)
      requires l.Valid()
      reads this, sum
    {
      Sized(l) && forall i, j ::
        CornerRect(l).Has(i, j) ==> CornerSum(sum, l.W, l.H, i, j) == Computed(op, l, opts, i, j)
    }

    /** Compute: lights a whole level. */
    constructor (op: Optics<C>, l: Level, opts: Options)
      requires l.Valid()
      ensures this.op == op && this.opts == opts && Fresh(l) && fresh(sum)
    {
      this.op, this.opts, W, H := op, opts, l.W, l.H;
      sum := new C[(l.W + 1) * (l.H + 1)](_ => op.dark);
      new;
      Render(l, CornerRect(l));
    }

    /** Darkens the corners of a region row by row. */
    method Darken(l: Level, region: Rect)
      requires Sized(l)
      requires 0 <= region.X0 && 0 <= region.Y0 && region.X1 <= l.W + 1 && region.Y1 <= l.H + 1
      modifies sum
      ensures forall i, j :: CornerRect(l).Has(i, j) ==>
        CornerSum(sum, l.W, l.H, i, j) == if region.Has(i, j) then op.dark else old(CornerSum(sum, l.W, l.H, i, j))
    {
      var j := region.Y0;
      while j < region.Y1
        invariant region.Y0 <= j
        invariant forall u, v :: CornerRect(l).Has(u, v) ==>
          CornerSum(sum, l.W, l.H, u, v) ==
            if region.Has(u, v) && v < j then op.dark else old(CornerSum(sum, l.W, l.H, u, v))
      {
        var i := region.X0;
        while i < region.X1
          invariant region.X0 <= i
          invariant forall u, v :: CornerRect(l).Has(u, v) ==>
            CornerSum(sum, l.W, l.H, u, v) ==
              if region.Has(u, v) && (v < j || (v == j && u < i)) then op.dark else old(CornerSum(sum, l.W, l.H, u, v))
        {
          Put(l, i, j, op.dark);
          i := i + 1;
        }
        j := j + 1;
      }
    }

    /** Stores one corner. */
    method Put(l: Level, i: int, j: int, value: C)
      requires Sized(l) && CornerRect(l).Has(i, j)
      modifies sum
      ensures forall u, v :: CornerRect(l).Has(u, v) ==>
        CornerSum(sum, l.W, l.H, u, v) == if u == i && v == j then value else old(CornerSum(sum, l.W, l.H, u, v))
    {
      CellIndexBounds(l.W + 1, l.H + 1, i, j);
      sum[CellIndex(l.W + 1, i, j)] := value;
      forall u, v | CornerRect(l).Has(u, v)
        ensures CornerSum(sum, l.W, l.H, u, v) == if u == i && v == j then value
          else old(CornerSum(sum, l.W, l.H, u, v))
      {
        CellIndexBounds(l.W + 1, l.H + 1, u, v);
        CornerIndexInjective(l.W + 1, i, j, u, v);
      }
    }

    /** Darkens the corners of the region and re-adds every source that can reach them, in order. */
    method Render(l: Level, region: Rect)
      requires l.Valid() && Sized(l)
      requires 0 <= region.X0 && 0 <= region.Y0 && region.X1 <= l.W + 1 && region.Y1 <= l.H + 1
      modifies sum
      ensures forall i, j :: CornerRect(l).Has(i, j) ==>
        CornerSum(sum, l.W, l.H, i, j) ==
          if region.Has(i, j) then Rendered(op, l, opts, region, i, j) else old(CornerSum(sum, l.W, l.H, i, j))
    {
      hide Lit, CornerSum, EffectiveSources;
      Darken(l, region);
      var scan := region.Expand(Reach(opts) + 1);
      var srcs := CollectSources(l, opts, scan);
      SourcesInside(l, opts, scan);
      var sc := new Scratch(l);
      for n := 0 to |srcs|
        invariant sc.Ready() && sc.lvl == l && fresh(sc) && fresh(sc.stamp)
        invariant forall i, j :: CornerRect(l).Has(i, j) ==>
          CornerSum(sum, l.W, l.H, i, j) ==
            if region.Has(i, j) then Deposits(op, LitOnly(l, srcs[..n], i, j), i, j)
              else old(CornerSum(sum, l.W, l.H, i, j))
      {
        var s := srcs[n];
        assert srcs[..n + 1][..n] == srcs[..n];
        var box := Rect(s.src.X - s.wr - 1, s.src.Y - s.wr - 1, s.src.X + s.wr + 3, s.src.Y + s.wr + 3);
        if box.Intersects(region) {
          sc.AddSource(op, sum, s, region);
        } else {
          BoxMissesRegion(l, s, box, region);
        }
        forall i, j | CornerRect(l).Has(i, j)
          ensures Deposits(op, LitOnly(l, srcs[..n + 1], i, j), i, j) ==
            var before := Deposits(op, LitOnly(l, srcs[..n], i, j), i, j);
            if Lit(l, s, i, j) then op.deposit(before, s, i, j) else before
        {
          DepositsSnoc(op, l, srcs[..n], s, i, j);
          assert srcs[..n] + [s] == srcs[..n + 1];
        }
      }
      assert srcs[..|srcs|] == srcs;
    }

    /** Recomputes the corners a change inside `dirty` can affect and returns how many. */
    method Update(l: Level, dirty: Rect) returns (count: nat)
      requires l.Valid() && sum.Length == (W + 1) * (H + 1)
      modifies this, sum
      ensures Sized(l)
      ensures !(old(W) == l.W && old(H) == l.H) ==> Fresh(l) && count == sum.Length
      ensures old(W) == l.W && old(H) == l.H ==>
        count == if dirty.Empty() || UpdateRegion(l, opts, dirty).Empty() then 0 else Area(UpdateRegion(l, opts, dirty))
      ensures old(W) == l.W && old(H) == l.H ==> sum == old(sum) && forall i, j :: CornerRect(l).Has(i, j) ==>
        CornerSum(sum, l.W, l.H, i, j) == Updated(op, l, opts, dirty, old(CornerSum(sum, l.W, l.H, i, j)), i, j)
    {
      hide Computed, Rendered, CornerSum, Area, Reach;
      if l.W != W || l.H != H {
        var again := new Result<C>(op, l, opts);
        W, H, sum := again.W, again.H, again.sum;
        return sum.Length;
      }
      if dirty.Empty() { return 0; }
      var region := UpdateRegion(l, opts, dirty);
      if region.Empty() { return 0; }
      Render(l, region);
      return Area(region);
    }

    /** The documented use: after an edit inside `dirty`, Update leaves the fresh result. */
    method UpdateAfterEdit<V>(ghost before: Level, l: Level, dirty: Rect, ghost look: Look<V>) returns (count: nat)
      requires before.Valid() && l.Valid() && Fresh(before) && Respects(op, look)
      requires SameSize(before, l) ==> EditWithin(before, l, dirty) && LevelFits(before, opts, look)
      modifies this, sum
      ensures Fresh(l)
    {
      hide Computed, Updated, CornerSum, EditWithin, LevelFits, Respects;
      count := Update(l, dirty);
      if SameSize(before, l) {
        forall i, j | CornerRect(l).Has(i, j)
          ensures CornerSum(sum, l.W, l.H, i, j) == Computed(op, l, opts, i, j)
        {
          UpdateEqualsCompute(op, opts, look, before, l, dirty, i, j);
        }
      }
    }
  }

  lemma DepositsSnoc<C>(op: Optics<C>, l: Level, es: seq<EffSource>, e: EffSource, i: int, j: int)
    ensures var before := Deposits(op, LitOnly(l, es, i, j), i, j);
      Deposits(op, LitOnly(l, es + [e], i, j), i, j) == if Lit(l, e, i, j) then op.deposit(before, e, i, j) else before
  {
    hide Lit;
    assert (es + [e])[..|es|] == es;
    var lit := LitOnly(l, es, i, j);
    assert (lit + [e])[..|lit|] == lit && lit + [] == lit;
  }

  lemma BoxMissesRegion(l: Level, e: EffSource, box: Rect, region: Rect)
    requires e.wr >= 0 && !box.Intersects(region)
    requires box == Rect(e.src.X - e.wr - 1, e.src.Y - e.wr - 1, e.src.X + e.wr + 3, e.src.Y + e.wr + 3)
    ensures forall i, j :: region.Has(i, j) ==> !Lit(l, e, i, j)
  {
    forall i, j | region.Has(i, j) ensures !Lit(l, e, i, j) {
      if Lit(l, e, i, j) { LitIsNear(l, e, i, j); }
    }
  }

  /** Effective sources stand inside the level and have a non-negative working range. */
  lemma SourcesInside(l: Level, opts: Options, scan: Rect)
    requires l.Valid()
    ensures forall e :: e in EffectiveSources(l, opts, scan) ==> l.Inside(e.src.X, e.src.Y) && e.wr >= 1
  {
    NormalizedInside(l, opts, l.Sources + StarlightSources(l, scan) + EdgeSources(l, scan));
  }

  lemma {:induction false} NormalizedInside(l: Level, opts: Options, ss: seq<Source>)
    ensures forall e :: e in Normalized(l, opts, ss) ==> l.Inside(e.src.X, e.src.Y) && e.wr >= 1
  {
    hide Emitter;
    if ss != [] {
      var s := ss[|ss| - 1];
      NormalizedInside(l, opts, ss[..|ss| - 1]);
      if Accepted(s, opts) { WorkingRangeBound(s, opts, CastSteps(l, s)); }
    }
  }
}
