/** The level, the light sources and the normalisation of one source
    (internal/aphelion/lighting: types.go, compute.go, ambient.go, edge.go).
    Floating-point quantities are reals; a value that is NaN or infinite is `NotFinite`. */
module LightingTypes {
  import opened Basics

  const MAX_SHIFT := 3

  // ---- rectangles -------------------------------------------------------------

  /** Half-open rectangle [X0,X1) x [Y0,Y1). */
  datatype Rect = Rect(X0: int, Y0: int, X1: int, Y1: int) {
    predicate Empty() { X1 <= X0 || Y1 <= Y0 }

    predicate Has(x: int, y: int) { X0 <= x < X1 && Y0 <= y < Y1 }

    function Expand(n: int): Rect { Rect(X0 - n, Y0 - n, X1 + n, Y1 + n) }

    predicate Intersects(o: Rect) {
      !Empty() && !o.Empty() && X0 < o.X1 && o.X0 < X1 && Y0 < o.Y1 && o.Y0 < Y1
    }
  }

  function ClipRect(r: Rect, to: Rect): Rect {
    Rect(Max(r.X0, to.X0), Max(r.Y0, to.Y0), Min(r.X1, to.X1), Min(r.Y1, to.Y1))
  }

  // ---- sources and levels -----------------------------------------------------

  datatype Float = Finite(v: real) | NotFinite

  /** A BYOND direction bit mask. */
  datatype Dir = Dir(north: bool, south: bool, east: bool, west: bool) {
    function Dx(): int { (if east then 1 else 0) - (if west then 1 else 0) }

    function Dy(): int { (if north then 1 else 0) - (if south then 1 else 0) }

    predicate Any() { north || south || east || west }

    predicate Cardinal() {
      this in {Dir(true, false, false, false), Dir(false, true, false, false),
               Dir(false, false, true, false), Dir(false, false, false, true)}
    }
  }

  datatype LightSystem = NoLight | Complex | Overlay | OverlayDirectional | OverlayBeam

  datatype RGB = RGB(R: real, G: real, B: real)

  datatype Source = Source(X: int, Y: int, ShiftX: real, ShiftY: real, Range: Float, Power: Float,
                           Color: RGB, Dir: Dir, Angle: real, Height: real, System: LightSystem)

  /** A normalised emitter plus its working range. */
  datatype EffSource = EffSource(src: Source, wr: int)

  datatype Options = Options(MaxRange: Float, IncludeOverlayLights: bool)

  datatype Starlight = Starlight(Enabled: bool, Range: Float, Power: Float, Color: RGB)

  datatype EdgeLight = EdgeLight(Family: int, Emits: bool, Source: Source)

  /** Per-tile slices are optional (`None` means all false) and stored row by row. */
  datatype Level = Level(W: nat, H: nat, Occ: (int, int) -> bool, Space: Option<seq<seq<bool>>>,
                         Starlight: Starlight, Sources: seq<Source>,
                         Edge: Option<seq<seq<nat>>>, EdgeLights: seq<EdgeLight>) {
    ghost predicate Valid() {
      && (Space.Some? ==> |Space.value| == H && forall y :: 0 <= y < H ==> |Space.value[y]| == W)
      && (Edge.Some? ==> |Edge.value| == H && forall y :: 0 <= y < H ==> |Edge.value[y]| == W)
    }

    predicate Inside(x: int, y: int) { 0 <= x < W && 0 <= y < H }

    predicate Blocked(x: int, y: int) { !Inside(x, y) || Occ(x, y) }
  }

  predicate SpaceAt(l: Level, x: int, y: int)
    requires l.Valid() && l.Inside(x, y)
  {
    l.Space.Some? && l.Space.value[y][x]
  }

  function EdgeAt(l: Level, x: int, y: int): (e: Option<EdgeLight>)
    requires l.Valid() && l.Inside(x, y)
    ensures e.Some? ==> e.value in l.EdgeLights
  {
    if l.Edge.None? then None
    else
      var k := l.Edge.value[y][x];
      if k == 0 || k > |l.EdgeLights| then None else Some(l.EdgeLights[k - 1])
  }

  // ---- arithmetic -------------------------------------------------------------

  function Ceil(x: real): int { -((-x).Floor) }

  /** math.Round for the positive arguments it is used with. */
  function RoundHalfUp(x: real): int { (x + 0.5).Floor }

  function AbsR(x: real): real { if x < 0.0 then -x else x }

  function MinR(x: real, y: real): real { if x <= y then x else y }

  function ClampF(v: real, lo: real, hi: real): real {
    if v < lo then lo else if v > hi then hi else v
  }

  function MaxRange(opts: Options): real {
    if opts.MaxRange.NotFinite? || opts.MaxRange.v <= 0.0 then 16.0 else opts.MaxRange.v
  }

  /** The corner distance beyond which a source can never contribute. */
  function Reach(opts: Options): int { Ceil(MaxRange(opts)) + MAX_SHIFT + 1 }

  // ---- normalisation ----------------------------------------------------------

  /** The validity checks of normalize that look only at the source. */
  predicate Accepted(s: Source, opts: Options) {
    && s.System != NoLight
    && s.Range.Finite? && s.Range.v > 0.0
    && s.Power.Finite? && s.Power.v != 0.0
    && (s.System == Complex || opts.IncludeOverlayLights)
  }

  predicate Directional(s: Source) { s.System == OverlayDirectional || s.System == OverlayBeam }

  /** How many tiles forward the centre of a directional light may move. */
  function CastLength(s: Source): int
    requires s.Range.Finite?
  {
    var half := RoundHalfUp(s.Range.v * 0.5);
    var cast := if s.System == OverlayBeam then Max(half, 1) else Min(Max(half, 1), 3);
    if cast > 2 && s.Dir.Any() && !s.Dir.Cardinal() then cast - 1 else cast
  }

  /** Steps taken from (x, y) along (dx, dy), at most n, before a blocked tile. */
  function StepsFrom(l: Level, x: int, y: int, dx: int, dy: int, n: nat): (k: nat)
    ensures k <= n
    decreases n
  {
    if n == 0 || l.Blocked(x + dx, y + dy) then 0
    else 1 + StepsFrom(l, x + dx, y + dy, dx, dy, n - 1)
  }

  /** When the centre moves further on one level than on another, the tile that stopped
      it is blocked on exactly one of them. */
  lemma {:induction false} StepsDiffer(l: Level, l': Level, x: int, y: int, dx: int, dy: int, n: nat)
    requires StepsFrom(l, x, y, dx, dy, n) < StepsFrom(l', x, y, dx, dy, n)
    ensures var k := StepsFrom(l, x, y, dx, dy, n) + 1;
            l.Blocked(x + k * dx, y + k * dy) && !l'.Blocked(x + k * dx, y + k * dy)
    decreases n
  {
    if !l.Blocked(x + dx, y + dy) {
      StepsDiffer(l, l', x + dx, y + dy, dx, dy, n - 1);
      var k := StepsFrom(l, x + dx, y + dy, dx, dy, n - 1) + 1;
      assert x + (k + 1) * dx == x + dx + k * dx && y + (k + 1) * dy == y + dy + k * dy;
    }
  }

  /** The number of tiles the centre of `s` moves forward on level `l`. */
  function CastSteps(l: Level, s: Source): nat
    requires s.Range.Finite?
  {
    if !Directional(s) || (s.Dir.Dx() == 0 && s.Dir.Dy() == 0) then 0
    else StepsFrom(l, s.X, s.Y, s.Dir.Dx(), s.Dir.Dy(), Max(CastLength(s), 0))
  }

  /** The emitter an accepted source becomes once its centre has moved `steps` tiles. */
  function Emitter(s: Source, opts: Options, steps: int): EffSource
    requires Accepted(s, opts)
  {
    var overlay := s.System != Complex;
    var range := if overlay then ClampF(Ceil(s.Range.v * 2.0) as real / 2.0, 1.0, 6.0) else s.Range.v;
    var strength := MinR(230.0, AbsR(s.Power.v) * 120.0 + 30.0) / 255.0;
    var power := if !overlay then s.Power.v else if s.Power.v < 0.0 then -strength else strength;
    var angle := if !overlay then s.Angle else if s.System == OverlayBeam then 45.0 else 360.0;
    var moved := if Directional(s) then steps else 0;
    var sx := ClampF(s.ShiftX + (moved * s.Dir.Dx()) as real, -3.0, 3.0);
    var sy := ClampF(s.ShiftY + (moved * s.Dir.Dy()) as real, -3.0, 3.0);
    var visual := Max(Ceil(AbsR(sx)), Ceil(AbsR(sy)));
    var capped := MinR(range, MaxRange(opts));
    EffSource(s.(ShiftX := sx, ShiftY := sy, Range := Finite(capped), Power := Finite(power), Angle := angle),
              Ceil(capped + visual as real))
  }

  function Normalize(l: Level, s: Source, opts: Options): Option<EffSource> {
    if !l.Inside(s.X, s.Y) || !Accepted(s, opts) then None
    else Some(Emitter(s, opts, CastSteps(l, s)))
  }

  /** The working range always stays below the reach. */
  lemma WorkingRangeBound(s: Source, opts: Options, steps: int)
    requires Accepted(s, opts)
    ensures 1 <= Emitter(s, opts, steps).wr <= Reach(opts) - 1
    ensures Emitter(s, opts, steps).src.X == s.X && Emitter(s, opts, steps).src.Y == s.Y
  {
    var e := Emitter(s, opts, steps);
    var visual := Max(Ceil(AbsR(e.src.ShiftX)), Ceil(AbsR(e.src.ShiftY)));
    assert visual <= 3;
    assert e.src.Range.v <= MaxRange(opts);
    assert e.src.Range.v > 0.0;
    assert e.wr == Ceil(e.src.Range.v + visual as real);
  }

  // ---- what a corner sees of an emitter ---------------------------------------------------------

  /** What a deposit sees, at a corner, of an emitter standing on tile (0, 0): nothing or a value. */
  type Look<V> = (EffSource, int, int) -> Option<V>

  /** A value seen, and the tile of its emitter. */
  datatype Seen<V> = Seen(X: int, Y: int, value: V)

  function AtOrigin(e: EffSource): EffSource { e.(src := e.src.(X := 0, Y := 0)) }

  function Tint<V>(look: Look<V>, e: EffSource, i: int, j: int): Option<Seen<V>> {
    match look(AtOrigin(e), i - e.src.X, j - e.src.Y)
    case None => None
    case Some(v) => Some(Seen(e.src.X, e.src.Y, v))
  }

  /** The corner lies in the square view of an emitter on tile (0, 0). */
  predicate InView(e: EffSource, u: int, v: int) { -e.wr <= u <= e.wr + 1 && -e.wr <= v <= e.wr + 1 }

  /** All tiles around the corner lie in the square view. */
  predicate Inner(e: EffSource, u: int, v: int) { -e.wr < u <= e.wr && -e.wr < v <= e.wr }

  /** What a corner sees of an emitter on tile (0, 0) when nothing is in the way. */
  function Shown<V>(look: Look<V>, e: EffSource, u: int, v: int): Option<V> {
    if InView(e, u, v) then look(AtOrigin(e), u, v) else None
  }

  /** The corner is redrawn when tile (x, y) is dirty. */
  predicate Redrawn(opts: Options, x: int, y: int, u: int, v: int) {
    && x - 2 * Reach(opts) <= u <= x + 1 + 2 * Reach(opts)
    && y - 2 * Reach(opts) <= v <= y + 1 + 2 * Reach(opts)
  }

  /** The corner is redrawn with the tile that tells a cast of a tiles from a longer one. */
  predicate Followed(s: Source, opts: Options, a: int, u: int, v: int) {
    Redrawn(opts, (a + 1) * s.Dir.Dx(), (a + 1) * s.Dir.Dy(), u, v)
  }

  /** A directional light whose centre the walls ahead can move. */
  predicate Moves(s: Source, opts: Options)
  {
    Accepted(s, opts) && Directional(s) && (s.Dir.Dx() != 0 || s.Dir.Dy() != 0)
  }

  /** Casts of a and of b tiles look the same from every corner that is not redrawn with the tile
      that decides between them. */
  ghost predicate PairFits<V>(s: Source, opts: Options, look: Look<V>, a: int, b: int)
    requires Accepted(s, opts)
  {
    forall u, v :: !Followed(s, opts, a, u, v) ==>
      Shown(look, Emitter(s, opts, a), u, v) == Shown(look, Emitter(s, opts, b), u, v)
  }

  /** The cast of the source changes only corners that Update redraws. */
  ghost predicate CastFits<V>(s: Source, opts: Options, look: Look<V>) {
    Moves(s, opts) ==> forall a, b :: 0 <= a < b <= CastLength(s) ==> PairFits(s, opts, look, a, b)
  }

  /** A corner on the rim of a view does not see the same light from a view of another size. */
  ghost predicate PairRim<V>(s: Source, opts: Options, look: Look<V>, a: int, b: int)
    requires Accepted(s, opts)
  {
    var e, e' := Emitter(s, opts, a), Emitter(s, opts, b);
    e.wr != e'.wr ==> forall u, v ::
      !Followed(s, opts, a, u, v) && Shown(look, e, u, v) == Shown(look, e', u, v) != None ==>
        Inner(e, u, v) && Inner(e', u, v)
  }

  ghost predicate RimTold<V>(s: Source, opts: Options, look: Look<V>) {
    Moves(s, opts) ==> forall a, b :: 0 <= a < b <= CastLength(s) ==> PairRim(s, opts, look, a, b)
  }

  /** The same, for a deposit that may see everything everywhere: a test on the source. */
  predicate CastIsShort(s: Source, opts: Options) {
    Moves(s, opts) ==>
      forall a, b :: 0 <= a < b <= CastLength(s) && Emitter(s, opts, a) != Emitter(s, opts, b) ==>
        a + 1 + Max(Emitter(s, opts, a).wr, Emitter(s, opts, b).wr) <= 2 * Reach(opts)
  }

  lemma ShortCastFits<V>(s: Source, opts: Options, look: Look<V>)
    requires CastIsShort(s, opts)
    ensures CastFits(s, opts, look) && RimTold(s, opts, look)
  {
    hide Emitter, Reach, CastLength, InView, PairFits, PairRim;
    if Moves(s, opts) {
      forall a, b | 0 <= a < b <= CastLength(s)
        ensures PairFits(s, opts, look, a, b) && PairRim(s, opts, look, a, b)
      {
        ShortPairFits(s, opts, look, a, b);
      }
    }
  }

  lemma ShortPairFits<V>(s: Source, opts: Options, look: Look<V>, a: int, b: int)
    requires Moves(s, opts) && 0 <= a < b
    requires Emitter(s, opts, a) == Emitter(s, opts, b) ||
      a + 1 + Max(Emitter(s, opts, a).wr, Emitter(s, opts, b).wr) <= 2 * Reach(opts)
    ensures PairFits(s, opts, look, a, b) && PairRim(s, opts, look, a, b)
  {
    hide Emitter, Reach, CastLength;
    UnitTimes(s.Dir.Dx(), a + 1);
    UnitTimes(s.Dir.Dy(), a + 1);
  }

  lemma UnitTimes(d: int, n: int)
    requires -1 <= d <= 1 && n >= 0
    ensures -n <= n * d <= n
  {
  }
}
