/** What the lighting formulas promise (internal/aphelion/lighting: compute.go:113-181, falloff.go,
    ambient.go, edge.go): which sources shine, from where, how far and how bright. */
module LightingMeaning {
  import opened Basics
  import opened LightingTypes
  import opened LightingSum
  import opened LightingFalloff

  // ---- which sources shine -------------------------------------------------------------------------

  predicate Lights(f: Float) { f.Finite? && f.v != 0.0 }

  predicate IsOverlay(s: Source) { s.System == Overlay || s.System == OverlayDirectional || s.System == OverlayBeam }

  /** A source is dropped exactly when it is off the level, has no light system, no positive finite
      range or no finite power, or is an overlay while overlays are switched off. */
  lemma DroppedSources(l: Level, s: Source, opts: Options)
    ensures Normalize(l, s, opts).None? <==>
      || !(0 <= s.X < l.W && 0 <= s.Y < l.H) || s.System == NoLight
      || !(Lights(s.Range) && s.Range.v > 0.0) || !Lights(s.Power)
      || (IsOverlay(s) && !opts.IncludeOverlayLights)
  {
  }

  // ---- how far a directional light is carried -------------------------------------------------------

  function Bit(b: bool): int { if b then 1 else 0 }

  /** How many of the four directions a mask names. */
  function Named(d: Dir): int { Bit(d.north) + Bit(d.south) + Bit(d.east) + Bit(d.west) }

  /** n is x rounded to the nearest integer, halves upwards. */
  predicate Rounds(x: real, n: int) { n as real - 0.5 <= x < n as real + 0.5 }

  /** Half the range, rounded, but at least one tile and at most three unless it is a beam; one less
      for more than two tiles in a slanted direction. */
  lemma CastLengthMeaning(s: Source, n: int)
    requires s.Range.Finite? && Rounds(s.Range.v / 2.0, n)
    ensures var full := if n < 1 then 1 else if n > 3 && s.System != OverlayBeam then 3 else n;
      CastLength(s) == if full > 2 && Named(s.Dir) > 1 then full - 1 else full
  {
    assert RoundHalfUp(s.Range.v * 0.5) == n;
  }

  /** The coordinate i steps further on. */
  function Along(x: int, d: int, i: int): int { x + i * d }

  lemma AlongNext(x: int, d: int, i: int)
    ensures Along(x + d, d, i) == Along(x, d, i + 1) && Along(x, d, 1) == x + d
  {
  }

  /** The centre passes open tiles only, and stops at its length or before a blocked tile. */
  lemma {:induction false} StepsMeaning(l: Level, x: int, y: int, dx: int, dy: int, n: nat)
    ensures var k := StepsFrom(l, x, y, dx, dy, n);
      && (forall i :: 1 <= i <= k ==> !l.Blocked(Along(x, dx, i), Along(y, dy, i)))
      && (k < n ==> l.Blocked(Along(x, dx, k + 1), Along(y, dy, k + 1)))
    decreases n
  {
    hide Along;
    AlongNext(x, dx, 0);
    AlongNext(y, dy, 0);
    if n > 0 && !l.Blocked(x + dx, y + dy) {
      StepsMeaning(l, x + dx, y + dy, dx, dy, n - 1);
      var k := StepsFrom(l, x + dx, y + dy, dx, dy, n - 1);
      forall i | 1 <= i <= k + 1 ensures !l.Blocked(Along(x, dx, i), Along(y, dy, i)) {
        AlongNext(x, dx, i - 1);
        AlongNext(y, dy, i - 1);
      }
      AlongNext(x, dx, k + 1);
      AlongNext(y, dy, k + 1);
    }
  }

  /** Directional overlays and beams with a direction are carried, and no other source. */
  lemma CarriedSources(l: Level, s: Source)
    requires s.Range.Finite?
    ensures var carried := (s.System == OverlayDirectional || s.System == OverlayBeam)
                           && (s.Dir.east != s.Dir.west || s.Dir.north != s.Dir.south);
      CastSteps(l, s) == if carried then StepsFrom(l, s.X, s.Y, s.Dir.Dx(), s.Dir.Dy(), Max(CastLength(s), 0)) else 0
  {
  }

  /** North is up, east is right, opposite directions cancel. */
  lemma DirectionMeaning(d: Dir)
    ensures d.Dx() == (if d.east == d.west then 0 else if d.east then 1 else -1)
    ensures d.Dy() == (if d.north == d.south then 0 else if d.north then 1 else -1)
  {
  }

  // ---- the emitter a source becomes ----------------------------------------------------------------

  /** c is the value closest to x of those from lo to hi. */
  predicate Clamps(x: real, lo: real, hi: real, c: real) {
    lo <= c <= hi && (x < c ==> c == lo) && (x > c ==> c == hi)
  }

  /** The maximum range of the options, 16 unless it is a positive number. */
  function Cap(opts: Options): real { if Lights(opts.MaxRange) && opts.MaxRange.v > 0.0 then opts.MaxRange.v else 16.0 }

  predicate IsLeast(x: real, a: real, b: real) { x <= a && x <= b && (x == a || x == b) }

  /** A complex source shines with its own range, up to the cap, its own power and its own angle. */
  lemma ComplexEmitter(s: Source, opts: Options, k: int)
    requires Accepted(s, opts) && s.System == Complex
    ensures var e := Emitter(s, opts, k).src;
      && e.Range.Finite? && IsLeast(e.Range.v, s.Range.v, Cap(opts)) && e.Power == s.Power && e.Angle == s.Angle
      && Clamps(s.ShiftX, -3.0, 3.0, e.ShiftX) && Clamps(s.ShiftY, -3.0, 3.0, e.ShiftY)
  {
  }

  predicate IsHalf(r: real) { (r * 2.0).Floor as real == r * 2.0 }

  /** An overlay's range is rounded up to half tiles, between 1 and 6 and up to the cap; its power is an
      opacity that grows with it, by 120 of 255 per unit from 30 up to 230, with the same sign; a beam
      shines into 45 degrees, the others all around; a directional one is carried k tiles ahead. */
  lemma OverlayEmitter(s: Source, opts: Options, k: int)
    requires Accepted(s, opts) && IsOverlay(s)
    ensures var e := Emitter(s, opts, k).src;
      && e.Range.Finite? && e.Power.Finite?
      && (exists r :: IsHalf(r) && 1.0 <= r <= 6.0 && (r < 6.0 ==> r >= s.Range.v) && (r > 1.0 ==> r - 0.5 < s.Range.v)
                      && IsLeast(e.Range.v, r, Cap(opts)))
      && IsLeast(AbsR(e.Power.v) * 255.0, 230.0, AbsR(s.Power.v) * 120.0 + 30.0)
      && (e.Power.v < 0.0 <==> s.Power.v < 0.0)
      && e.Angle == (if s.System == OverlayBeam then 45.0 else 360.0)
      && (var steps := if s.System == Overlay then 0 else k;
          && Clamps(s.ShiftX + (steps * s.Dir.Dx()) as real, -3.0, 3.0, e.ShiftX)
          && Clamps(s.ShiftY + (steps * s.Dir.Dy()) as real, -3.0, 3.0, e.ShiftY))
  {
    var half := Ceil(s.Range.v * 2.0) as real / 2.0;
    var r := ClampF(half, 1.0, 6.0);
    HalfTiles(s.Range.v);
    assert IsHalf(1.0) && IsHalf(6.0) by { assert 1.0 * 2.0 == 2 as real && 6.0 * 2.0 == 12 as real; }
    assert IsHalf(r) && 1.0 <= r <= 6.0 && (r < 6.0 ==> r >= s.Range.v) && (r > 1.0 ==> r - 0.5 < s.Range.v);
    assert IsLeast(Emitter(s, opts, k).src.Range.v, r, Cap(opts));
  }

  lemma HalfTiles(x: real)
    ensures var half := Ceil(x * 2.0) as real / 2.0; IsHalf(half) && half >= x && half - 0.5 < x
  {
    var n := Ceil(x * 2.0);
    assert (n as real / 2.0) * 2.0 == n as real;
  }

  /** n is x rounded up to a whole number. */
  predicate RoundsUp(x: real, n: int) { n as real - 1.0 < x <= n as real }

  /** Nothing else of the source changes, and the view is as wide as range and shift together, in
      whole tiles. */
  lemma EmitterFrame(s: Source, opts: Options, k: int)
    requires Accepted(s, opts)
    ensures var e := Emitter(s, opts, k);
      && e.src == s.(ShiftX := e.src.ShiftX, ShiftY := e.src.ShiftY, Range := e.src.Range, Power := e.src.Power,
                     Angle := e.src.Angle)
      && exists m :: RoundsUp(MaxR(AbsR(e.src.ShiftX), AbsR(e.src.ShiftY)), m)
                     && RoundsUp(e.src.Range.v + m as real, e.wr)
  {
    var e := Emitter(s, opts, k);
    var m := Max(Ceil(AbsR(e.src.ShiftX)), Ceil(AbsR(e.src.ShiftY)));
    assert RoundsUp(MaxR(AbsR(e.src.ShiftX), AbsR(e.src.ShiftY)), m) && RoundsUp(e.src.Range.v + m as real, e.wr);
  }

  // ---- how bright ------------------------------------------------------------------------------------

  /** The distance to a light standing `height` above the floor. */
  function Far(t: Trig, dx: real, dy: real, height: real): real { t.sqrt(MaxR(0.0, dx * dx + dy * dy + height)) }

  /** Without a cone the light falls linearly from 1 at the source to 0 at its range, one tile at least. */
  lemma RoundFalloff(t: Trig, dx: real, dy: real, height: real, range: real, dir: Dir, angle: real)
    requires IsRoot(t) && (angle >= 360.0 || angle <= 0.0)
    ensures var d, reach, f := Far(t, dx, dy, height), MaxR(1.0, range), Falloff(t, dx, dy, height, range, dir, angle);
      f * reach == if d <= reach then reach - d else 0.0
  {
    var d, reach := Far(t, dx, dy, height), MaxR(1.0, range);
    assert d >= 0.0;
    QuotientIs(d, reach);
  }

  lemma QuotientIs(a: real, b: real)
    requires a >= 0.0 && b > 0.0
    ensures (a / b) * b == a && a / b >= 0.0 && (a <= b <==> a / b <= 1.0)
  {
    var q := a / b;
    assert q * b == a;
    if q < 0.0 { NegativeProduct(q, b); }
    if q <= 1.0 { ProductBelow(q, b); } else { ProductAbove(q, b); }
  }

  lemma NegativeProduct(q: real, b: real)
    requires q < 0.0 && b > 0.0
    ensures q * b < 0.0
  {
  }

  lemma ProductBelow(q: real, b: real)
    requires q <= 1.0 && b > 0.0
    ensures q * b <= b
  {
    assert (1.0 - q) * b >= 0.0;
  }

  lemma ProductAbove(q: real, b: real)
    requires q > 1.0 && b > 0.0
    ensures q * b > b
  {
    assert (q - 1.0) * b > 0.0;
  }

  /** The smaller of the two angles between two bearings. */
  predicate Between(a: real, b: real, delta: real) {
    0.0 <= delta <= 180.0 && (delta == AbsR(a - b) || delta == 360.0 - AbsR(a - b))
  }

  /** In a cone the light is that of a round source up to half the angle off its direction, none from
      30 degrees further on, and falls linearly in between. */
  lemma ConeFalloff(t: Trig, dx: real, dy: real, height: real, range: real, dir: Dir, angle: real, delta: real)
    requires IsRoot(t) && 0.0 < angle < 360.0 && 0.0 <= t.bearing(dx, dy) <= 360.0
    requires Between(DirAngle(dir), t.bearing(dx, dy), delta)
    ensures var f, full := Falloff(t, dx, dy, height, range, dir, angle), Falloff(t, dx, dy, height, range, dir, 360.0);
      && (delta <= angle / 2.0 ==> f == full)
      && (delta >= angle / 2.0 + 30.0 ==> f == 0.0)
      && (angle / 2.0 <= delta <= angle / 2.0 + 30.0 ==> f * 30.0 == full * (30.0 - (delta - angle / 2.0)))
  {
    hide Falloff, Between;
    var full := Falloff(t, dx, dy, height, range, dir, 360.0);
    FullPositive(t, dx, dy, height, range, dir);
    ConeIs(t, dx, dy, height, range, dir, angle, delta);
    FadesFrom(full, delta, angle / 2.0);
  }

  lemma FadesFrom(full: real, delta: real, half: real)
    requires full >= 0.0
    ensures var f := MaxR(full * (1.0 - MaxR(delta - half, 0.0) / 30.0), 0.0);
      && (delta <= half ==> f == full) && (delta >= half + 30.0 ==> f == 0.0)
      && (half <= delta <= half + 30.0 ==> f * 30.0 == full * (30.0 - (delta - half)))
  {
    var off := MaxR(delta - half, 0.0);
    Fades(full, off);
    if delta >= half { assert off == delta - half; }
  }

  lemma ConeIs(t: Trig, dx: real, dy: real, height: real, range: real, dir: Dir, angle: real, delta: real)
    requires 0.0 < angle < 360.0 && 0.0 <= t.bearing(dx, dy) <= 360.0
    requires Between(DirAngle(dir), t.bearing(dx, dy), delta)
    ensures var off := MaxR(delta - angle / 2.0, 0.0);
      Falloff(t, dx, dy, height, range, dir, angle) ==
        MaxR(Falloff(t, dx, dy, height, range, dir, 360.0) * (1.0 - off / 30.0), 0.0)
  {
    DirAngleRange(dir);
    var turn := AbsR(DirAngle(dir) - t.bearing(dx, dy));
    hide DirAngle;
    assert (if turn > 180.0 then 180.0 - (turn - 180.0) else turn) == delta;
  }

  /** A light that fades over 30 degrees. */
  lemma Fades(full: real, off: real)
    requires full >= 0.0 && off >= 0.0
    ensures var f := MaxR(full * (1.0 - off / 30.0), 0.0);
      (off == 0.0 ==> f == full) && (off >= 30.0 ==> f == 0.0) && (off <= 30.0 ==> f * 30.0 == full * (30.0 - off))
  {
    var share := 1.0 - off / 30.0;
    if share >= 0.0 { ProductSign(full, share); } else { ProductSign(full, -share); }
    assert (full * share) * 30.0 == full * (30.0 - off);
  }

  lemma ProductSign(a: real, b: real)
    requires a >= 0.0 && b >= 0.0
    ensures a * b >= 0.0 && a * (-b) <= 0.0
  {
  }

  lemma FullPositive(t: Trig, dx: real, dy: real, height: real, range: real, dir: Dir)
    ensures 0.0 <= Falloff(t, dx, dy, height, range, dir, 360.0) <= 1.0
  {
  }

  lemma DirAngleRange(d: Dir)
    ensures 0.0 <= DirAngle(d) <= 315.0
  {
  }

  /** A quarter turn clockwise: north to east to south to west. */
  function TurnedDir(d: Dir): Dir { Dir(d.west, d.east, d.north, d.south) }

  /** North is 0 degrees, north-east 45, and a quarter turn clockwise is 90 degrees more. */
  lemma DirAngleMeaning(d: Dir)
    requires Named(d) == 1 || (Named(d) == 2 && (d.north != d.south) && (d.east != d.west))
    ensures DirAngle(Dir(true, false, false, false)) == 0.0 && DirAngle(Dir(true, false, true, false)) == 45.0
    ensures DirAngle(TurnedDir(d)) == DirAngle(d) + 90.0 || DirAngle(TurnedDir(d)) == DirAngle(d) - 270.0
  {
  }

  /** Every colour of a corner grows by falloff times power times the colour of the source. */
  lemma DepositMeaning(t: Trig, c: RGB, e: EffSource, i: int, j: int)
    requires e.src.Range.Finite? && e.src.Power.Finite?
    ensures var s := e.src;
      var f := Falloff(t, i as real - 0.5 - (s.X as real + s.ShiftX), j as real - 0.5 - (s.Y as real + s.ShiftY),
                       s.Height,
                       s.Range.v, s.Dir, s.Angle) * s.Power.v;
      var d := Deposit(t, c, e, i, j);
      d.R - c.R == f * s.Color.R && d.G - c.G == f * s.Color.G && d.B - c.B == f * s.Color.B
  {
    hide Falloff;
    var s := e.src;
    assert (i - s.X) as real - 0.5 - s.ShiftX == i as real - 0.5 - (s.X as real + s.ShiftX);
    assert (j - s.Y) as real - 0.5 - s.ShiftY == j as real - 0.5 - (s.Y as real + s.ShiftY);
  }

  // ---- derived sources -------------------------------------------------------------------------------

  predicate NextTo(x: int, y: int, nx: int, ny: int) {
    (nx != x || ny != y) && -1 <= nx - x <= 1 && -1 <= ny - y <= 1
  }

  /** Where starlight is on, exactly the space tiles next to a tile that is not space give off light: a
      round, complex source of the starlight's range, power and colour, half a unit below the floor. */
  lemma StarMeaning(l: Level, x: int, y: int)
    requires l.Valid() && l.Inside(x, y)
    ensures var star := l.Starlight;
      var shines := star.Enabled && SpaceAt(l, x, y)
                    && exists nx, ny :: NextTo(x, y, nx, ny) && l.Inside(nx, ny) && !SpaceAt(l, nx, ny);
      && |StarAt(l, x, y)| == (if shines then 1 else 0)
      && (shines ==> var s := StarAt(l, x, y)[0];
                     && s.X == x && s.Y == y && s.ShiftX == 0.0 && s.ShiftY == 0.0 && s.Range == star.Range
                     && s.Power == star.Power && s.Color == star.Color && s.System == Complex && s.Angle == 360.0
                     && s.Height == -0.5)
  {
    assert HasNonSpaceNeighbour(l, x, y) <==>
      exists nx, ny :: NextTo(x, y, nx, ny) && l.Inside(nx, ny) && !SpaceAt(l, nx, ny) by { StarNeighbour(l, x, y); }
  }

  lemma StarNeighbour(l: Level, x: int, y: int)
    requires l.Valid()
    ensures HasNonSpaceNeighbour(l, x, y) <==>
      exists nx, ny :: NextTo(x, y, nx, ny) && l.Inside(nx, ny) && !SpaceAt(l, nx, ny)
  {
    if HasNonSpaceNeighbour(l, x, y) {
      var nx, ny :| (nx != x || ny != y) && Abs(nx - x) <= 1 && Abs(ny - y) <= 1 && l.Inside(nx, ny) &&
        NonSpaceTest(l)(nx, ny);
      assert NextTo(x, y, nx, ny);
    }
    if nx, ny :| NextTo(x, y, nx, ny) && l.Inside(nx, ny) && !SpaceAt(l, nx, ny) {
      assert NonSpaceTest(l)(nx, ny);
    }
  }

  /** Exactly the emitting edge tiles next to a tile of another family, or of none, give off their
      light, from their own place. */
  lemma EdgeMeaning(l: Level, x: int, y: int)
    requires l.Valid() && l.Inside(x, y)
    ensures var edge := EdgeAt(l, x, y);
      var shines := edge.Some? && edge.value.Emits
                    && exists nx, ny :: NextTo(x, y, nx, ny) && l.Inside(nx, ny)
                                        && (EdgeAt(l, nx, ny).None? ||
                                            EdgeAt(l, nx, ny).value.Family != edge.value.Family);
      EdgeSourceAt(l, x, y) == if shines then [edge.value.Source.(X := x, Y := y)] else []
  {
    if EdgeAt(l, x, y).Some? { EdgeNeighbour(l, x, y, EdgeAt(l, x, y).value.Family); }
  }

  lemma EdgeNeighbour(l: Level, x: int, y: int, family: int)
    requires l.Valid()
    ensures BordersOtherFamily(l, x, y, family) <==>
      exists nx, ny :: NextTo(x, y, nx, ny) && l.Inside(nx, ny)
                       && (EdgeAt(l, nx, ny).None? || EdgeAt(l, nx, ny).value.Family != family)
  {
    if BordersOtherFamily(l, x, y, family) {
      var nx, ny :| (nx != x || ny != y) && Abs(nx - x) <= 1 && Abs(ny - y) <= 1 && l.Inside(nx, ny) &&
        OtherFamilyTest(l, family)(nx, ny);
      assert NextTo(x, y, nx, ny);
    }
    if nx, ny :| NextTo(x, y, nx, ny) && l.Inside(nx, ny) && OtherFamilyTest(l, family)(nx, ny) {
      assert SomeNeighbour(l, x, y, OtherFamilyTest(l, family));
    }
  }

  /** The number stored for a tile counts the edge lights from 1; 0 and numbers beyond the list are no
      edge. */
  lemma EdgeAtMeaning(l: Level, x: int, y: int)
    requires l.Valid() && l.Inside(x, y)
    ensures EdgeAt(l, x, y).Some? <==> l.Edge.Some? && 1 <= l.Edge.value[y][x] <= |l.EdgeLights|
    ensures EdgeAt(l, x, y).Some? ==> EdgeAt(l, x, y).value == l.EdgeLights[l.Edge.value[y][x] - 1]
  {
  }
}
