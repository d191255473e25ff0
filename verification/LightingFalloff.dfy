/** The deposits of the code (internal/aphelion/lighting: falloff.go, compute.go:215-237): when Update
    is exact for them, and a beam for which it is not. */
module LightingFalloff {
  import opened Basics
  import opened LightingTypes
  import opened ShadowCast
  import opened LightingSum
  import opened LightingIncremental

  /** The square root and the bearing in degrees, clockwise from north. */
  datatype Trig = Trig(sqrt: real -> real, bearing: (real, real) -> real)

  /** Degrees of the eight directions; any other mask counts as zero. */
  function DirAngle(d: Dir): real {
    match d
    case Dir(true, false, false, false) => 0.0
    case Dir(false, true, false, false) => 180.0
    case Dir(false, false, true, false) => 90.0
    case Dir(false, false, false, true) => 270.0
    case Dir(true, false, true, false) => 45.0
    case Dir(false, true, true, false) => 135.0
    case Dir(true, false, false, true) => 315.0
    case Dir(false, true, false, true) => 225.0
    case _ => 0.0
  }

  function MaxR(x: real, y: real): real { if x >= y then x else y }

  /** Falloff: linear in the distance, and outside a cone linear in the angle. */
  function Falloff(t: Trig, dx: real, dy: real, height: real, range: real, dir: Dir, angle: real): real {
    var divisor := MaxR(1.0, range);
    var radicand := MaxR(0.0, dx * dx + dy * dy + height);
    var multiplier := 1.0 - ClampF(t.sqrt(radicand) / divisor, 0.0, 1.0);
    if angle >= 360.0 || angle <= 0.0 then multiplier
    else
      var turn := AbsR(DirAngle(dir) - t.bearing(dx, dy));
      var delta := if turn > 180.0 then 180.0 - (turn - 180.0) else turn;
      MaxR(multiplier * (1.0 - MaxR(delta - angle / 2.0, 0.0) / 30.0), 0.0)
  }

  /** What an emitter standing on tile (0, 0) adds to corner (u, v), per unit of colour. */
  function FactorAt(t: Trig, e: EffSource, u: int, v: int): real {
    var s := e.src;
    if s.Range.NotFinite? || s.Power.NotFinite? then 0.0
    else Falloff(t, u as real - 0.5 - s.ShiftX, v as real - 0.5 - s.ShiftY, s.Height, s.Range.v, s.Dir,
                 s.Angle) * s.Power.v
  }

  function Brighter(c: RGB, f: real, color: RGB): RGB { RGB(c.R + f * color.R, c.G + f * color.G, c.B + f * color.B) }

  /** addSource: one deposit, skipped when the factor is zero. */
  function Deposit(t: Trig, c: RGB, e: EffSource, i: int, j: int): RGB {
    var f := FactorAt(t, e, i - e.src.X, j - e.src.Y);
    if f == 0.0 then c else Brighter(c, f, e.src.Color)
  }

  ghost function CodeOptics(t: Trig): Optics<RGB> { Optics(RGB(0.0, 0.0, 0.0), (c, e, i, j) => Deposit(t, c, e, i, j)) }

  // ---- what the code sees of an emitter ---------------------------------------------------------

  /** The amounts of the three colours that a corner receives. */
  function AmountAt(t: Trig, e: EffSource, u: int, v: int): RGB {
    Brighter(RGB(0.0, 0.0, 0.0), FactorAt(t, e, u, v), e.src.Color)
  }

  function CodeLook(t: Trig): Look<RGB> {
    (e: EffSource, u: int, v: int) =>
      if AmountAt(t, e, u, v) == RGB(0.0, 0.0, 0.0) then None else Some(AmountAt(t, e, u, v))
  }

  lemma AmountAnywhere(t: Trig, e: EffSource, u: int, v: int)
    ensures AmountAt(t, AtOrigin(e), u, v) == AmountAt(t, e, u, v)
  {
  }

  /** What corner (i, j) receives. */
  function AmountOf(t: Trig, e: EffSource, i: int, j: int): RGB { AmountAt(t, AtOrigin(e), i - e.src.X, j - e.src.Y) }

  lemma CodeSees(t: Trig, e: EffSource, i: int, j: int)
    ensures var a := AmountOf(t, e, i, j);
      Tint(CodeLook(t), e, i, j) == if a == RGB(0.0, 0.0, 0.0) then None else Some(Seen(e.src.X, e.src.Y, a))
  {
    hide AmountAt;
  }

  lemma CodeAdds(t: Trig, c: RGB, e: EffSource, i: int, j: int)
    ensures var a := AmountOf(t, e, i, j);
      CodeOptics(t).deposit(c, e, i, j) == RGB(c.R + a.R, c.G + a.G, c.B + a.B)
  {
    hide FactorAt;
    AmountAnywhere(t, e, i - e.src.X, j - e.src.Y);
  }

  /** The deposits of the code depend only on the amounts, and tell them apart. */
  lemma CodeRespects(t: Trig)
    ensures Respects(CodeOptics(t), CodeLook(t)) && Tells(CodeOptics(t), CodeLook(t))
  {
    hide CodeOptics, CodeLook, Tint, AmountOf;
    var op, look := CodeOptics(t), CodeLook(t);
    assert op.dark == RGB(0.0, 0.0, 0.0) by { CodeDark(t); }
    forall c, e, i, j
      ensures var a := AmountOf(t, e, i, j); op.deposit(c, e, i, j) == RGB(c.R + a.R, c.G + a.G, c.B + a.B)
    {
      CodeAdds(t, c, e, i, j);
    }
    forall e, i, j
      ensures var a := AmountOf(t, e, i, j);
        Tint(look, e, i, j) == if a == RGB(0.0, 0.0, 0.0) then None else Some(Seen(e.src.X, e.src.Y, a))
    {
      CodeSees(t, e, i, j);
    }
  }

  lemma CodeDark(t: Trig)
    ensures CodeOptics(t).dark == RGB(0.0, 0.0, 0.0)
  {
  }

  // ---- the rim of a view is dark ----------------------------------------------------------------

  ghost predicate IsRoot(t: Trig) { forall x :: x >= 0.0 ==> t.sqrt(x) >= 0.0 && t.sqrt(x) * t.sqrt(x) == x }

  lemma SquareGrows(q: real, r: real)
    requires 0.0 <= q <= r
    ensures q * q <= r * r && (q < r ==> q * q < r * r)
  {
    var d := r - q;
    assert r * r == q * q + 2.0 * (q * d) + d * d;
    assert q * d >= 0.0;
    if d > 0.0 { assert d * d > 0.0; }
  }

  lemma SquareOrder(q: real, r: real)
    requires q >= 0.0 && r >= 0.0
    ensures q < r <==> q * q < r * r
  {
    if q < r { SquareGrows(q, r); } else { SquareGrows(r, q); }
  }

  lemma RootAtLeast(t: Trig, x: real, r: real)
    requires IsRoot(t) && r >= 0.0 && x >= 0.0
    ensures t.sqrt(x) >= r <==> x >= r * r
  {
    SquareOrder(t.sqrt(x), r);
  }

  lemma FalloffEnds(t: Trig, dx: real, dy: real, height: real, range: real, dir: Dir, angle: real)
    requires IsRoot(t) && height >= -1.25
    requires var far := MaxR(1.0, range) + 0.5; dx >= far || dx <= -far || dy >= far || dy <= -far
    ensures Falloff(t, dx, dy, height, range, dir, angle) == 0.0
  {
    hide DirAngle;
    var end := MaxR(1.0, range);
    Square(dx, dy, end);
    var x := MaxR(0.0, dx * dx + dy * dy + height);
    assert x >= end * end;
    RootAtLeast(t, x, end);
    Quotient(t.sqrt(x), end);
    assert 1.0 - ClampF(t.sqrt(x) / end, 0.0, 1.0) == 0.0;
  }

  lemma Quotient(q: real, d: real)
    requires q >= d > 0.0
    ensures q / d >= 1.0
  {
  }

  lemma Square(x: real, y: real, r: real)
    requires r >= 1.0 && (x >= r + 0.5 || x <= -r - 0.5 || y >= r + 0.5 || y <= -r - 0.5)
    ensures x * x + y * y >= r * r + 1.25
  {
    FarSquare(x, r);
    FarSquare(y, r);
  }

  lemma FarSquare(x: real, r: real)
    requires r >= 1.0
    ensures x * x >= 0.0
    ensures x >= r + 0.5 || x <= -r - 0.5 ==> x * x >= r * r + 1.25
  {
    if x >= r + 0.5 || x <= -r - 0.5 {
      SquareGrows(r + 0.5, AbsR(x));
      assert (r + 0.5) * (r + 0.5) == r * r + r + 0.25;
    }
  }

  /** Light shown at a corner comes from a view that holds all tiles around it. */
  lemma ShownIsInner(t: Trig, s: Source, opts: Options, k: int, u: int, v: int)
    requires IsRoot(t) && Moves(s, opts) && s.Height >= -1.25
    ensures Shown(CodeLook(t), Emitter(s, opts, k), u, v).Some? ==> Inner(Emitter(s, opts, k), u, v)
  {
    hide Falloff, Emitter, AtOrigin;
    var e := Emitter(s, opts, k);
    EmitterSize(s, opts, k);
    if InView(e, u, v) && !Inner(e, u, v) {
      var dx, dy := u as real - 0.5 - e.src.ShiftX, v as real - 0.5 - e.src.ShiftY;
      FalloffEnds(t, dx, dy, e.src.Height, e.src.Range.v, e.src.Dir, e.src.Angle);
      AmountAnywhere(t, e, u, v);
    }
  }

  lemma EmitterSize(s: Source, opts: Options, k: int)
    requires Moves(s, opts)
    ensures var e := Emitter(s, opts, k);
      && e.src.Range.Finite? && e.src.Height == s.Height
      && e.wr as real >= MaxR(1.0, e.src.Range.v) + AbsR(e.src.ShiftX)
      && e.wr as real >= MaxR(1.0, e.src.Range.v) + AbsR(e.src.ShiftY)
  {
  }

  lemma CodeRimTold(t: Trig, s: Source, opts: Options)
    requires IsRoot(t) && s.Height >= -1.25
    ensures RimTold(s, opts, CodeLook(t))
  {
    hide Emitter, Shown, Inner, Followed, CastLength;
    if Moves(s, opts) {
      forall k, u, v
        ensures Shown(CodeLook(t), Emitter(s, opts, k), u, v).Some? ==> Inner(Emitter(s, opts, k), u, v)
      {
        ShownIsInner(t, s, opts, k, u, v);
      }
    }
  }

  // ---- the sums of the code ---------------------------------------------------------------------

  /** Update equals a fresh Compute for every edit of a level whose directional casts fit the
      amounts of the code. */
  lemma CodeUpdateEqualsCompute(t: Trig, opts: Options, l: Level, l': Level, dirty: Rect, i: int, j: int)
    requires IsRoot(t) && EditWithin(l, l', dirty) && CornerRect(l).Has(i, j)
    requires forall s :: s in l.Sources ==> CastFits(s, opts, CodeLook(t)) && s.Height >= -1.25
    requires forall e :: e in l.EdgeLights ==> CastFits(e.Source, opts, CodeLook(t)) && e.Source.Height >= -1.25
    ensures Updated(CodeOptics(t), l', opts, dirty, Computed(CodeOptics(t), l, opts, i, j), i, j)
         == Computed(CodeOptics(t), l', opts, i, j)
  {
    hide EditWithin, Updated, Computed, CodeLook, CodeOptics, Respects, Tells, CastFits, RimTold;
    CodeRespects(t);
    forall s | s in l.Sources ensures Suits(s, opts, CodeLook(t)) { CodeRimTold(t, s, opts); }
    forall e | e in l.EdgeLights ensures Suits(e.Source, opts, CodeLook(t)) { CodeRimTold(t, e.Source, opts); }
    UpdateEqualsCompute(CodeOptics(t), opts, CodeLook(t), l, l', dirty, i, j);
  }

  /** The code's Update is exact for every edit of every level lit by copies of `s` if and only if
      casts of different length bring the same amounts to every corner that is not redrawn. */
  lemma CodeIsExact(t: Trig, s: Source, opts: Options)
    requires IsRoot(t) && s.Height >= -1.25
    ensures CastFits(s, opts, CodeLook(t)) <==>
      forall l, l', dirty, i, j ::
        (EditWithin(l, l', dirty) && OnlySource(l, s) && OnlySource(l', s) && CornerRect(l).Has(i, j)) ==>
        !Stale(CodeOptics(t), opts, l, l', dirty, i, j)
  {
    hide Stale, CodeLook, CodeOptics, Respects, Tells, CastFits, RimTold, OnlySource, EditWithin;
    CodeRespects(t);
    CodeRimTold(t, s, opts);
    CastFitsIsExact(CodeOptics(t), s, opts, CodeLook(t));
  }

  // ---- a beam whose cast does not fit -----------------------------------------------------------

  /** An eastward beam of range 80 drawn 30 tiles behind its atom, on tile (50, 50). */
  function Beam(): Source {
    Source(50, 50, -30.0, 0.0, Finite(80.0), Finite(1.0), RGB(1.0, 1.0, 1.0), Dir(false, false, true, false), 360.0,
           0.0, OverlayBeam)
  }

  function BeamOptions(): Options { Options(Finite(1.0), true) }

  lemma BeamEmitters()
    ensures Beam().X == 50 && Beam().Y == 50 && Moves(Beam(), BeamOptions()) && CastLength(Beam()) == 40 &&
      Reach(BeamOptions()) == 5
    ensures var strength := Finite(150.0 / 255.0);
      && Emitter(Beam(), BeamOptions(), 30) ==
        EffSource(Beam().(ShiftX := 0.0, Range := Finite(1.0), Power := strength, Angle := 45.0), 1)
      && Emitter(Beam(), BeamOptions(), 29) ==
        EffSource(Beam().(ShiftX := -1.0, Range := Finite(1.0), Power := strength, Angle := 45.0), 2)
  {
    assert Beam().Dir.Dx() == 1 && Beam().Dir.Dy() == 0;
  }

  /** After 30 tiles the beam lights the corner in front of its atom, after 29 it does not. */
  lemma BeamFactors(t: Trig)
    requires IsRoot(t) && t.bearing(0.5, 0.5) == 45.0
    ensures FactorAt(t, Emitter(Beam(), BeamOptions(), 30), 1, 1) > 0.0
    ensures FactorAt(t, Emitter(Beam(), BeamOptions(), 29), 1, 1) == 0.0
  {
    hide Emitter;
    BeamEmitters();
    var q := t.sqrt(0.5);
    RootAtLeast(t, 0.5, 1.0);
    RootAtLeast(t, 2.5, 1.0);
    var lit := 1.0 - q;
    assert Falloff(t, 0.5, 0.5, 0.0, 1.0, Beam().Dir, 45.0) == MaxR(lit * 0.25, 0.0);
    assert Falloff(t, 1.5, 0.5, 0.0, 1.0, Beam().Dir, 45.0) == 0.0;
  }

  /** So the corner is shown light by the one and none by the other. */
  lemma BeamShown(t: Trig)
    requires IsRoot(t) && t.bearing(0.5, 0.5) == 45.0
    ensures Shown(CodeLook(t), Emitter(Beam(), BeamOptions(), 30), 1, 1).Some?
    ensures Shown(CodeLook(t), Emitter(Beam(), BeamOptions(), 29), 1, 1).None?
  {
    hide Emitter, FactorAt, CastLength;
    BeamEmitters();
    BeamFactors(t);
    AmountAnywhere(t, Emitter(Beam(), BeamOptions(), 30), 1, 1);
    AmountAnywhere(t, Emitter(Beam(), BeamOptions(), 29), 1, 1);
  }

  /** The claim of the source comment is not unconditional. A wall raised 30 tiles ahead of the beam,
      one tile before another wall, pulls its light back by one tile: a fresh Compute leaves corner
      (51, 51) dark, Update keeps the old light there. */
  lemma BeamIsStale(t: Trig)
    requires IsRoot(t) && t.bearing(0.5, 0.5) == 45.0
    ensures var far, near := (81, 50), (80, 50);
      var l, l', dirty := Arena(50, Beam(), {far}), Arena(50, Beam(), {near, far}), Rect(80, 50, 81, 51);
      && EditWithin(l, l', dirty) && CornerRect(l).Has(51, 51)
      && Computed(CodeOptics(t), l', BeamOptions(), 51, 51) == CodeOptics(t).dark
      && Stale(CodeOptics(t), BeamOptions(), l, l', dirty, 51, 51)
      && !CastFits(Beam(), BeamOptions(), CodeLook(t))
  {
    hide Emitter, Computed, CastLength, CastFits, Respects, Tells, Shown, CodeOptics, CodeLook, Stale, EditWithin,
         Followed,
         Arena, Walled, AheadRect, Beam, BeamOptions, Moves;
    BeamEmitters();
    BeamShown(t);
    CodeRespects(t);
    BeamWalls();
    BeamNotFollowed();
    PairIsStale(CodeOptics(t), 50, Beam(), BeamOptions(), CodeLook(t), 29, 30, 1, 1);
    BeamUnfit(t);
  }

  lemma BeamWalls()
    ensures var far, near := (81, 50), (80, 50);
      && Walled(50, Beam(), 30, 30) == Arena(50, Beam(), {far}) &&
        Walled(50, Beam(), 29, 30) == Arena(50, Beam(), {near, far})
      && AheadRect(50, Beam(), 29) == Rect(80, 50, 81, 51)
  {
    hide Arena;
    assert {(80, 50)} + {(81, 50)} == {(80, 50), (81, 50)};
    assert Ahead(50, 1, 0, 31) == (81, 50) && Ahead(50, 1, 0, 30) == (80, 50);
  }

  lemma BeamNotFollowed()
    ensures !Followed(Beam(), BeamOptions(), 29, 1, 1)
  {
    hide CastLength;
    BeamEmitters();
  }

  lemma BeamUnfit(t: Trig)
    requires IsRoot(t) && t.bearing(0.5, 0.5) == 45.0
    ensures !CastFits(Beam(), BeamOptions(), CodeLook(t))
  {
    hide Emitter, CastLength, Shown, CodeLook, Followed;
    BeamEmitters();
    BeamShown(t);
    BeamNotFollowed();
    assert !PairFits(Beam(), BeamOptions(), CodeLook(t), 29, 30);
  }
}
