/** Rectangles and ellipses as selections (internal/aphelion/editing/shape.go:11-100). */
module Shapes {
  import opened Basics
  import opened Runs
  import opened SelectionModel
  import opened RotateSelections

  datatype ShapeKind = ShapeRectangle | ShapeEllipse | ShapeCircle

  datatype ShapeDescriptor = ShapeDescriptor(Kind: ShapeKind, Width: int, Height: int, Outline: bool, Thickness: int)

  function Sq(a: int): int { a * a }

  /** The integer test: the centre of row y of column x lies in the ellipse inset on every side. */
  predicate InEllipse(x: int, w: int, h: int, inset: int, y: int) {
    var iw, ih := w - 2 * inset, h - 2 * inset;
    iw > 0 && ih > 0 && Sq(2 * x - w - 1) * Sq(ih) + Sq(2 * y - h - 1) * Sq(iw) <= Sq(iw) * Sq(ih)
  }

  lemma SqMonotone(a: int, b: int)
    requires Abs(a) <= Abs(b)
    ensures Sq(a) <= Sq(b)
  {
    MulMonotone(Abs(a), Abs(b), Abs(a));
    MulMonotone(Abs(a), Abs(b), Abs(b));
  }

  lemma MulMonotone(a: int, b: int, c: int)
    requires a <= b && c >= 0
    ensures a * c <= b * c
  {
  }

  lemma SqNonNegative(a: int)
    ensures Sq(a) >= 0
  {
  }

  /** Rows closer to the middle are inside whenever farther ones are. */
  lemma CloserIsInside(x: int, w: int, h: int, inset: int, y: int, y': int)
    requires InEllipse(x, w, h, inset, y) && Abs(2 * y' - h - 1) <= Abs(2 * y - h - 1)
    ensures InEllipse(x, w, h, inset, y')
  {
    hide Sq;
    var iw := w - 2 * inset;
    SqMonotone(2 * y' - h - 1, 2 * y - h - 1);
    SqNonNegative(iw);
    MulMonotone(Sq(2 * y' - h - 1), Sq(2 * y - h - 1), Sq(iw));
  }

  /** An inset ellipse has no cells in the columns of its border. */
  lemma InsetColumns(x: int, w: int, h: int, inset: int, y: int)
    requires InEllipse(x, w, h, inset, y)
    ensures inset < x <= w - inset
  {
    var iw, ih, x2 := w - 2 * inset, h - 2 * inset, 2 * x - w - 1;
    if Abs(x2) > iw {
      ColumnTooFar(x2, iw, ih, 2 * y - h - 1);
    }
  }

  lemma SqStrict(a: int, b: int)
    requires Abs(a) > Abs(b)
    ensures Sq(a) > Sq(b)
  {
    SqMonotone(Abs(b) + 1, a);
    assert Sq(Abs(b) + 1) == Sq(b) + 2 * Abs(b) + 1;
  }

  lemma ColumnTooFar(x2: int, iw: int, ih: int, y2: int)
    requires Abs(x2) > iw > 0 && ih > 0
    ensures Sq(x2) * Sq(ih) + Sq(y2) * Sq(iw) > Sq(iw) * Sq(ih)
  {
    hide Sq;
    SqStrict(x2, iw);
    SqStrict(ih, 0);
    SqNonNegative(0);
    SqNonNegative(y2);
    SqNonNegative(iw);
    StrictMul(Sq(iw), Sq(x2), Sq(ih));
    MulMonotone(0, Sq(y2), Sq(iw));
  }

  lemma StrictMul(a: int, b: int, c: int)
    requires a < b && c >= 1
    ensures a * c < b * c
  {
    MulMonotone(a + 1, b, c);
    assert (a + 1) * c == a * c + c;
  }

  function CeilHalf(v: real): int { -((-v / 2.0).Floor) }

  /** The middle row decides whether the column is empty. */
  lemma MiddleDecides(x: int, w: int, h: int, inset: int, m: int, y: int)
    requires 1 <= h && 1 <= y <= h && h + 1 <= 2 * m <= h + 2 && InEllipse(x, w, h, inset, y)
    ensures InEllipse(x, w, h, inset, m)
  {
    CloserIsInside(x, w, h, inset, y, m);
  }

  /** The first inside row and its mirror image bound exactly the inside rows. */
  lemma SpanIsExact(x: int, w: int, h: int, inset: int, low: int, y: int)
    requires 1 <= low <= h && InEllipse(x, w, h, inset, low) && (low > 1 ==> !InEllipse(x, w, h, inset, low - 1))
    requires 1 <= y <= h
    ensures low <= h + 1 - low
    ensures low <= y <= h + 1 - low <==> InEllipse(x, w, h, inset, y)
  {
    hide InEllipse;
    if 2 * low > h + 1 { CloserIsInside(x, w, h, inset, low, low - 1); }
    if low <= y <= h + 1 - low { CloserIsInside(x, w, h, inset, low, y); }
    if InEllipse(x, w, h, inset, y) && !(low <= y <= h + 1 - low) { CloserIsInside(x, w, h, inset, y, low - 1); }
  }

  /** ellipseSpan: whatever the square root returns, as long as it is not negative, the rows
      are exactly those of the integer inequality. */
  method EllipseSpan(x: int, w: int, h: int, inset: int, sqrt: real -> real) returns (low: int, high: int)
    requires w >= 1 && h >= 1 && forall v :: sqrt(v) >= 0.0
    ensures forall y :: 1 <= y <= h ==> (low <= y <= high <==> InEllipse(x, w, h, inset, y))
    ensures low <= high ==> 1 <= low && high == h + 1 - low
  {
    hide InEllipse;
    var iw, ih := w - 2 * inset, h - 2 * inset;
    if iw <= 0 || ih <= 0 {
      forall y ensures !InEllipse(x, w, h, inset, y) { NoInset(x, w, h, inset, y); }
      return 1, 0;
    }
    var x2, w2, h2 := 2 * x - w - 1, iw * iw, ih * ih;
    if x2 * x2 > w2 {
      forall y ensures !InEllipse(x, w, h, inset, y) { BeyondColumn(x, w, h, inset, y); }
      return 1, 0;
    }
    assert w2 != 0 by { NonZeroSquare(iw); }
    var radius := sqrt(h2 as real * (w2 - x2 * x2) as real / w2 as real);
    low := Max(1, CeilHalf((h + 1) as real - radius));
    EstimateInLowerHalf(h, radius);
    ghost var start := low;
    while low <= h && !InEllipse(x, w, h, inset, low)
      invariant start <= low <= h + 1
      invariant forall y :: start <= y < low ==> !InEllipse(x, w, h, inset, y)
    {
      low := low + 1;
    }
    if low == h + 1 {
      ghost var m := (h + 2) / 2;
      forall y | 1 <= y <= h ensures !InEllipse(x, w, h, inset, y) {
        if InEllipse(x, w, h, inset, y) { MiddleDecides(x, w, h, inset, m, y); }
      }
    }
    while low > 1 && InEllipse(x, w, h, inset, low - 1)
      invariant 1 <= low <= h + 1
      invariant low == h + 1 ==> forall y :: 1 <= y <= h ==> !InEllipse(x, w, h, inset, y)
      invariant low <= h ==> InEllipse(x, w, h, inset, low)
    {
      low := low - 1;
    }
    if low <= h {
      forall y | 1 <= y <= h ensures low <= y <= h + 1 - low <==> InEllipse(x, w, h, inset, y) {
        SpanIsExact(x, w, h, inset, low, y);
      }
    }
    return low, h + 1 - low;
  }

  lemma NoInset(x: int, w: int, h: int, inset: int, y: int)
    requires w - 2 * inset <= 0 || h - 2 * inset <= 0
    ensures !InEllipse(x, w, h, inset, y)
  {
  }

  lemma BeyondColumn(x: int, w: int, h: int, inset: int, y: int)
    requires w - 2 * inset > 0 && h - 2 * inset > 0
    requires (2 * x - w - 1) * (2 * x - w - 1) > (w - 2 * inset) * (w - 2 * inset)
    ensures !InEllipse(x, w, h, inset, y)
  {
    var x2, iw := 2 * x - w - 1, w - 2 * inset;
    if Abs(x2) <= iw { SqMonotone(x2, iw); }
    ColumnTooFar(x2, iw, h - 2 * inset, 2 * y - h - 1);
  }

  lemma NonZeroSquare(a: int)
    requires a > 0
    ensures a * a > 0
  {
  }

  lemma EstimateInLowerHalf(h: int, radius: real)
    requires radius >= 0.0 && h >= 1
    ensures 2 * Max(1, CeilHalf((h + 1) as real - radius)) <= h + 2
  {
  }

  // ---- shapes -----------------------------------------------------------------------------

  /** The whole shape, in cells counted from its lower left corner. */
  predicate InOuter(d: ShapeDescriptor, h: int, x: int, y: int) {
    1 <= x <= d.Width && 1 <= y <= h && (d.Kind == ShapeRectangle || InEllipse(x, d.Width, h, 0, y))
  }

  /** The shape left after removing a border of the given thickness. */
  predicate InInset(d: ShapeDescriptor, h: int, t: int, x: int, y: int) {
    if d.Kind == ShapeRectangle then t < x <= d.Width - t && t < y <= h - t
    else InEllipse(x, d.Width, h, t, y)
  }

  function HeightOf(d: ShapeDescriptor): int { if d.Kind == ShapeCircle then d.Width else d.Height }

  /** The shape a descriptor stands for. */
  predicate InShape(d: ShapeDescriptor, x: int, y: int) {
    InOuter(d, HeightOf(d), x, y) && (d.Outline ==> !InInset(d, HeightOf(d), Max(1, d.Thickness), x, y))
  }

  ghost predicate ShapeError(d: ShapeDescriptor, anchor: Point) {
    d.Width < 1 || d.Height < 1 || d.Width > MAX_MAP_DIMENSION || d.Height > MAX_MAP_DIMENSION || anchor.Z < 1
  }

  /** Runs of the columns up to x. */
  ghost predicate ColumnsDone(runs: seq<Bounds>, d: ShapeDescriptor, x: int) {
    && Canonical(runs) && (runs != [] ==> runs[|runs| - 1].X1 <= x)
    && forall u, v :: InRuns(runs, u, v) <==> u <= x && InShape(d, u, v)
  }

  /** appendRun: adds a nonempty span of column x. */
  method AppendSpan(runs: seq<Bounds>, x: int, y1: int, y2: int) returns (out: seq<Bounds>)
    requires Canonical(runs)
    requires y1 <= y2 && runs != [] ==>
      runs[|runs| - 1].X1 < x || (runs[|runs| - 1].X1 == x && runs[|runs| - 1].Y2 + 1 < y1)
    ensures Canonical(out) && CountRuns(out) == CountRuns(runs) + Max(0, y2 - y1 + 1)
    ensures out == if y1 <= y2 then runs + [Run(x, y1, y2)] else runs
    ensures forall u, v :: InRuns(out, u, v) <==> InRuns(runs, u, v) || (u == x && y1 <= v <= y2)
  {
    hide InRuns, CountRuns;
    out := runs;
    if y1 <= y2 {
      var r := Run(x, y1, y2);
      assert Extend(runs, r) == runs + [r];
      ExtendCanonical(runs, r);
      ExtendCount(runs, r);
      forall u, v ensures InRuns(runs + [r], u, v) <==> InRuns(runs, u, v) || (u == x && y1 <= v <= y2) {
        ExtendMembers(runs, r, u, v);
      }
      out := runs + [r];
    }
  }

  /** The rows of the whole shape in column x. */
  method OuterSpan(d: ShapeDescriptor, h: int, x: int, sqrt: real -> real) returns (low: int, high: int)
    requires 1 <= x <= d.Width && h >= 1 && (forall v :: sqrt(v) >= 0.0)
    ensures forall v :: InOuter(d, h, x, v) <==> 1 <= v <= h && low <= v <= high
    ensures low <= high ==> 1 <= low && high == h + 1 - low
  {
    hide InEllipse;
    low, high := 1, h;
    if d.Kind != ShapeRectangle { low, high := EllipseSpan(x, d.Width, h, 0, sqrt); }
  }

  /** The rows of the inset shape in column x. */
  method InnerSpan(d: ShapeDescriptor, h: int, t: int, x: int, sqrt: real -> real) returns (low: int, high: int)
    requires 1 <= x <= d.Width && h >= 1 && t >= 1 && (forall v :: sqrt(v) >= 0.0)
    ensures forall v :: 1 <= v <= h ==> (InInset(d, h, t, x, v) <==> low <= v <= high)
    ensures low <= high ==> 1 <= low && high == h + 1 - low
  {
    hide InEllipse;
    low, high := t + 1, h - t;
    if x <= t || x > d.Width - t {
      low, high := 1, 0;
      forall v ensures !InInset(d, h, t, x, v) {
        if d.Kind != ShapeRectangle && InEllipse(x, d.Width, h, t, v) { InsetColumns(x, d.Width, h, t, v); }
      }
    } else if d.Kind != ShapeRectangle {
      low, high := EllipseSpan(x, d.Width, h, t, sqrt);
    }
  }

  lemma ShapeMeaning(d: ShapeDescriptor, x: int, v: int)
    ensures InShape(d, x, v) <==>
      InOuter(d, HeightOf(d), x, v) && (d.Outline ==> !InInset(d, HeightOf(d), Max(1, d.Thickness), x, v))
  {
  }

  /** The point (u, v) lies in the ellipse with half axes a and b around the origin. */
  ghost predicate InHalfAxes(u: real, v: real, a: real, b: real)
    requires a > 0.0 && b > 0.0
  {
    PositiveSquare(a);
    PositiveSquare(b);
    (u * u) / (a * a) + (v * v) / (b * b) <= 1.0
  }

  /** The ellipse in real numbers: its centre is that of the w by h box, its axes are shorter than the
      box by the inset on every side, and a cell belongs to it when its centre does. */
  lemma EllipseMeaning(x: int, w: int, h: int, inset: int, y: int)
    requires w - 2 * inset > 0 && h - 2 * inset > 0
    ensures InEllipse(x, w, h, inset, y) <==>
      InHalfAxes(x as real - (w + 1) as real / 2.0, y as real - (h + 1) as real / 2.0,
                 (w - 2 * inset) as real / 2.0, (h - 2 * inset) as real / 2.0)
  {
    AxesMeaning(2 * x - w - 1, 2 * y - h - 1, w - 2 * inset, h - 2 * inset);
    hide InHalfAxes, Sq;
    assert (2 * x - w - 1) as real / 2.0 == x as real - (w + 1) as real / 2.0;
    assert (2 * y - h - 1) as real / 2.0 == y as real - (h + 1) as real / 2.0;
  }

  lemma AxesMeaning(p: int, q: int, m: int, n: int)
    requires m > 0 && n > 0
    ensures Sq(p) * Sq(n) + Sq(q) * Sq(m) <= Sq(m) * Sq(n) <==>
      InHalfAxes(p as real / 2.0, q as real / 2.0, m as real / 2.0, n as real / 2.0)
  {
    var u, v, a, b := p as real / 2.0, q as real / 2.0, m as real / 2.0, n as real / 2.0;
    HalfSquare(p, u);
    HalfSquare(q, v);
    HalfSquare(m, a);
    HalfSquare(n, b);
    PositiveSquare(a);
    PositiveSquare(b);
    hide Sq;
    Quarters(Sq(p), Sq(q), Sq(m), Sq(n), u * u, v * v, a * a, b * b);
  }

  lemma PositiveSquare(a: real)
    requires a > 0.0
    ensures a * a > 0.0
  {
  }

  lemma Quarters(p: int, q: int, a: int, b: int, x: real, y: real, c: real, d: real)
    requires p as real == 4.0 * x && q as real == 4.0 * y && a as real == 4.0 * c && b as real == 4.0 * d
    requires c > 0.0 && d > 0.0
    ensures p * b + q * a <= a * b <==> x / c + y / d <= 1.0
  {
    CommonDenominator(x, y, c, d);
    SixteenFold(p, q, a, b, x, y, c, d);
  }

  lemma HalfSquare(n: int, x: real)
    requires x == n as real / 2.0
    ensures Sq(n) as real == 4.0 * (x * x)
  {
    assert Sq(n) as real == n as real * n as real;
  }

  lemma CommonDenominator(p: real, q: real, a: real, b: real)
    requires a > 0.0 && b > 0.0
    ensures p / a + q / b <= 1.0 <==> p * b + q * a <= a * b
  {
    var s := p / a + q / b;
    assert (p / a) * a == p && (q / b) * b == q;
    assert s * (a * b) == p * b + q * a;
    assert a * b > 0.0;
    if s <= 1.0 { assert (1.0 - s) * (a * b) >= 0.0; } else { assert (s - 1.0) * (a * b) > 0.0; }
  }

  lemma SixteenFold(p: int, q: int, a: int, b: int, x: real, y: real, c: real, d: real)
    requires p as real == 4.0 * x && q as real == 4.0 * y && a as real == 4.0 * c && b as real == 4.0 * d
    ensures p * b + q * a <= a * b <==> x * d + y * c <= c * d
  {
    assert (p * b) as real == 16.0 * (x * d) && (q * a) as real == 16.0 * (y * c) && (a * b) as real == 16.0 * (c * d);
  }

  /** A circle is an ellipse in a square. A rectangle's outline is the cells closer to its edge than the
      thickness, one cell at least; an ellipse's outline is what a thinner ellipse leaves free. */
  lemma ShapeCells(d: ShapeDescriptor, x: int, y: int)
    ensures var h, t := if d.Kind == ShapeCircle then d.Width else d.Height, if d.Thickness < 1 then 1 else d.Thickness;
      var box := 1 <= x <= d.Width && 1 <= y <= h;
      && (d.Kind == ShapeRectangle ==>
            (InShape(d, x, y) <==>
             box && (!d.Outline || x <= t || d.Width - x < t || y <= t || h - y < t)))
      && (d.Kind != ShapeRectangle ==>
            (InShape(d, x, y) <==>
             box && InEllipse(x, d.Width, h, 0, y) && (!d.Outline || !InEllipse(x, d.Width, h, t, y))))
  {
  }

  /** Adds the rows of column x: those of the outer span outside the inner one. */
  method ShapeColumn(runs: seq<Bounds>, d: ShapeDescriptor, x: int, sqrt: real -> real) returns (out: seq<Bounds>)
    requires 1 <= x <= d.Width && HeightOf(d) >= 1 && (forall v :: sqrt(v) >= 0.0)
    requires ColumnsDone(runs, d, x - 1)
    ensures ColumnsDone(out, d, x)
  {
    hide InRuns, Canonical, CountRuns, InOuter, InInset, InShape;
    var h, t := HeightOf(d), Max(1, d.Thickness);
    var low, high := OuterSpan(d, h, x, sqrt);
    forall v ensures InShape(d, x, v) <==> InOuter(d, h, x, v) && (d.Outline ==> !InInset(d, h, t, x, v)) {
      ShapeMeaning(d, x, v);
    }
    out := runs;
    if low > high { return; }
    if !d.Outline {
      out := AppendSpan(out, x, low, high);
      return;
    }
    var innerLow, innerHigh := InnerSpan(d, h, t, x, sqrt);
    assert forall v :: InShape(d, x, v) <==> low <= v <= high && !(innerLow <= v <= innerHigh);
    if innerLow > innerHigh {
      out := AppendSpan(out, x, low, high);
    } else {
      out := AppendSpan(out, x, low, innerLow - 1);
      out := AppendSpan(out, x, innerHigh + 1, high);
    }
  }

  /** ShapeSelection: exactly the cells of the shape, anchored at its lower left tile. */
  method ShapeSelection(d: ShapeDescriptor, anchor: Point, sqrt: real -> real) returns (ok: bool, s: Selection)
    requires forall v :: sqrt(v) >= 0.0
    ensures ok <==> !ShapeError(d, anchor)
    ensures ok ==> s.Valid() && s.z == anchor.Z
    ensures ok ==> forall p: Point :: s.Has(p) <==>
      p.Z == anchor.Z && InShape(d, p.X - anchor.X + 1, p.Y - anchor.Y + 1)
    ensures ok ==> s.area == Bounds(anchor.X, anchor.Y, anchor.X + d.Width - 1, anchor.Y + HeightOf(d) - 1)
  {
    s := NO_SELECTION;
    if d.Width < 1 || d.Height < 1 || d.Width > MAX_MAP_DIMENSION || d.Height > MAX_MAP_DIMENSION || anchor.Z < 1 {
      return false, s;
    }
    ok := true;
    var h := HeightOf(d);
    var area := Bounds(anchor.X, anchor.Y, anchor.X + d.Width - 1, anchor.Y + h - 1);
    if !d.Outline && d.Kind == ShapeRectangle {
      s := RectangleSelection(area, anchor.Z);
      return;
    }
    var runs := [];
    for x := 1 to d.Width + 1
      invariant ColumnsDone(runs, d, x - 1)
    {
      runs := ShapeColumn(runs, d, x, sqrt);
    }
    s := NO_SELECTION.(z := anchor.Z, runBased := true, offset := Point(anchor.X - 1, anchor.Y - 1, 0), area := area,
                      runs := runs, runCount := CountRuns(runs));
    forall x, y
      ensures InRuns(s.AbsRuns(), x, y) <==> InShape(d, x - anchor.X + 1, y - anchor.Y + 1)
    {
      ShiftedMembers(runs, anchor.X - 1, anchor.Y - 1, x, y);
    }
  }

  /** A flat ellipse of even height keeps bounds wider than itself, so four quarter turns of it
      do not give it back. */
  lemma FlatEllipseDrifts(s0: Selection, s1: Selection, s2: Selection, s3: Selection, s4: Selection)
    requires s0.area == Bounds(1, 1, 8, 2)
    requires forall x, y :: InRuns(s0.AbsRuns(), x, y) <==> InShape(ShapeDescriptor(ShapeEllipse, 8, 2, false, 1), x, y)
    requires IsTurn(s0, s1, true) && IsTurn(s1, s2, true) && IsTurn(s2, s3, true) && IsTurn(s3, s4, true)
    ensures !SameMask(s0, s4)
  {
    hide InRuns, IsTurn, Sq;
    FlatEllipseCells();
    var box := Bounds(2, 1, 7, 2);
    assert Tight(box, s0.AbsRuns()) by {
      assert InRuns(s0.AbsRuns(), 2, 1) && InRuns(s0.AbsRuns(), 7, 1) && InRuns(s0.AbsRuns(), 2, 2);
    }
    FourTurnsIdentity(s0, s1, s2, s3, s4, true, box);
  }

  lemma FlatEllipseCells()
    ensures forall x, y :: InShape(ShapeDescriptor(ShapeEllipse, 8, 2, false, 1), x, y) <==> 2 <= x <= 7 && 1 <= y <= 2
  {
    forall x, y ensures InShape(ShapeDescriptor(ShapeEllipse, 8, 2, false, 1), x, y) <==> 2 <= x <= 7 && 1 <= y <= 2 {
      if 1 <= x <= 8 && 1 <= y <= 2 {
        assert Sq(2 * y - 3) == 1;
        assert Sq(8) == 64 && Sq(2) == 4;
        if 2 <= x <= 7 { SqMonotone(2 * x - 9, 5); } else { assert Sq(2 * x - 9) == 49; }
      }
    }
  }
}
