/** The erase stroke (internal/aphelion/editing/erase_stroke.go): its line walk, and the tiles it
    never samples again. */
module EraseStrokes {
  import opened Basics
  import opened Runs

  // ---- tiles ---------------------------------------------------------------------------------------

  /** Integer division that truncates toward zero. */
  function TruncDiv(a: int, b: int): int
    requires b > 0
  {
    if a >= 0 then a / b else -((-a) / b)
  }

  function StrokeTile(pixel: int, size: int): int
    requires size > 0
  {
    if pixel < 0 then TruncDiv(pixel + 1, size) else TruncDiv(pixel, size) + 1
  }

  /** The tile of a pixel: the floor of pixel / size, plus one, on both sides of zero. */
  lemma StrokeTileIsFloor(pixel: int, size: int, n: int)
    requires size > 0
    ensures StrokeTile(pixel, size) == n + 1 <==> n * size <= pixel < (n + 1) * size
  {
    if pixel < 0 {
      var q := (-pixel - 1) / size;
      assert StrokeTile(pixel, size) == -q;
      DivBounds(-pixel - 1, size, q);
      Between(pixel, size, n, -q - 1);
    } else {
      var q := pixel / size;
      DivBounds(pixel, size, q);
      Between(pixel, size, n, q);
    }
  }

  lemma DivBounds(a: int, b: int, q: int)
    requires b > 0 && q == a / b
    ensures q * b <= a < (q + 1) * b
  {
    assert a == b * (a / b) + a % b;
  }

  lemma Between(x: int, size: int, n: int, q: int)
    requires size > 0 && q * size <= x < (q + 1) * size
    ensures n == q <==> n * size <= x < (n + 1) * size
  {
    if n < q { Monotone(n + 1, q, size); }
    if n > q { Monotone(q + 1, n, size); }
  }

  lemma Monotone(m: int, n: int, size: int)
    requires m <= n && size > 0
    ensures m * size <= n * size
  {
  }

  // ---- the line ------------------------------------------------------------------------------------

  /** Two pixels that touch, at a side or a corner. */
  predicate Adjacent(p: Point, q: Point) { p != q && Abs(p.X - q.X) <= 1 && Abs(p.Y - q.Y) <= 1 && p.Z == q.Z }

  ghost predicate Chained(start: Point, trail: seq<Point>) {
    forall k :: 0 <= k < |trail| ==> Adjacent(Before(start, trail, k), trail[k])
  }

  function Before(start: Point, trail: seq<Point>, k: int): Point
    requires 0 <= k <= |trail|
  {
    if k == 0 then start else trail[k - 1]
  }

  /** Twice the distance of p from the ideal line, scaled by the longer side. */
  function Deviation(start: Point, target: Point, p: Point): int {
    2 * (Abs(target.X - start.X) * Abs(p.Y - start.Y) - Abs(target.Y - start.Y) * Abs(p.X - start.X))
  }

  /** The number of steps of the walk. */
  function Span(start: Point, target: Point): int { Max(Abs(target.X - start.X), Abs(target.Y - start.Y)) }

  predicate Between1(a: int, b: int, x: int) { Min(a, b) <= x <= Max(a, b) }

  /** p lies in the rectangle of the two ends, within half a pixel of the line between them. */
  predicate OnLine(start: Point, target: Point, p: Point) {
    && Between1(start.X, target.X, p.X) && Between1(start.Y, target.Y, p.Y) && p.Z == start.Z
    && -Span(start, target) <= Deviation(start, target, p) <= Span(start, target)
  }

  /** The walk after i steps in x and j steps in y over a rectangle a wide and b high, with the
      error term of the loop. */
  ghost predicate Walked(a: int, b: int, i: int, j: int, e: int) {
    && 0 <= i <= a && 0 <= j <= b && e == a * (1 + j) - b * (1 + i)
    && (a >= b ==> a - 2 * b <= 2 * e <= 3 * a - 2 * b)
    && (b >= a ==> 2 * a - 3 * b <= 2 * e <= 2 * a - b)
  }

  /** One step: the longer axis always advances, no axis overshoots, the error stays bounded. */
  lemma WalkStep(a: int, b: int, i: int, j: int, e: int)
    requires Walked(a, b, i, j, e) && (i < a || j < b)
    ensures var dx, dy := 2 * e >= -b, 2 * e <= a;
      && Walked(a, b, if dx then i + 1 else i, if dy then j + 1
                else j, e - (if dx then b else 0) + (if dy then a else 0))
      && (a >= b ==> dx) && (b >= a ==> dy)
  {
    StopX(a, b, i, j, e);
    StopY(a, b, i, j, e);
  }

  lemma MulAtLeast(a: int, n: int)
    requires a >= 0 && n >= 1
    ensures a * n >= a
  {
  }

  lemma Regroup(a: int, b: int, j: int)
    ensures a * (1 + j) - b * (1 + a) == a - b - a * (b - j)
  {
  }

  /** When x has arrived, only y moves. */
  lemma StopX(a: int, b: int, i: int, j: int, e: int)
    requires Walked(a, b, i, j, e) && (i < a || j < b)
    ensures i == a ==> 2 * e < -b
  {
    if i == a {
      Regroup(a, b, j);
      MulAtLeast(a, b - j);
    }
  }

  lemma StopY(a: int, b: int, i: int, j: int, e: int)
    requires Walked(a, b, i, j, e) && (i < a || j < b)
    ensures j == b ==> 2 * e > a
  {
    if j == b {
      Regroup(b, a, i);
      MulAtLeast(b, a - i);
    }
  }

  /** The pixel i steps in x and j steps in y from the start. */
  function Pixel(start: Point, target: Point, i: int, j: int): Point {
    Point(start.X + (if start.X < target.X then i else -i), start.Y + (if start.Y < target.Y then j else -j), start.Z)
  }

  /** The pixels walked so far lie on the line, touch one another, and are one per step of the
      longer axis. */
  ghost predicate Trailed(start: Point, target: Point, trail: seq<Point>, i: int, j: int, e: int) {
    var a, b := Abs(target.X - start.X), Abs(target.Y - start.Y);
    && Walked(a, b, i, j, e) && |trail| == (if a >= b then i else j)
    && Chained(start, trail) && (forall p :: p in trail ==> OnLine(start, target, p))
    && Before(start, trail, |trail|) == Pixel(start, target, i, j)
  }

  lemma WalkedOnLine(start: Point, target: Point, i: int, j: int, e: int)
    requires Walked(Abs(target.X - start.X), Abs(target.Y - start.Y), i, j, e)
    ensures OnLine(start, target, Pixel(start, target, i, j))
  {
    var a, b := Abs(target.X - start.X), Abs(target.Y - start.Y);
    var p := Pixel(start, target, i, j);
    assert Abs(p.X - start.X) == i && Abs(p.Y - start.Y) == j;
    Expand(a, b, i, j);
  }

  lemma Expand(a: int, b: int, i: int, j: int)
    ensures a * (1 + j) - b * (1 + i) == a - b + (a * j - b * i)
  {
  }

  lemma TrailStart(start: Point, target: Point)
    ensures var a, b := Abs(target.X - start.X), Abs(target.Y - start.Y); Trailed(start, target, [], 0, 0, a - b)
  {
  }

  /** One round of the loop. */
  lemma TrailStep(start: Point, target: Point, trail: seq<Point>, i: int, j: int, e: int)
    requires Trailed(start, target, trail, i, j, e) && Pixel(start, target, i, j) != target.(Z := start.Z)
    ensures var a, b := Abs(target.X - start.X), Abs(target.Y - start.Y);
      var i', j' := if 2 * e >= -b then i + 1 else i, if 2 * e <= a then j + 1 else j;
      && (i < a || j < b) && i' <= a && j' <= b
      && Trailed(start, target, trail + [Pixel(start, target, i', j')], i', j',
                 e - (if 2 * e >= -b then b else 0) + (if 2 * e <= a then a else 0))
  {
    hide OnLine, Walked, Chained, Pixel, Adjacent;
    var a, b := Abs(target.X - start.X), Abs(target.Y - start.Y);
    NotArrived(start, target, i, j, e);
    WalkStep(a, b, i, j, e);
    var i', j' := if 2 * e >= -b then i + 1 else i, if 2 * e <= a then j + 1 else j;
    var e' := e - (if 2 * e >= -b then b else 0) + (if 2 * e <= a then a else 0);
    WalkedOnLine(start, target, i', j', e');
    WalkedRange(a, b, i', j', e');
    StepAdjacent(start, target, i, j, i', j');
    ChainSnoc(start, trail, Pixel(start, target, i', j'));
  }

  lemma NotArrived(start: Point, target: Point, i: int, j: int, e: int)
    requires Walked(Abs(target.X - start.X), Abs(target.Y - start.Y), i, j, e) &&
      Pixel(start, target, i, j) != target.(Z := start.Z)
    ensures i < Abs(target.X - start.X) || j < Abs(target.Y - start.Y)
  {
  }

  lemma WalkedRange(a: int, b: int, i: int, j: int, e: int)
    requires Walked(a, b, i, j, e)
    ensures 0 <= i <= a && 0 <= j <= b
  {
  }

  lemma StepAdjacent(start: Point, target: Point, i: int, j: int, i': int, j': int)
    requires i <= i' <= i + 1 && j <= j' <= j + 1 && (i, j) != (i', j')
    ensures Adjacent(Pixel(start, target, i, j), Pixel(start, target, i', j'))
  {
  }

  lemma ChainSnoc(start: Point, trail: seq<Point>, p: Point)
    requires Chained(start, trail) && Adjacent(Before(start, trail, |trail|), p)
    ensures Chained(start, trail + [p])
  {
    hide Adjacent;
    var trail' := trail + [p];
    forall k | 0 <= k < |trail'| ensures Adjacent(Before(start, trail', k), trail'[k]) {
      if k < |trail| { assert Adjacent(Before(start, trail, k), trail[k]); }
    }
  }

  /** The whole walk: from the start to the target in as many steps as the longer axis has. */
  ghost predicate IsLine(start: Point, target: Point, trail: seq<Point>) {
    && Chained(start, trail) && (forall p :: p in trail ==> OnLine(start, target, p))
    && |trail| == Span(start, target) && trail != [] && trail[|trail| - 1] == target
  }

  lemma TrailEnds(start: Point, target: Point, trail: seq<Point>, i: int, j: int, e: int)
    requires Trailed(start, target, trail, i, j, e) && Pixel(start, target, i, j) == target && start != target
    ensures IsLine(start, target, trail)
  {
    hide OnLine;
  }

  // ---- the stroke -------------------------------------------------------------------------------------

  datatype Outcome = Empty | Changed | Blocked | Failed

  datatype EraseResult = EraseResult(outcome: Outcome, coord: Point)

  /** One call of the sampler: the pixel, its tile, and the answer. */
  datatype Sampled = Sampled(pixel: Point, tile: Point, result: EraseResult)

  /** The tiles a call marks as processed. */
  function Marks(s: Sampled): set<Point> { if s.result.outcome == Changed then {s.tile, s.result.coord} else {} }

  ghost function AllMarks(log: seq<Sampled>): set<Point> {
    if log == [] then {} else AllMarks(log[..|log| - 1]) + Marks(log[|log| - 1])
  }

  function CountChanged(log: seq<Sampled>): nat {
    if log == [] then 0 else CountChanged(log[..|log| - 1]) + if log[|log| - 1].result.outcome == Changed then 1 else 0
  }

  /** A tile that an earlier call marked is never sampled again. */
  ghost predicate NeverAgain(log: seq<Sampled>) { forall i, j :: 0 <= i < j < |log| ==> log[j].tile !in Marks(log[i]) }

  lemma {:induction false} MarksMember(log: seq<Sampled>, i: nat)
    requires i < |log|
    ensures Marks(log[i]) <= AllMarks(log)
  {
    if i < |log| - 1 { MarksMember(log[..|log| - 1], i); }
  }

  lemma LoggedNext(log: seq<Sampled>, s: Sampled)
    requires NeverAgain(log) && s.tile !in AllMarks(log)
    ensures NeverAgain(log + [s]) && AllMarks(log + [s]) == AllMarks(log) + Marks(s)
    ensures CountChanged(log + [s]) == CountChanged(log) + if s.result.outcome == Changed then 1 else 0
  {
    assert (log + [s])[..|log|] == log;
    forall i | 0 <= i < |log| ensures s.tile !in Marks(log[i]) { MarksMember(log, i); }
  }

  function TileAt(size: int, p: Point): Point
    requires size > 0
  {
    Point(StrokeTile(p.X, size), StrokeTile(p.Y, size), p.Z)
  }

  /** The tile of a pixel, in both coordinates. */
  lemma TileAtMeaning(size: int, p: Point, t: Point)
    requires size > 0
    ensures t == TileAt(size, p) <==>
      (t.X - 1) * size <= p.X < t.X * size && (t.Y - 1) * size <= p.Y < t.Y * size && t.Z == p.Z
  {
    hide StrokeTile;
    StrokeTileIsFloor(p.X, size, t.X - 1);
    StrokeTileIsFloor(p.Y, size, t.Y - 1);
  }

  /** One pixel is offered: skipped when its tile was marked, otherwise sampled once. */
  ghost predicate OfferedOne(size: int, p: Point, before: seq<Sampled>, log: seq<Sampled>)
    requires size > 0
  {
    if TileAt(size, p) in AllMarks(before) then log == before
    else
      && |log| == |before| + 1 && log[..|before|] == before
      && log[|before|].pixel == p && log[|before|].tile == TileAt(size, p)
  }

  /** The pixels of the trail are offered one after the other, none left out. */
  ghost predicate Offered(size: int, trail: seq<Point>, before: seq<Sampled>, log: seq<Sampled>)
    requires size > 0
  {
    if trail == [] then log == before
    else
      var init, p := trail[..|trail| - 1], trail[|trail| - 1];
      exists mid :: Offered(size, init, before, mid) && OfferedOne(size, p, mid, log)
  }

  lemma OfferedNext(size: int, trail: seq<Point>, p: Point, before: seq<Sampled>, mid: seq<Sampled>, log: seq<Sampled>)
    requires size > 0 && Offered(size, trail, before, mid) && OfferedOne(size, p, mid, log)
    ensures Offered(size, trail + [p], before, log)
  {
    hide OfferedOne;
    assert (trail + [p])[..|trail|] == trail;
  }

  /** What offering means for every pixel of the trail: it was sampled, or its tile is marked. */
  lemma {:induction false} OfferedCovers(size: int, trail: seq<Point>, before: seq<Sampled>, log: seq<Sampled>)
    requires size > 0 && Offered(size, trail, before, log)
    ensures before <= log && AllMarks(before) <= AllMarks(log)
    ensures forall p :: p in trail ==> Covered(size, p, |before|, log)
    ensures forall k :: |before| <= k < |log| ==> log[k].pixel in trail
  {
    if trail != [] {
      var init, p := trail[..|trail| - 1], trail[|trail| - 1];
      var mid :| Offered(size, init, before, mid) && OfferedOne(size, p, mid, log);
      OfferedCovers(size, init, before, mid);
      if TileAt(size, p) !in AllMarks(mid) { assert log[..|log| - 1] == mid; }
      forall q | q in trail ensures Covered(size, q, |before|, log) {
        if q in init { StillCovered(size, q, |before|, mid, log); }
      }
    }
  }

  ghost predicate Covered(size: int, p: Point, n: nat, log: seq<Sampled>)
    requires size > 0
  {
    TileAt(size, p) in AllMarks(log) || exists k :: n <= k < |log| && log[k].pixel == p
  }

  lemma StillCovered(size: int, p: Point, n: nat, mid: seq<Sampled>, log: seq<Sampled>)
    requires size > 0 && Covered(size, p, n, mid) && mid <= log && AllMarks(mid) <= AllMarks(log)
    ensures Covered(size, p, n, log)
  {
    if k :| n <= k < |mid| && mid[k].pixel == p { assert log[k].pixel == p; }
  }

  lemma OfferedNone(size: int, log: seq<Sampled>)
    requires size > 0
    ensures Offered(size, [], log, log)
  {
  }

  /** Offering one more pixel adds at most one entry, for that pixel. */
  lemma OfferedGrows(size: int, trail: seq<Point>, p: Point, before: seq<Sampled>, mid: seq<Sampled>, log: seq<Sampled>)
    requires size > 0 && Offered(size, trail, before, mid) && OfferedOne(size, p, mid, log)
    ensures |before| <= |mid| <= |log| <= |mid| + 1 && log[..|mid|] == mid
    ensures |log| > |mid| ==> log[|mid|].pixel == p
  {
    OfferedCovers(size, trail, before, mid);
  }

  predicate Stops(s: Sampled) { s.result.outcome == Blocked || s.result.outcome == Failed }

  /** Only the last new entry may have stopped the stroke, and it did exactly when it failed. */
  ghost predicate StoppedLast(before: seq<Sampled>, log: seq<Sampled>, trail: seq<Point>, failed: bool) {
    && (forall k :: |before| <= k < |log| && Stops(log[k]) ==> failed && k == |log| - 1)
    && (failed ==>
        |before| < |log| && Stops(log[|log| - 1]) && trail != [] && log[|log| - 1].pixel == trail[|trail| - 1])
  }

  class EraseStroke {
    const size: int
    const all: bool
    /** The picker's answers; it may answer differently at every call. */
    const sample: (nat, Point) -> EraseResult
    var processed: set<Point>
    var last: Point
    var started: bool
    var changes: nat
    var failed: bool
    var calls: nat
    ghost var log: seq<Sampled>

    ghost predicate Valid()
      reads this
    {
      && size > 0 && NeverAgain(log) && processed == AllMarks(log) && changes == CountChanged(log) && calls == |log|
      && (forall k :: 0 <= k < |log| ==> log[k].result == sample(k, log[k].pixel))
      && (!started ==> log == [])
    }

    constructor (iconSize: int, all: bool, sample: (nat, Point) -> EraseResult)
      ensures Valid() && !started && !failed && processed == {} && log == []
    {
      size, this.all, this.sample := Max(1, iconSize), all, sample;
      processed, last, started, changes, failed, calls, log := {}, Point(0, 0, 0), false, 0, false, 0, [];
    }

    /** at: a processed tile is skipped, any other is sampled once. */
    method At(p: Point)
      requires Valid() && started
      modifies this`processed, this`changes, this`failed, this`calls, this`log
      ensures Valid()
      ensures OfferedOne(size, p, old(log), log) && old(processed) <= processed
      ensures failed == (old(failed) || (|log| > |old(log)| && Stops(log[|log| - 1])))
    {
      var tile := TileAt(size, p);
      if tile in processed { return; }
      var result := sample(calls, p);
      LoggedNext(log, Sampled(p, tile, result));
      log, calls := log + [Sampled(p, tile, result)], calls + 1;
      match result.outcome
      case Empty =>
      case Changed =>
        processed := processed + {tile, result.coord};
        changes := changes + 1;
      case Blocked => failed := true;
      case Failed => failed := true;
    }

    /** Sample: walks from the last pixel to the new one, or stops at the first error. */
    method Sample(target: Point) returns (ghost trail: seq<Point>)
      requires Valid()
      modifies this
      ensures Valid() && Offered(size, trail, old(log), log)
      ensures forall p :: p in trail ==> Covered(size, p, |old(log)|, log)
      ensures old(failed) ==> failed && log == old(log) && last == old(last) && trail == []
      ensures !old(failed) && !old(started) ==> started && last == target && trail == [target]
      ensures !old(failed) && (old(started) ==> target.Z == old(last.Z)) ==> StoppedLast(old(log), log, trail, failed)
      ensures !old(failed) && old(started) && target.Z != old(last.Z) ==> failed && log == old(log) && trail == []
      ensures !old(failed) && old(started) && target == old(last) ==> log == old(log) && trail == [] && !failed
      ensures !old(failed) && old(started) && target.Z == old(last.Z) && target != old(last) ==>
        last == target && if failed then WalkedPart(old(last), target, trail) else IsLine(old(last), target, trail)
    {
      hide NeverAgain, CountChanged, StrokeTile, Marks, AllMarks, IsLine, WalkedPart;
      trail := [];
      OfferedNone(size, log);
      if failed { return; }
      if !started {
        started, last := true, target;
        At(target);
        trail := [target];
        OfferedNext(size, [], target, old(log), old(log), log);
        assert [] + [target] == trail;
        OfferedCovers(size, trail, old(log), log);
        return;
      }
      if target.Z != last.Z { failed := true; return; }
      if target == last { return; }
      trail := WalkTo(target);
      last := target;
    }

    /** The loop of Sample. */
    method WalkTo(target: Point) returns (ghost trail: seq<Point>)
      requires Valid() && started && !failed && target.Z == last.Z && target != last
      modifies this`processed, this`changes, this`failed, this`calls, this`log
      ensures Valid() && Offered(size, trail, old(log), log)
      ensures forall p :: p in trail ==> Covered(size, p, |old(log)|, log)
      ensures StoppedLast(old(log), log, trail, failed)
      ensures if failed then WalkedPart(last, target, trail) else IsLine(last, target, trail)
    {
      hide Trailed, IsLine, WalkedPart, NeverAgain, AllMarks, CountChanged, StrokeTile, Marks, Offered, OfferedOne,
           Covered;
      var x0, y0 := last.X, last.Y;
      var dx, dy := Abs(target.X - x0), -Abs(target.Y - y0);
      var sx, sy := if x0 < target.X then 1 else -1, if y0 < target.Y then 1 else -1;
      var distance := dx + dy;
      ghost var i, j := 0, 0;
      trail := [];
      TrailStart(last, target);
      OfferedNone(size, log);
      while x0 != target.X || y0 != target.Y
        invariant Valid() && started && !failed && Offered(size, trail, old(log), log)
        invariant forall k :: |old(log)| <= k < |log| ==> !Stops(log[k])
        invariant Trailed(last, target, trail, i, j, distance) && Point(x0, y0, last.Z) == Pixel(last, target, i, j)
        decreases dx - i + (-dy - j)
      {
        TrailStep(last, target, trail, i, j, distance);
        var twice := 2 * distance;
        if twice >= dy { distance, x0, i := distance + dy, x0 + sx, i + 1; }
        if twice <= dx { distance, y0, j := distance + dx, y0 + sy, j + 1; }
        ghost var before, sofar := log, trail;
        trail := trail + [Point(x0, y0, target.Z)];
        At(Point(x0, y0, target.Z));
        OfferedNext(size, sofar, Point(x0, y0, target.Z), old(log), before, log);
        OfferedGrows(size, sofar, Point(x0, y0, target.Z), old(log), before, log);
        if failed { break; }
      }
      OfferedCovers(size, trail, old(log), log);
      if failed { PartWalked(last, target, trail, i, j, distance); }
        else { TrailEnds(last, target, trail, i, j, distance); }
    }
  }

  /** A walk that stopped early: still on the line and connected, at most as long. */
  ghost predicate WalkedPart(start: Point, target: Point, trail: seq<Point>) {
    Chained(start, trail) && (forall p :: p in trail ==> OnLine(start, target, p)) && |trail| <= Span(start, target)
  }

  lemma PartWalked(start: Point, target: Point, trail: seq<Point>, i: int, j: int, e: int)
    requires Trailed(start, target, trail, i, j, e)
    ensures WalkedPart(start, target, trail)
  {
    hide OnLine, Chained;
  }
}
