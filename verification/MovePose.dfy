/** The pose of a selection move (internal/aphelion/editing: move_payload.go:29-68,
    move_rotation.go:19-75): the previewed mask and the payload's destination test agree. */
module MovePose {
  import opened Basics
  import opened Runs
  import opened SelectionModel
  import opened RotateSelections

  /** rotatedMoveBounds. */
  function RotatedMoveBounds(area: Bounds, turns: int): Bounds {
    if turns % 2 != 0 then Bounds(area.X1, area.Y1, area.X1 + area.Y2 - area.Y1, area.Y1 + area.X2 - area.X1) else area
  }

  /** The source cell that `turns` clockwise quarter turns of the area bring to c. */
  function SourceOf(area: Bounds, turns: int, c: Cell): Cell {
    if turns == 1 then Unturn(area, true, c)
    else if turns == 2 then (area.X1 + area.X2 - c.0, area.Y1 + area.Y2 - c.1)
    else if turns == 3 then Unturn(area, false, c)
    else c
  }

  /** Where `turns` clockwise quarter turns of the area take c. */
  function ImageOf(area: Bounds, turns: int, c: Cell): Cell {
    if turns == 1 then Turn(area, true, c)
    else if turns == 2 then (area.X1 + area.X2 - c.0, area.Y1 + area.Y2 - c.1)
    else if turns == 3 then Turn(area, false, c)
    else c
  }

  lemma ImageRoundTrip(area: Bounds, turns: int, c: Cell)
    ensures SourceOf(area, turns, ImageOf(area, turns, c)) == c && ImageOf(area, turns, SourceOf(area, turns, c)) == c
  {
  }

  /** One more turn of an already turned area. */
  lemma SourceOfStep(area: Bounds, turns: int, clockwise: bool, c: Cell)
    requires 0 <= turns < 4
    ensures var t := (turns + if clockwise then 1 else 3) % 4;
      SourceOf(area, t, c) == SourceOf(area, turns, Unturn(RotatedMoveBounds(area, turns), clockwise, c))
  {
  }

  /** The payload's test: undo the shift and the turns, then ask the source selection. */
  method DestinationContains(selection: Selection, turns: int, coord: Point, shift: Point) returns (b: bool)
    requires selection.Valid() && 0 <= turns < 4
    ensures var c := SourceOf(selection.area, turns, (coord.X - shift.X, coord.Y - shift.Y));
      b <==> coord.Z == selection.z && shift.Z == 0 && InRuns(selection.AbsRuns(), c.0, c.1)
  {
    hide InRuns, Canonical;
    if coord.Z != selection.z || shift.Z != 0 { return false; }
    var o := selection.area;
    var x, y := coord.X - shift.X - o.X1, coord.Y - shift.Y - o.Y1;
    var w, h := o.X2 - o.X1 + 1, o.Y2 - o.Y1 + 1;
    if turns == 1 {
      x, y := w - 1 - y, x;
    } else if turns == 2 {
      x, y := w - 1 - x, h - 1 - y;
    } else if turns == 3 {
      x, y := y, h - 1 - x;
    }
    b := Contains(selection, Point(o.X1 + x, o.Y1 + y, selection.z));
  }

  /** `out` is the mask turned `turns` times inside the area: what a pose should show. */
  ghost predicate IsPose(area: Bounds, turns: int, runs: seq<Bounds>, out: seq<Bounds>) {
    forall u, v {:trigger SourceOf(area, turns, (u, v))} :: InRuns(out, u, v) <==>
      InRuns(runs, SourceOf(area, turns, (u, v)).0, SourceOf(area, turns, (u, v)).1)
  }

  lemma PoseMember(area: Bounds, turns: int, runs: seq<Bounds>, out: seq<Bounds>, u: int, v: int)
    requires IsPose(area, turns, runs, out)
    ensures InRuns(out, u, v) <==> InRuns(runs, SourceOf(area, turns, (u, v)).0, SourceOf(area, turns, (u, v)).1)
  {
  }

  /** Turning a pose once more about its turned bounds gives the next pose. */
  lemma PoseStep(area: Bounds, turns: int, runs: seq<Bounds>, out: seq<Bounds>, clockwise: bool, next: seq<Bounds>)
    requires 0 <= turns < 4 && IsPose(area, turns, runs, out)
    requires TurnedRuns(RotatedMoveBounds(area, turns), clockwise, out, next)
    ensures IsPose(area, (turns + if clockwise then 1 else 3) % 4, runs, next)
  {
    hide InRuns, TurnedRuns, SourceOf, Unturn, IsPose;
    var t, a := (turns + if clockwise then 1 else 3) % 4, RotatedMoveBounds(area, turns);
    forall u, v
      ensures InRuns(next, u, v) <==> InRuns(runs, SourceOf(area, t, (u, v)).0, SourceOf(area, t, (u, v)).1)
    {
      var c := Unturn(a, clockwise, (u, v));
      UnturnMember(a, clockwise, out, next, u, v);
      PoseMember(area, turns, runs, out, c.0, c.1);
      SourceOfStep(area, turns, clockwise, (u, v));
    }
    PoseIntro(area, t, runs, next);
  }

  lemma PoseIntro(area: Bounds, turns: int, runs: seq<Bounds>, out: seq<Bounds>)
    requires forall u, v :: InRuns(out, u, v) <==>
      InRuns(runs, SourceOf(area, turns, (u, v)).0, SourceOf(area, turns, (u, v)).1)
    ensures IsPose(area, turns, runs, out)
  {
  }

  /** A rectangle made smaller by n on every side. */
  function Inset(b: Bounds, n: int): Bounds { Bounds(b.X1 + n, b.Y1 + n, b.X2 - n, b.Y2 - n) }

  /** d is the pose of s after some turns, inset by `gap`; it was turned about its own bounds. */
  ghost predicate PoseOk(s: Selection, gap: int, turns: int, d: Selection) {
    var outer := RotatedMoveBounds(s.area, turns);
    && 0 <= turns < 4 && d.z == s.z && IsPose(s.area, turns, s.AbsRuns(), d.AbsRuns())
    && Tight(Inset(outer, gap), d.AbsRuns()) && (d.area == outer || d.area == Inset(outer, gap))
  }

  /** Turning about a rectangle or about an inset of it is the same. */
  lemma InsetTurns(a: Bounds, n: int, clockwise: bool, runs: seq<Bounds>, out: seq<Bounds>)
    requires TurnedRuns(Inset(a, n), clockwise, runs, out)
    ensures TurnedRuns(a, clockwise, runs, out)
  {
    hide InRuns, Unturn, TurnedRuns, Inset;
    forall u, v
      ensures InRuns(out, u, v) <==> InRuns(runs, Unturn(a, clockwise, (u, v)).0, Unturn(a, clockwise, (u, v)).1)
    {
      UnturnMember(Inset(a, n), clockwise, runs, out, u, v);
      UnturnInset(a, n, clockwise, (u, v));
    }
    TurnedRunsIntro(a, clockwise, runs, out);
  }

  lemma UnturnInset(a: Bounds, n: int, clockwise: bool, c: Cell)
    ensures Unturn(Inset(a, n), clockwise, c) == Unturn(a, clockwise, c)
  {
  }

  lemma InsetTurnBox(a: Bounds, n: int, turns: int, clockwise: bool)
    requires a == RotatedMoveBounds(a, 0) && 0 <= turns < 4
    ensures var outer, t := RotatedMoveBounds(a, turns), (turns + if clockwise then 1 else 3) % 4;
      && TurnBox(outer, clockwise, Inset(outer, n)) == Inset(RotatedMoveBounds(a, t), n)
      && TurnBox(Inset(outer, n), clockwise, Inset(outer, n)) == Inset(RotatedMoveBounds(a, t), n)
  {
  }

  /** A quarter turn of a pose is the next pose, whichever way it goes. */
  lemma PoseTurn(s: Selection, gap: int, turns: int, d: Selection, next: Selection, clockwise: bool)
    requires PoseOk(s, gap, turns, d) && IsTurn(d, next, clockwise)
    ensures var t := (turns + if clockwise then 1 else 3) % 4;
      PoseOk(s, gap, t, next) && next.area == Inset(RotatedMoveBounds(s.area, t), gap)
  {
    hide IsPose, InRuns, Tight, TurnedRuns, Canonical, TurnBox;
    var outer := RotatedMoveBounds(s.area, turns);
    InsetTurnBox(s.area, gap, turns, clockwise);
    TurnedArea(d, next, clockwise, Inset(outer, gap));
    TurnedBounds(d.area, clockwise, d.AbsRuns(), next.AbsRuns(), Inset(outer, gap));
    if d.area != outer { InsetTurns(outer, gap, clockwise, d.AbsRuns(), next.AbsRuns()); }
    PoseStep(s.area, turns, s.AbsRuns(), d.AbsRuns(), clockwise, next.AbsRuns());
  }

  lemma StartPose(area: Bounds, runs: seq<Bounds>)
    ensures IsPose(area, 0, runs, runs)
  {
  }

  predicate WholeTileBounds(area: Bounds) { area.X1 >= 1 && area.Y1 >= 1 && area.X1 <= area.X2 && area.Y1 <= area.Y2 }

  lemma WholeTileBoundsMeaning(area: Bounds)
    ensures WholeTileBounds(area) <==>
      (exists x, y :: area.Has(x, y)) && forall x, y :: area.Has(x, y) ==> x >= 1 && y >= 1
  {
    if area.X1 <= area.X2 && area.Y1 <= area.Y2 { assert area.Has(area.X1, area.Y1); }
  }

  /** The next pose of a selection, if its bounds have a common gap. */
  method NextPose(ghost s: Selection, ghost gap: Option<int>, turns: int, d: Selection,
                  clockwise: bool) returns (next: Selection)
    requires Placed(d) && (gap.Some? ==> PoseOk(s, gap.value, turns, d))
    ensures IsTurn(d, next, clockwise) && Placed(next) && next.z == d.z
    ensures gap.Some? ==> PoseOk(s, gap.value, (turns + if clockwise then 1 else 3) % 4, next)
  {
    hide IsTurn, PoseOk, Placed, IsRotation;
    PlacedValid(d);
    next := RotateSelections.Rotate(d, clockwise);
    TurnedIsPlaced(d, next, clockwise);
    if gap.Some? { PoseTurn(s, gap.value, turns, d, next, clockwise); }
  }

  /** The bounds leave the same gap on all four sides of the mask. */
  predicate SameGaps(area: Bounds, box: Bounds) { box == Inset(area, box.X1 - area.X1) }

  /** The gap of bounds that are harmless to turn. */
  ghost predicate HasGap(s: Selection, gap: int) { Tight(Inset(s.area, gap), s.AbsRuns()) }

  lemma StartPoseOk(s: Selection, gap: int)
    requires HasGap(s, gap)
    ensures PoseOk(s, gap, 0, s)
  {
    StartPose(s.area, s.AbsRuns());
  }

  /** SelectionMove: selection geometry and a pose; it never touches the map. */
  class SelectionMove {
    const selection: Selection
    const level: int
    /** The common gap between the stored bounds and the mask, if there is one; 0 for tight bounds. */
    ghost const gap: Option<int>
    var bounds: Bounds
    var destination: Selection
    var turns: int
    var shift: Point
    var closed: bool

    /** With harmless bounds the destination is the pose of `turns` turns; the tracked bounds are
        the turned bounds, or those of the destination, shifted. */
    ghost predicate Valid()
      reads this
    {
      var outer := RotatedMoveBounds(selection.area, turns);
      && Placed(selection) && WholeTileBounds(selection.area) && level == selection.z
      && 0 <= turns < 4 && shift.Z == 0 && Placed(destination) && destination.z == level
      && (bounds == outer.Plus(shift.X, shift.Y) || bounds == destination.area.Plus(shift.X, shift.Y))
      && (gap.Some? ==> HasGap(selection, gap.value) && PoseOk(selection, gap.value, turns, destination))
    }

    /** With tight bounds the tracked bounds are the turned bounds, shifted. */
    lemma TightBounds()
      requires Valid() && gap == Some(0)
      ensures destination.area == RotatedMoveBounds(selection.area, turns)
      ensures bounds == RotatedMoveBounds(selection.area, turns).Plus(shift.X, shift.Y)
    {
    }

    /** NewSelectionMove, on a nonempty whole-tile selection. */
    constructor (selection: Selection)
      requires Placed(selection) && WholeTileBounds(selection.area)
      ensures Valid() && this.selection == selection && turns == 0 && shift == Point(0, 0, 0) && !closed
      ensures gap.Some? <==> exists n :: HasGap(selection, n)
      ensures selection.IsTight() ==> gap == Some(0)
    {
      hide InRuns, Tight, Canonical, IsPose;
      this.selection, level := selection, selection.z;
      destination, bounds, turns, shift, closed := selection, selection.area, 0, Point(0, 0, 0), false;
      if n :| HasGap(selection, n) {
        gap := Some(n);
        StartPoseOk(selection, n);
        if selection.IsTight() { TightIsUnique(Inset(selection.area, n), selection.area, selection.AbsRuns()); }
      } else {
        gap := None;
        TightHasGap(selection);
      }
    }

    predicate OnMap(b: Bounds, maxX: int, maxY: int) { b.X1 >= 1 && b.Y1 >= 1 && b.X2 <= maxX && b.Y2 <= maxY }

    method Update(s: Point, maxX: int, maxY: int, lvl: int) returns (b: Bounds, changed: bool, ok: bool)
      requires Valid()
      modifies this
      ensures Valid() && turns == old(turns) && destination == old(destination) && closed == old(closed) && b == bounds
      ensures ok <==> !closed && s.Z == 0 && lvl == level && OnMap(destination.area.Plus(s.X, s.Y), maxX, maxY)
      ensures if ok then shift == s && (changed <==> s != old(shift)) else shift == old(shift) && bounds == old(bounds)
      ensures ok && changed ==> bounds == destination.area.Plus(s.X, s.Y)
    {
      hide PoseOk, HasGap, Placed;
      if closed { return bounds, false, false; }
      var next := destination.area.Plus(s.X, s.Y);
      if s.Z != 0 || lvl != level || !OnMap(next, maxX, maxY) { return bounds, false, false; }
      if s == shift { return bounds, false, true; }
      shift, bounds := s, next;
      return bounds, true, true;
    }

    method Rotate(clockwise: bool, maxX: int, maxY: int, lvl: int) returns (b: Bounds, ok: bool)
      requires Valid()
      modifies this
      ensures Valid() && shift == old(shift) && closed == old(closed) && b == bounds
      ensures var t := (old(turns) + if clockwise then 1 else 3) % 4;
        ok <==>
          !closed && lvl == level && OnMap(RotatedMoveBounds(selection.area, t).Plus(shift.X, shift.Y), maxX, maxY)
      ensures ok ==> turns == (old(turns) + if clockwise then 1 else 3) % 4
      ensures ok ==> if turns == 0 then destination == selection else IsTurn(old(destination), destination, clockwise)
      ensures ok ==> bounds == RotatedMoveBounds(selection.area, turns).Plus(shift.X, shift.Y)
      ensures !ok ==> turns == old(turns) && destination == old(destination) && bounds == old(bounds)
    {
      hide PoseOk, HasGap, Placed, IsTurn;
      if closed { return bounds, false; }
      var t := (turns + if clockwise then 1 else 3) % 4;
      var next := RotatedMoveBounds(selection.area, t).Plus(shift.X, shift.Y);
      if lvl != level || !OnMap(next, maxX, maxY) { return bounds, false; }
      var dest := selection;
      if t != 0 {
        dest := NextPose(selection, gap, turns, destination, clockwise);
      } else {
        if gap.Some? { StartPoseOk(selection, gap.value); }
      }
      turns, destination, bounds := t, dest, next;
      return next, true;
    }

    method Finish()
      requires Valid()
      modifies this`closed
      ensures Valid() && closed
    {
      hide PoseOk, HasGap, Placed;
      closed := true;
    }

    /** DestinationSelection: where the mask is now. */
    function DestinationSelection(): Selection
      reads this
    {
      destination.Translate(shift)
    }

    /** For harmless bounds: the previewed mask contains a point exactly when the payload's test
        says so, which is exactly when the point is the image of a source tile. */
    lemma PreviewAgrees(p: Point)
      requires Valid() && gap.Some?
      ensures var c := SourceOf(selection.area, turns, (p.X - shift.X, p.Y - shift.Y));
        && (DestinationSelection().Has(p) <==> p.Z == level && InRuns(selection.AbsRuns(), c.0, c.1))
        && (DestinationSelection().Has(p) <==> p.Z == level && exists x, y ::
              InRuns(selection.AbsRuns(), x, y) &&
              ImageOf(selection.area, turns, (x, y)) == (p.X - shift.X, p.Y - shift.Y))
    {
      hide InRuns, IsPose, Tight, Canonical, SourceOf, ImageOf;
      var q := p.Minus(shift);
      var c := SourceOf(selection.area, turns, (q.X, q.Y));
      TranslateMembers(destination, shift, p);
      PoseMember(selection.area, turns, selection.AbsRuns(), destination.AbsRuns(), q.X, q.Y);
      ImageRoundTrip(selection.area, turns, (q.X, q.Y));
      assert ImageOf(selection.area, turns, (c.0, c.1)) == (q.X, q.Y);
      forall x, y | ImageOf(selection.area, turns, (x, y)) == (q.X, q.Y) ensures (x, y) == c {
        ImageRoundTrip(selection.area, turns, (x, y));
      }
    }
  }

  lemma PlacedValid(s: Selection)
    requires Placed(s)
    ensures s.Valid()
  {
  }

  lemma TightHasGap(s: Selection)
    ensures s.IsTight() ==> HasGap(s, 0)
  {
    assert Inset(s.area, 0) == s.area;
  }

  /** A turned selection is again a nonempty selection on the map. */
  lemma TurnedIsPlaced(s: Selection, r: Selection, clockwise: bool)
    requires Placed(s) && IsTurn(s, r, clockwise)
    ensures Placed(r) && r.z == s.z
  {
    hide InRuns, TurnedRuns, Canonical;
    var x, y :| InRuns(r.AbsRuns(), x, y) && x == r.area.X1;
    var u, v :| InRuns(r.AbsRuns(), u, v) && v == r.area.Y1;
    TurnedCellPositive(s, r, clockwise, x, y);
    TurnedCellPositive(s, r, clockwise, u, v);
    if r.AbsRuns() == [] { NoRuns(x, y); }
  }

  lemma TurnedCellPositive(s: Selection, r: Selection, clockwise: bool, u: int, v: int)
    requires Placed(s) && TurnedRuns(s.area, clockwise, s.AbsRuns(), r.AbsRuns()) && InRuns(r.AbsRuns(), u, v)
    ensures u >= 1 && v >= 1
  {
    var c := Unturn(s.area, clockwise, (u, v));
    UnturnMember(s.area, clockwise, s.AbsRuns(), r.AbsRuns(), u, v);
    if !s.Sparse() { SingleRun(s.area, c.0, c.1); }
  }

  // ---- loose bounds ---------------------------------------------------------------------------------

  /** How far the mask after two or three turns is from where the payload expects it. */
  function PoseSlip(area: Bounds, turns: int, box: Bounds): (int, int) {
    var left, right, low, high := box.X1 - area.X1, area.X2 - box.X2, box.Y1 - area.Y1, area.Y2 - box.Y2;
    if turns == 2 then (low - right, right - high) else if turns == 3 then (low - high, right - left) else (0, 0)
  }

  /** The destination and the number of turns after some accepted rotations, true for clockwise. */
  ghost predicate History(s: Selection, hs: seq<bool>, turns: int, d: Selection) {
    if hs == [] then turns == 0 && d == s
    else
      var init, clockwise := hs[..|hs| - 1], hs[|hs| - 1];
      exists t, before :: History(s, init, t, before) && TurnOf(s, t, before, clockwise, turns, d)
  }

  /** What one rotation makes of the destination; a full turn gives back the selection. */
  ghost predicate TurnOf(s: Selection, t: int, before: Selection, clockwise: bool, turns: int, d: Selection) {
    turns == (t + if clockwise then 1 else 3) % 4 && if turns == 0 then d == s else IsTurn(before, d, clockwise)
  }

  /** Every history of rotations from harmless bounds leads to the pose the payload expects. */
  lemma {:induction false} HistoryPoses(s: Selection, gap: int, hs: seq<bool>, turns: int, d: Selection)
    requires HasGap(s, gap) && History(s, hs, turns, d)
    ensures PoseOk(s, gap, turns, d)
  {
    hide HasGap, PoseOk, IsTurn;
    if hs == [] {
      StartPoseOk(s, gap);
    } else {
      var init, clockwise := hs[..|hs| - 1], hs[|hs| - 1];
      var t, before :| History(s, init, t, before) && TurnOf(s, t, before, clockwise, turns, d);
      HistoryPoses(s, gap, init, t, before);
      if turns == 0 { StartPoseOk(s, gap); } else { PoseTurn(s, gap, t, before, d, clockwise); }
    }
  }

  lemma ThreeTurns(s0: Selection, s1: Selection, s2: Selection, s3: Selection)
    requires IsTurn(s0, s1, true) && IsTurn(s1, s2, true) && IsTurn(s2, s3, true)
    ensures History(s0, [true, true], 2, s2) && History(s0, [true, true, true], 3, s3)
  {
    hide IsTurn;
    assert History(s0, [], 0, s0);
    assert [true][..0] == [];
    assert History(s0, [true], 1, s1) by { assert TurnOf(s0, 0, s0, true, 1, s1); }
    assert [true, true][..1] == [true];
    assert History(s0, [true, true], 2, s2) by { assert TurnOf(s0, 1, s1, true, 2, s2); }
    assert [true, true, true][..2] == [true, true];
    assert History(s0, [true, true, true], 3, s3) by { assert TurnOf(s0, 2, s2, true, 3, s3); }
  }

  /** The preview and the payload agree after every history of rotations, in both directions and
      mixed, if and only if the bounds leave the same gap on all four sides. */
  lemma PoseAgreesExactly(s0: Selection, s1: Selection, s2: Selection, s3: Selection, box: Bounds)
    requires IsTurn(s0, s1, true) && IsTurn(s1, s2, true) && IsTurn(s2, s3, true) && Tight(box, s0.AbsRuns())
    ensures (forall hs, turns, d :: History(s0, hs, turns, d) ==> IsPose(s0.area, turns, s0.AbsRuns(), d.AbsRuns()))
       <==> SameGaps(s0.area, box)
  {
    hide InRuns, Tight, IsTurn, IsPose, History;
    if SameGaps(s0.area, box) {
      var gap := box.X1 - s0.area.X1;
      forall hs, turns, d | History(s0, hs, turns, d) ensures IsPose(s0.area, turns, s0.AbsRuns(), d.AbsRuns()) {
        HistoryPoses(s0, gap, hs, turns, d);
      }
    } else {
      ThreeTurns(s0, s1, s2, s3);
      ThreePosesAgree(s0, s1, s2, s3, box);
    }
  }

  lemma ThreePosesAgree(s0: Selection, s1: Selection, s2: Selection, s3: Selection, box: Bounds)
    requires IsTurn(s0, s1, true) && IsTurn(s1, s2, true) && IsTurn(s2, s3, true) && Tight(box, s0.AbsRuns())
    ensures IsPose(s0.area, 2, s0.AbsRuns(), s2.AbsRuns()) && IsPose(s0.area, 3, s0.AbsRuns(), s3.AbsRuns())
       <==> SameGaps(s0.area, box)
  {
    hide InRuns, Tight, Canonical, TurnedRuns, IsPose, Slipped;
    var a, r0, r1, r2, r3 := s0.area, s0.AbsRuns(), s1.AbsRuns(), s2.AbsRuns(), s3.AbsRuns();
    TurnedArea(s0, s1, true, box);
    TurnedArea(s1, s2, true, s1.area);
    var d2, d3 := PoseSlip(a, 2, box), PoseSlip(a, 3, box);
    SlippedTwice(a, box, r0, r1, r2);
    SlippedThrice(a, box, r0, r1, r2, r3);
    SlippedIsPose(a, 2, r0, r2, box, d2.0, d2.1);
    SlippedIsPose(a, 3, r0, r3, box, d3.0, d3.1);
  }

  /** The mask lies (dx, dy) away from the pose the payload expects. */
  ghost predicate Slipped(area: Bounds, turns: int, runs: seq<Bounds>, out: seq<Bounds>, dx: int, dy: int) {
    forall u, v :: InRuns(out, u, v) <==>
      InRuns(runs, SourceOf(area, turns, (u - dx, v - dy)).0, SourceOf(area, turns, (u - dx, v - dy)).1)
  }

  lemma SlippedTwice(a: Bounds, box: Bounds, r0: seq<Bounds>, r1: seq<Bounds>, r2: seq<Bounds>)
    requires TurnedRuns(a, true, r0, r1) && TurnedRuns(TurnBox(a, true, box), true, r1, r2)
    ensures Slipped(a, 2, r0, r2, PoseSlip(a, 2, box).0, PoseSlip(a, 2, box).1)
  {
    hide InRuns, TurnedRuns;
    var b, d := TurnBox(a, true, box), PoseSlip(a, 2, box);
    forall u, v
      ensures InRuns(r2, u, v) <==>
        InRuns(r0, SourceOf(a, 2, (u - d.0, v - d.1)).0, SourceOf(a, 2, (u - d.0, v - d.1)).1)
    {
      var c := Unturn(b, true, (u, v));
      UnturnMember(b, true, r1, r2, u, v);
      UnturnMember(a, true, r0, r1, c.0, c.1);
      assert Unturn(a, true, c) == SourceOf(a, 2, (u - d.0, v - d.1));
    }
  }

  lemma SlippedThrice(a: Bounds, box: Bounds, r0: seq<Bounds>, r1: seq<Bounds>, r2: seq<Bounds>, r3: seq<Bounds>)
    requires var b := TurnBox(a, true, box);
      && TurnedRuns(a, true, r0, r1) && TurnedRuns(b, true, r1, r2) && TurnedRuns(TurnBox(b, true, b), true, r2, r3)
    ensures Slipped(a, 3, r0, r3, PoseSlip(a, 3, box).0, PoseSlip(a, 3, box).1)
  {
    hide InRuns, TurnedRuns;
    var b, d := TurnBox(a, true, box), PoseSlip(a, 3, box);
    var b' := TurnBox(b, true, b);
    forall u, v
      ensures InRuns(r3, u, v) <==>
        InRuns(r0, SourceOf(a, 3, (u - d.0, v - d.1)).0, SourceOf(a, 3, (u - d.0, v - d.1)).1)
    {
      var c := Unturn(b', true, (u, v));
      var e := Unturn(b, true, c);
      UnturnMember(b', true, r2, r3, u, v);
      UnturnMember(b, true, r1, r2, c.0, c.1);
      UnturnMember(a, true, r0, r1, e.0, e.1);
      assert Unturn(a, true, e) == SourceOf(a, 3, (u - d.0, v - d.1));
    }
  }

  lemma SlippedMember(area: Bounds, turns: int, runs: seq<Bounds>, out: seq<Bounds>, dx: int, dy: int, u: int, v: int)
    requires Slipped(area, turns, runs, out, dx, dy)
    ensures InRuns(out, u, v) <==>
      InRuns(runs, SourceOf(area, turns, (u - dx, v - dy)).0, SourceOf(area, turns, (u - dx, v - dy)).1)
  {
  }

  /** A slipped mask is the expected pose only when it has not slipped. */
  lemma SlippedIsPose(area: Bounds, turns: int, runs: seq<Bounds>, out: seq<Bounds>, box: Bounds, dx: int, dy: int)
    requires Slipped(area, turns, runs, out, dx, dy) && Tight(box, runs) && 0 <= turns < 4
    ensures IsPose(area, turns, runs, out) <==> dx == 0 && dy == 0
  {
    hide InRuns, Tight, Slipped, IsPose;
    if IsPose(area, turns, runs, out) {
      SelfMoved(area, turns, runs, out, dx, dy);
      var e := Shift(turns, dx, dy);
      MovedBounds(runs, runs, e.0, e.1, box);
      TightIsUnique(box, box.Plus(e.0, e.1), runs);
    }
    if dx == 0 && dy == 0 { UnslippedIsPose(area, turns, runs, out); }
  }

  lemma UnslippedIsPose(area: Bounds, turns: int, runs: seq<Bounds>, out: seq<Bounds>)
    requires Slipped(area, turns, runs, out, 0, 0)
    ensures IsPose(area, turns, runs, out)
  {
    hide InRuns, SourceOf;
  }

  /** A destination offset seen in source coordinates. */
  function Shift(turns: int, dx: int, dy: int): (int, int) {
    if turns == 1 then (dy, -dx) else if turns == 2 then (dx, dy) else if turns == 3 then (-dy, dx) else (-dx, -dy)
  }

  lemma SelfMoved(area: Bounds, turns: int, runs: seq<Bounds>, out: seq<Bounds>, dx: int, dy: int)
    requires Slipped(area, turns, runs, out, dx, dy) && IsPose(area, turns, runs, out) && 0 <= turns < 4
    ensures MovedRuns(runs, runs, Shift(turns, dx, dy).0, Shift(turns, dx, dy).1)
  {
    hide InRuns, Slipped, IsPose;
    var e := Shift(turns, dx, dy);
    forall x, y ensures InRuns(runs, x, y) <==> InRuns(runs, x - e.0, y - e.1) {
      var c := ImageOf(area, turns, (x - e.0, y - e.1));
      ImageRoundTrip(area, turns, (x - e.0, y - e.1));
      SlippedMember(area, turns, runs, out, dx, dy, c.0, c.1);
      PoseMember(area, turns, runs, out, c.0, c.1);
      assert SourceOf(area, turns, (c.0 - dx, c.1 - dy)) == (x, y);
    }
  }
}
