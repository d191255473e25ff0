/** Whole runs of the tile fixer (internal/aphelion/maplint/fix.go:156-174): no regression, order
    and identity of the atoms, and the turf and the area of the tile. */
module TileFixRuns {
  import opened Basics
  import opened Paths
  import opened MapLint
  import opened TileFixer

  datatype TileFix = TileFix(atoms: seq<Atom>, source: seq<int>, fixes: seq<Fix>, remaining: seq<Violation>)

  /** The step limit of the loop. */
  function StepLimit(atoms: seq<Atom>): nat { 4 * |atoms| + 16 }

  function StartState(atoms: seq<Atom>): TileState { TileState(atoms, seq(|atoms|, i => i)) }

  /** Source indices are a strictly increasing subsequence of the input's. */
  ghost predicate Sourced(t: TileState, n: nat) {
    && |t.atoms| == |t.source|
    && (forall i :: 0 <= i < |t.source| ==> 0 <= t.source[i] < n)
    && (forall i, j :: 0 <= i < j < |t.source| ==> t.source[i] < t.source[j])
  }

  /** Some atom of the tile is at or below root. */
  ghost predicate Holds(atoms: seq<Atom>, root: string)
  {
    exists i :: 0 <= i < |atoms| && AtOrBelow(atoms[i].path, root)
  }

  /** Every state of a run is what improve makes of the one before. */
  ghost predicate IsRun(shop: Shop, kinds: set<FixKind>, run: seq<TileState>) {
    && |run| > 0 && (forall i :: 0 <= i < |run| ==> StateOk(run[i]))
    && forall i, j :: 0 <= i < |run| - 1 && j == i + 1 ==> Steps(shop, kinds, run[i], run[j])
  }

  ghost predicate Steps(shop: Shop, kinds: set<FixKind>, t: TileState, next: TileState)
    requires StateOk(t)
  {
    exists c: Candidate :: c.next == next && Picked(shop, kinds, t, c)
  }

  lemma StepIsAccepted(shop: Shop, kinds: set<FixKind>, t: TileState, next: TileState) returns (c: Candidate)
    requires StateOk(t) && Steps(shop, kinds, t, next)
    ensures c.next == next && Accepted(shop, kinds, t, c)
  {
    hide Picked, Accepted;
    c :| c.next == next && Picked(shop, kinds, t, c);
    PickedIsAccepted(shop, kinds, t, c);
  }

  // ---- what an accepted step does -------------------------------------------------------------

  /** A step removes one atom or rewrites one. */
  lemma StepShape(shop: Shop, kinds: set<FixKind>, v: Violation, t: TileState, c: Candidate) returns (i: nat)
    requires StateOk(t) && Proposed(shop, kinds, v, t, c)
    ensures c.fixes != [] && i < |t.atoms|
    ensures c.next == Without(t, i) || exists a :: c.next == Replacing(t, i, a)
  {
    hide Removal, Rewrite, Without, Replacing, HasCopy;
    if k, j :| 0 <= j < |t.atoms| && Removal(kinds, v, t, k, j) && c == Candidate(Without(t, j), [FixOf(v, k)]) {
      i := j;
    } else {
      var k, b :| Rewrite(shop, kinds, v, t.atoms[v.atomIndex], k, b) &&
        c == Collapse(t, v.atomIndex, b, kinds, FixOf(v, k));
      i := v.atomIndex;
    }
  }

  lemma WithoutSourced(t: TileState, i: nat, n: nat)
    requires Sourced(t, n) && i < |t.atoms|
    ensures Sourced(Without(t, i), n)
  {
    var next := Without(t, i);
    assert forall j :: 0 <= j < |next.source| ==> next.source[j] == t.source[if j < i then j else j + 1];
  }

  lemma StepSourced(shop: Shop, kinds: set<FixKind>, t: TileState, c: Candidate, n: nat)
    requires Sourced(t, n) && Accepted(shop, kinds, t, c)
    ensures Sourced(c.next, n) && StateOk(c.next) && c.fixes != []
  {
    hide Proposed, Validates, Without;
    var v :| v in Check(shop.rules, t.atoms) && Proposed(shop, kinds, v, t, c);
    var i := StepShape(shop, kinds, v, t, c);
    WithoutSourced(t, i, n);
  }

  // ---- the turf and the area stay ------------------------------------------------------------------

  /** TypeTree.Subtypes lists strict descendants only. */
  ghost predicate DescendantsOnly(types: TypeTree) {
    forall path, sub :: sub in types.subtypes(path) ==> HasPrefix(sub, path + "/")
  }

  /** An identical-neighbour violation names two different atoms with the same path. */
  ghost predicate IdenticalIsSame(rules: Rules) {
    forall atoms: seq<Atom>, v :: v in rules(atoms) ==> PairIsSame(atoms, v)
  }

  predicate PairIsSame(atoms: seq<Atom>, v: Violation) {
    v.kind == BannedNeighbor && v.identical && 0 <= v.atomIndex < |atoms| && 0 <= v.neighborIndex < |atoms| ==>
      v.atomIndex != v.neighborIndex && atoms[v.atomIndex].path == atoms[v.neighborIndex].path
  }

  /** A one-segment root such as /turf or /area. */
  predicate IsRoot(root: string) { |root| > 0 && forall j :: 0 < j < |root| ==> root[j] != '/' }

  lemma PrefixOfPrefix(s: string, p: string, q: string)
    requires HasPrefix(s, p) && HasPrefix(p, q)
    ensures HasPrefix(s, q)
  {
    assert s[..|q|] == s[..|p|][..|q|];
  }

  lemma DescendantWithin(sub: string, path: string, root: string)
    requires HasPrefix(sub, path + "/") && AtOrBelow(path, root)
    ensures AtOrBelow(sub, root)
  {
    if path != root {
      assert (path + "/")[..|root + "/"|] == path[..|root + "/"|];
      PrefixOfPrefix(sub, path + "/", root + "/");
    }
  }

  /** The family of a directional helper lies below the same root. */
  lemma FamilyWithin(path: string, i: nat, root: string)
    requires IsRoot(root) && AtOrBelow(path, root) && 0 < i <= |path| && HasPrefix(path[i..], DIRECTIONAL)
    ensures AtOrBelow(path[..i], root)
  {
    assert DIRECTIONAL[0] == '/' && |DIRECTIONAL| == 13;
    assert path[i..][..13][0] == path[i];
    var head := root + "/";
    assert path[i] == '/';
    if path != root {
      assert forall j :: 0 <= j < |root| ==> path[..|head|][j] == head[j] == root[j];
      assert i >= |root|;
      if i == |root| {
        assert path[..i] == path[..|head|][..i] == root;
      } else {
        assert path[..i][..|head|] == path[..|head|];
      }
    }
  }

  lemma {:induction false} OthersIn(own: set<string>, subs: seq<string>, x: string)
    requires x in Others(own, subs)
    ensures x in subs
  {
    if subs[|subs| - 1] != x { OthersIn(own, subs[..|subs| - 1], x); }
  }

  lemma PromotedWithin(types: TypeTree, path: string, x: string, root: string)
    requires DescendantsOnly(types) && x in PromotionCandidates(types, path) && IsRoot(root) && AtOrBelow(path, root)
    ensures AtOrBelow(x, root)
  {
    hide AtOrBelow, Others, HasPrefix;
    var subs, i := types.subtypes(path), LastIndexFrom(path, DIRECTIONAL, |path|);
    if x in subs {
      DescendantWithin(x, path, root);
    } else {
      var own := {path} + (set s | s in subs);
      OthersIn(own, types.subtypes(path[..i]), x);
      FamilyWithin(path, i, root);
      DescendantWithin(x, path[..i], root);
    }
  }

  lemma RewriteWithin(shop: Shop, kinds: set<FixKind>, v: Violation, a: Atom, k: FixKind, b: Atom, root: string)
    requires shop.types.Some? ==> DescendantsOnly(shop.types.value)
    requires Rewrite(shop, kinds, v, a, k, b) && IsRoot(root) && AtOrBelow(a.path, root)
    ensures AtOrBelow(b.path, root)
  {
    hide AtOrBelow, IsUniqueBest, PromotionCandidates, Kept, DescendantsOnly, IsRoot;
    if b.path != a.path {
      PromotedWithin(shop.types.value, a.path, b.path, root);
    }
  }

  lemma WithoutHolds(t: TileState, i: nat, j: nat, root: string)
    requires StateOk(t) && i < |t.atoms| && j < |t.atoms| && i != j && AtOrBelow(t.atoms[j].path, root)
    ensures Holds(Without(t, i).atoms, root)
  {
    hide AtOrBelow;
    var n := if j < i then j else j - 1;
    assert Without(t, i).atoms[n] == t.atoms[j];
  }

  lemma RemovalHolds(kinds: set<FixKind>, v: Violation, t: TileState, k: FixKind, i: nat, root: string)
    requires StateOk(t) && 0 <= v.atomIndex < |t.atoms| && Removal(kinds, v, t, k, i) && i < |t.atoms|
    requires root == "/turf" || root == "/area"
    requires v.kind == BannedNeighbor && v.identical ==>
      v.atomIndex != v.neighborIndex && t.atoms[v.atomIndex].path == t.atoms[v.neighborIndex].path
    requires Holds(t.atoms, root)
    ensures Holds(Without(t, i).atoms, root)
  {
    hide AtOrBelow, Without, HasPrefix;
    var j :| 0 <= j < |t.atoms| && AtOrBelow(t.atoms[j].path, root);
    if i != j {
      WithoutHolds(t, i, j, root);
    } else {
      var other := if i == v.atomIndex then v.neighborIndex else v.atomIndex;
      WithoutHolds(t, i, other, root);
    }
  }

  lemma CollapseHolds(t: TileState, i: nat, b: Atom, kinds: set<FixKind>, f: Fix, root: string)
    requires StateOk(t) && i < |t.atoms| && Holds(t.atoms, root)
    requires AtOrBelow(t.atoms[i].path, root) ==> AtOrBelow(b.path, root)
    ensures Holds(Collapse(t, i, b, kinds, f).next.atoms, root)
  {
    hide AtOrBelow, Without;
    var j :| 0 <= j < |t.atoms| && AtOrBelow(t.atoms[j].path, root);
    if RemoveDuplicate in kinds && HasCopy(t, i, b) {
      var m :| 0 <= m < |t.atoms| && m != i && SameAtom(t.atoms[m], b);
      WithoutHolds(t, i, if j == i then m else j, root);
    } else {
      assert Replacing(t, i, b).atoms[j].path == if i == j then b.path else t.atoms[j].path;
    }
  }

  lemma StepHolds(shop: Shop, kinds: set<FixKind>, t: TileState, c: Candidate, root: string)
    requires StateOk(t) && Accepted(shop, kinds, t, c) && IdenticalIsSame(shop.rules)
    requires shop.types.Some? ==> DescendantsOnly(shop.types.value)
    requires (root == "/turf" || root == "/area") && Holds(t.atoms, root)
    ensures Holds(c.next.atoms, root)
  {
    hide Validates, Removal, Rewrite, Collapse, Without, AtOrBelow, DescendantsOnly;
    var v :| v in Check(shop.rules, t.atoms) && Proposed(shop, kinds, v, t, c);
    if k, i :| 0 <= i < |t.atoms| && Removal(kinds, v, t, k, i) && c == Candidate(Without(t, i), [FixOf(v, k)]) {
      RemovalInRange(kinds, v, t, k, i);
      RemovalHolds(kinds, v, t, k, i, root);
    } else {
      var k, b :| Rewrite(shop, kinds, v, t.atoms[v.atomIndex], k, b) &&
        c == Collapse(t, v.atomIndex, b, kinds, FixOf(v, k));
      if AtOrBelow(t.atoms[v.atomIndex].path, root) { RewriteWithin(shop, kinds, v, t.atoms[v.atomIndex], k, b, root); }
      CollapseHolds(t, v.atomIndex, b, kinds, FixOf(v, k), root);
    }
  }

  lemma RemovalInRange(kinds: set<FixKind>, v: Violation, t: TileState, k: FixKind, i: nat)
    requires 0 <= v.atomIndex < |t.atoms| && Removal(kinds, v, t, k, i)
    ensures v.kind == BannedNeighbor ==> 0 <= v.neighborIndex < |t.atoms|
  {
  }

  // ---- every atom comes from the one its source index names ---------------------------------------

  /** With None the path stays; with a root it stays at or below that root if it was there. */
  predicate PathKept(root: Option<string>, was: string, now: string) {
    match root
    case None => now == was
    case Some(r) => AtOrBelow(was, r) ==> AtOrBelow(now, r)
  }

  /** Each atom is what became of the input atom its source index names. */
  ghost predicate Traced(t: TileState, atoms: seq<Atom>, root: Option<string>) {
    && Sourced(t, |atoms|)
    && forall i :: 0 <= i < |t.atoms| ==> PathKept(root, atoms[t.source[i]].path, t.atoms[i].path)
  }

  /** What the claim needs: no promotions for an equal path, descendants only for a root. */
  ghost predicate CanTrace(shop: Shop, kinds: set<FixKind>, root: Option<string>) {
    match root
    case None => PromoteSubtype !in kinds
    case Some(r) => IsRoot(r) && (shop.types.Some? ==> DescendantsOnly(shop.types.value))
  }

  lemma RewriteTraced(shop: Shop, kinds: set<FixKind>, v: Violation, a: Atom, k: FixKind, b: Atom, root: Option<string>)
    requires CanTrace(shop, kinds, root) && Rewrite(shop, kinds, v, a, k, b)
    ensures PathKept(root, a.path, b.path)
  {
    hide AtOrBelow, Promotes, DescendantsOnly, IsRoot;
    if root.Some? && AtOrBelow(a.path, root.value) { RewriteWithin(shop, kinds, v, a, k, b, root.value); }
  }

  lemma WithoutTraced(t: TileState, i: nat, atoms: seq<Atom>, root: Option<string>)
    requires Traced(t, atoms, root) && i < |t.atoms|
    ensures Traced(Without(t, i), atoms, root)
  {
    hide PathKept, Sourced;
    WithoutSourced(t, i, |atoms|);
    SourcedRange(t, |atoms|);
    SourcedRange(Without(t, i), |atoms|);
    var next := Without(t, i);
    forall j | 0 <= j < |next.atoms| ensures PathKept(root, atoms[next.source[j]].path, next.atoms[j].path) {
      var n := if j < i then j else j + 1;
      assert next.atoms[j] == t.atoms[n] && next.source[j] == t.source[n];
    }
  }

  lemma SourcedRange(t: TileState, n: nat)
    requires Sourced(t, n)
    ensures |t.atoms| == |t.source| && forall i :: 0 <= i < |t.source| ==> 0 <= t.source[i] < n
  {
  }

  lemma PathKeptTwice(root: Option<string>, a: string, b: string, c: string)
    requires PathKept(root, a, b) && PathKept(root, b, c)
    ensures PathKept(root, a, c)
  {
  }

  lemma CollapseTraced(t: TileState, i: nat, b: Atom, kinds: set<FixKind>, f: Fix, atoms: seq<Atom>,
                       root: Option<string>)
    requires Traced(t, atoms, root) && i < |t.atoms| && PathKept(root, t.atoms[i].path, b.path)
    ensures Traced(Collapse(t, i, b, kinds, f).next, atoms, root)
  {
    hide PathKept, HasCopy, Without;
    WithoutTraced(t, i, atoms, root);
    PathKeptTwice(root, atoms[t.source[i]].path, t.atoms[i].path, b.path);
  }

  lemma StepTraced(shop: Shop, kinds: set<FixKind>, t: TileState, c: Candidate, atoms: seq<Atom>, root: Option<string>)
    requires StateOk(t) && Traced(t, atoms, root) && Accepted(shop, kinds, t, c) && CanTrace(shop, kinds, root)
    ensures Traced(c.next, atoms, root)
  {
    hide Validates, Removal, Rewrite, Collapse, Without, PathKept, CanTrace, Traced;
    var v :| v in Check(shop.rules, t.atoms) && Proposed(shop, kinds, v, t, c);
    if k, i :| 0 <= i < |t.atoms| && Removal(kinds, v, t, k, i) && c == Candidate(Without(t, i), [FixOf(v, k)]) {
      WithoutTraced(t, i, atoms, root);
    } else {
      var k, b :| Rewrite(shop, kinds, v, t.atoms[v.atomIndex], k, b) &&
        c == Collapse(t, v.atomIndex, b, kinds, FixOf(v, k));
      RewriteTraced(shop, kinds, v, t.atoms[v.atomIndex], k, b, root);
      CollapseTraced(t, v.atomIndex, b, kinds, FixOf(v, k), atoms, root);
    }
  }

  // ---- whole runs -----------------------------------------------------------------------------------

  /** No run adds a violation, and each step removes at least one. */
  lemma {:induction false} RunNeverRegresses(shop: Shop, kinds: set<FixKind>, run: seq<TileState>)
    requires IsRun(shop, kinds, run)
    ensures var first, last := Check(shop.rules, run[0].atoms), Check(shop.rules, run[|run| - 1].atoms);
      Keys(last) <= Keys(first) && |last| + |run| - 1 <= |first|
    decreases |run|
  {
    hide Keys, Check, Proposed, Picked;
    if |run| > 1 {
      var init := run[..|run| - 1];
      assert Steps(shop, kinds, run[|run| - 2], run[|run| - 1]);
      RunNeverRegresses(shop, kinds, init);
      var c := StepIsAccepted(shop, kinds, run[|run| - 2], run[|run| - 1]);
    }
  }

  /** No file and no rule is named with a NUL. */
  ghost predicate PlainRules(rules: Rules) { forall atoms :: Plain(Check(rules, atoms)) }

  /** No run trades one problem for another: none occurs more often than at the start. */
  lemma RunTradesNothing(shop: Shop, kinds: set<FixKind>, run: seq<TileState>)
    requires IsRun(shop, kinds, run) && PlainRules(shop.rules)
    ensures Problems(Check(shop.rules, run[|run| - 1].atoms)) <= Problems(Check(shop.rules, run[0].atoms))
  {
    hide Keys, Problems, Check, Plain, Steps;
    var first, last := Check(shop.rules, run[0].atoms), Check(shop.rules, run[|run| - 1].atoms);
    RunNeverRegresses(shop, kinds, run);
    ProblemsFollowKeys(last, last, first);
  }

  /** A tile has one run of each length: FixTile has no choice. */
  lemma {:induction false} RunIsUnique(shop: Shop, kinds: set<FixKind>, run: seq<TileState>, other: seq<TileState>)
    requires IsRun(shop, kinds, run) && IsRun(shop, kinds, other) && run[0] == other[0] && |run| == |other|
    ensures run == other
    decreases |run|
  {
    hide Picked;
    if |run| > 1 {
      var n := |run| - 1;
      RunIsUnique(shop, kinds, run[..n], other[..n]);
      assert run[..n][n - 1] == other[..n][n - 1];
      assert Steps(shop, kinds, run[n - 1], run[n]) && Steps(shop, kinds, other[n - 1], other[n]);
      var c: Candidate :| c.next == run[n] && Picked(shop, kinds, run[n - 1], c);
      var d: Candidate :| d.next == other[n] && Picked(shop, kinds, run[n - 1], d);
      PickedOnce(shop, kinds, run[n - 1], c, d);
      assert run == run[..n] + [run[n]] && other == other[..n] + [other[n]];
    }
  }

  /** Along a run every atom stays what became of the input atom its source index names: the
      same path when promotion is off, the same root in any case. */
  lemma {:induction false} RunIsTraced(shop: Shop, kinds: set<FixKind>, run: seq<TileState>, atoms: seq<Atom>,
                                       root: Option<string>)
    requires IsRun(shop, kinds, run) && run[0] == StartState(atoms) && CanTrace(shop, kinds, root)
    ensures Traced(run[|run| - 1], atoms, root)
    decreases |run|
  {
    hide Traced, Accepted, CanTrace, Picked;
    if |run| == 1 {
      StartTraced(atoms, root);
    } else {
      var init := run[..|run| - 1];
      assert Steps(shop, kinds, run[|run| - 2], run[|run| - 1]);
      RunIsTraced(shop, kinds, init, atoms, root);
      var c := StepIsAccepted(shop, kinds, run[|run| - 2], run[|run| - 1]);
      StepTraced(shop, kinds, run[|run| - 2], c, atoms, root);
    }
  }

  lemma StartTraced(atoms: seq<Atom>, root: Option<string>)
    ensures Traced(StartState(atoms), atoms, root)
  {
  }

  /** A tile that had a turf, or an area, still has one. */
  lemma {:induction false} RunKeepsRoots(shop: Shop, kinds: set<FixKind>, run: seq<TileState>, root: string)
    requires IsRun(shop, kinds, run) && IdenticalIsSame(shop.rules)
    requires shop.types.Some? ==> DescendantsOnly(shop.types.value)
    requires (root == "/turf" || root == "/area") && Holds(run[0].atoms, root)
    ensures Holds(run[|run| - 1].atoms, root)
    decreases |run|
  {
    hide Holds, Accepted, Picked, IdenticalIsSame, DescendantsOnly;
    if |run| > 1 {
      var init := run[..|run| - 1];
      assert Steps(shop, kinds, run[|run| - 2], run[|run| - 1]);
      RunKeepsRoots(shop, kinds, init, root);
      var c := StepIsAccepted(shop, kinds, run[|run| - 2], run[|run| - 1]);
      StepHolds(shop, kinds, run[|run| - 2], c, root);
    }
  }

  /** The fixes that the candidate picked at a step records. */
  ghost function FixesOf(shop: Shop, kinds: set<FixKind>, t: TileState, next: TileState): seq<Fix>
    requires StateOk(t) && Steps(shop, kinds, t, next)
  {
    var c: Candidate :| c.next == next && Picked(shop, kinds, t, c);
    c.fixes
  }

  lemma FixesOfPicked(shop: Shop, kinds: set<FixKind>, t: TileState, c: Candidate)
    requires StateOk(t) && Picked(shop, kinds, t, c)
    ensures Steps(shop, kinds, t, c.next) && FixesOf(shop, kinds, t, c.next) == c.fixes
  {
    hide Picked;
    var d: Candidate :| d.next == c.next && Picked(shop, kinds, t, d) && d.fixes == FixesOf(shop, kinds, t, c.next);
    PickedOnce(shop, kinds, t, c, d);
  }

  /** The fixes recorded along a run. */
  ghost function FixesAlong(shop: Shop, kinds: set<FixKind>, run: seq<TileState>): seq<Fix>
    requires IsRun(shop, kinds, run)
  {
    if |run| == 1 then []
    else
      var n := |run| - 1;
      assert Steps(shop, kinds, run[n - 1], run[n]);
      FixesAlong(shop, kinds, run[..n]) + FixesOf(shop, kinds, run[n - 1], run[n])
  }

  lemma FixesNext(shop: Shop, kinds: set<FixKind>, run: seq<TileState>, c: Candidate)
    requires IsRun(shop, kinds, run) && Picked(shop, kinds, run[|run| - 1], c)
    requires IsRun(shop, kinds, run + [c.next])
    ensures FixesAlong(shop, kinds, run + [c.next]) == FixesAlong(shop, kinds, run) + c.fixes
  {
    hide Picked;
    assert (run + [c.next])[..|run|] == run;
    FixesOfPicked(shop, kinds, run[|run| - 1], c);
  }

  // ---- FixTile --------------------------------------------------------------------------------------

  /** FixTile. `run` is the run it took. The violation count bounds the number of steps. */
  method FixTile(shop: Shop, kinds: set<FixKind>, atoms: seq<Atom>) returns (fix: TileFix, ghost run: seq<TileState>)
    ensures IsRun(shop, kinds, run) && run[0] == StartState(atoms) && run[|run| - 1] == TileState(fix.atoms, fix.source)
    ensures fix.remaining == Check(shop.rules, fix.atoms) && (fix.fixes == [] <==> |run| == 1)
    ensures fix.fixes == FixesAlong(shop, kinds, run)
    ensures Keys(fix.remaining) <= Keys(Check(shop.rules, atoms))
    ensures PlainRules(shop.rules) ==> Problems(fix.remaining) <= Problems(Check(shop.rules, atoms))
    ensures fix.fixes != [] ==> |fix.remaining| < |Check(shop.rules, atoms)|
    ensures Sourced(TileState(fix.atoms, fix.source), |atoms|)
    ensures |run| - 1 <= StepLimit(atoms)
    ensures IdenticalIsSame(shop.rules) && (shop.types.Some? ==> DescendantsOnly(shop.types.value)) ==>
      (Holds(atoms, "/turf") ==> Holds(fix.atoms, "/turf")) && (Holds(atoms, "/area") ==> Holds(fix.atoms, "/area"))
    ensures fix.remaining == [] || |run| - 1 == StepLimit(atoms) || Stuck(shop, kinds, TileState(fix.atoms, fix.source))
  {
    hide Stuck, Accepted, Picked, Sourced, IsRun, Keys, Problems, PlainRules, Holds, IdenticalIsSame, DescendantsOnly;
    var cur, violations := StartState(atoms), Check(shop.rules, atoms);
    var fixes, steps := [], 0;
    run := [cur];
    StartSourced(atoms);
    StartRun(shop, kinds, cur);
    while violations != [] && steps < StepLimit(atoms)
      invariant Sourced(cur, |atoms|) && StateOk(cur) && violations == Check(shop.rules, cur.atoms)
      invariant IsRun(shop, kinds, run) && |run| == steps + 1 && run[0] == StartState(atoms) && run[steps] == cur
      invariant (fixes == [] <==> steps == 0) && steps <= StepLimit(atoms)
      invariant fixes == FixesAlong(shop, kinds, run)
      decreases |violations|
    {
      var c, ok := Improve(shop, kinds, cur, violations);
      if !ok { break; }
      StepSourced(shop, kinds, cur, c, |atoms|);
      FewerViolations(shop, kinds, cur, c);
      ExtendRun(shop, kinds, run, c);
      FixesNext(shop, kinds, run, c);
      cur, fixes, steps := c.next, fixes + c.fixes, steps + 1;
      violations := Check(shop.rules, cur.atoms);
      run := run + [cur];
    }
    RunNeverRegresses(shop, kinds, run);
    if PlainRules(shop.rules) { RunTradesNothing(shop, kinds, run); }
    RunHolds(shop, kinds, run);
    fix := TileFix(cur.atoms, cur.source, fixes, violations);
  }

  lemma RunHolds(shop: Shop, kinds: set<FixKind>, run: seq<TileState>)
    requires IsRun(shop, kinds, run)
    ensures IdenticalIsSame(shop.rules) && (shop.types.Some? ==> DescendantsOnly(shop.types.value)) ==>
      forall root ::
        (root == "/turf" || root == "/area") && Holds(run[0].atoms, root) ==> Holds(run[|run| - 1].atoms, root)
  {
    hide Holds, IdenticalIsSame, DescendantsOnly;
    if IdenticalIsSame(shop.rules) && (shop.types.Some? ==> DescendantsOnly(shop.types.value)) {
      forall root | (root == "/turf" || root == "/area") &&
        Holds(run[0].atoms, root) ensures Holds(run[|run| - 1].atoms, root) {
        RunKeepsRoots(shop, kinds, run, root);
      }
    }
  }

  lemma StartSourced(atoms: seq<Atom>)
    ensures Sourced(StartState(atoms), |atoms|) && StateOk(StartState(atoms))
  {
  }

  /** The measure of the loop. */
  lemma FewerViolations(shop: Shop, kinds: set<FixKind>, t: TileState, c: Candidate)
    requires StateOk(t) && Accepted(shop, kinds, t, c)
    ensures |Check(shop.rules, c.next.atoms)| < |Check(shop.rules, t.atoms)|
  {
  }

  lemma StartRun(shop: Shop, kinds: set<FixKind>, t: TileState)
    requires StateOk(t)
    ensures IsRun(shop, kinds, [t])
  {
  }

  lemma ExtendRun(shop: Shop, kinds: set<FixKind>, run: seq<TileState>, c: Candidate)
    requires IsRun(shop, kinds, run) && StateOk(run[|run| - 1]) && Picked(shop, kinds, run[|run| - 1], c) &&
      StateOk(c.next)
    ensures IsRun(shop, kinds, run + [c.next])
  {
    hide Picked;
  }

  // ---- the step limit can cut a run short ---------------------------------------------------------

  /** With no more violations than the limit allows steps, a run that reaches it is clean. */
  lemma FewViolationsFinish(shop: Shop, kinds: set<FixKind>, atoms: seq<Atom>, run: seq<TileState>)
    requires IsRun(shop, kinds, run) && run[0] == StartState(atoms) && |run| - 1 == StepLimit(atoms)
    requires |Check(shop.rules, atoms)| <= StepLimit(atoms)
    ensures Check(shop.rules, run[|run| - 1].atoms) == []
  {
    RunNeverRegresses(shop, kinds, run);
  }

  function Name(n: nat): string { if n == 0 then "" else Name(n - 1) + "x" }

  lemma {:induction false} NameLength(n: nat)
    ensures |Name(n)| == n && forall i :: 0 <= i < n ==> Name(n)[i] == 'x'
  {
    if n > 0 { NameLength(n - 1); }
  }

  /** One violation for each of the first n names that the atom edits. */
  function BannedIn(vars: map<string, string>, n: nat): seq<Violation> {
    if n == 0 then []
    else BannedIn(vars, n - 1) +
         if Name(n) in vars then [Violation("rules", "/obj", BannedVariable, Name(n), 0, -1, Name(n), false)] else []
  }

  /** Rules that ban v variables on the first atom. */
  function BanNames(v: nat): Rules { (atoms: seq<Atom>) => if atoms == [] then [] else BannedIn(atoms[0].vars, v) }

  function NoVariants(text: string): seq<string> { [] }

  function SameText(a: string, b: string): bool { a == b }

  /** A rule set that behaves, and no types. */
  function NamesShop(v: nat): Shop { Shop(BanNames(v), None, SameText, NoVariants) }

  function Edits(n: nat): map<string, string> { if n == 0 then map[] else Edits(n - 1)[Name(n) := "1"] }

  /** A tile of n atoms, the first of which has v banned edits. */
  function EditedTile(n: nat, v: nat): seq<Atom>
    requires n >= 1
  {
    [Atom("/obj", Edits(v))] + seq(n - 1, i => Atom("/turf", map[]))
  }

  lemma {:induction false} EditsHave(n: nat, m: nat)
    ensures Name(m) in Edits(n) <==> 1 <= m <= n
  {
    if n > 0 {
      EditsHave(n - 1, m);
      NameLength(n);
      NameLength(m);
    }
  }

  lemma {:induction false} BannedInSize(vars: map<string, string>, n: nat)
    requires forall m :: 1 <= m <= n ==> Name(m) in vars
    ensures |BannedIn(vars, n)| == n
  {
    if n > 0 { BannedInSize(vars, n - 1); }
  }

  lemma {:induction false} BannedInMember(vars: map<string, string>, n: nat, v: Violation)
    requires v in BannedIn(vars, n)
    ensures v.kind == BannedVariable && v.atomIndex == 0
    ensures exists m :: 1 <= m <= n && v.variable == Name(m) && Name(m) in vars
  {
    if v in BannedIn(vars, n - 1) { BannedInMember(vars, n - 1, v); }
  }

  lemma MoreKeys(a: multiset<string>, b: multiset<string>, key: string)
    requires a <= b
    ensures a + multiset{key} <= b + multiset{key} && a <= b + multiset{key}
  {
  }

  /** Stripping one of the names removes exactly its violation. */
  lemma {:induction false} StripOne(vars: map<string, string>, n: nat, m: nat)
    requires Name(m) in vars
    ensures |BannedIn(vars - {Name(m)}, n)| == |BannedIn(vars, n)| - if 1 <= m <= n then 1 else 0
    ensures Keys(BannedIn(vars - {Name(m)}, n)) <= Keys(BannedIn(vars, n))
  {
    hide Keys, Name;
    NoKeys();
    if n > 0 {
      StripOne(vars, n - 1, m);
      NameLength(n);
      NameLength(m);
      var a, b := BannedIn(vars - {Name(m)}, n - 1), BannedIn(vars, n - 1);
      if Name(n) in vars {
        var v := Violation("rules", "/obj", BannedVariable, Name(n), 0, -1, Name(n), false);
        KeysSnoc(b, v);
        MoreKeys(Keys(a), Keys(b), KeyOf(v));
        if m != n { KeysSnoc(a, v); }
      }
      assert a + [] == a && b + [] == b;
    }
  }

  /** A state of the example: the edited object comes first. */
  ghost predicate ObjectFirst(t: TileState) { StateOk(t) && |t.atoms| >= 1 && t.atoms[0].path == "/obj" }

  lemma ObjectFirstOk(t: TileState)
    requires ObjectFirst(t)
    ensures StateOk(t)
  {
  }

  function Stripped(t: TileState, m: nat): TileState
    requires |t.atoms| >= 1
  {
    Replacing(t, 0, Atom("/obj", t.atoms[0].vars - {Name(m)}))
  }

  /** What the only enabled fix does to the example. */
  lemma ProposedStrip(n: nat, t: TileState, v: Violation, m: nat, c: Candidate)
    requires ObjectFirst(t) && v.kind == BannedVariable && v.atomIndex == 0 && v.variable == Name(m) && 1 <= m
    ensures Proposed(NamesShop(n), {StripVariables}, v, t, c) <==>
      c == Candidate(Stripped(t, m), [FixOf(v, StripVariables)])
  {
    NameLength(m);
    assert Name(m)[0] == 'x';
    var a := t.atoms[0];
    var b := Atom("/obj", a.vars - {Name(m)});
    assert StripKind(a, {v.variable}) == StripVariables by { assert {v.variable} * POSITIONAL_VARS == {}; }
    assert Rewrite(NamesShop(n), {StripVariables}, v, a, StripVariables, b);
    assert Collapse(t, 0, b, {StripVariables}, FixOf(v, StripVariables)).next == Stripped(t, m);
  }

  /** Each accepted step of the example removes exactly one violation. */
  lemma StripStep(n: nat, t: TileState, c: Candidate)
    requires ObjectFirst(t) && Accepted(NamesShop(n), {StripVariables}, t, c)
    ensures ObjectFirst(c.next) && |BanNames(n)(c.next.atoms)| == |BanNames(n)(t.atoms)| - 1
  {
    hide Proposed, Validates, Keys;
    var vs := BanNames(n)(t.atoms);
    var v :| v in vs && Proposed(NamesShop(n), {StripVariables}, v, t, c);
    BannedInMember(t.atoms[0].vars, n, v);
    var m :| 1 <= m <= n && v.variable == Name(m) && Name(m) in t.atoms[0].vars;
    ProposedStrip(n, t, v, m, c);
    StripOne(t.atoms[0].vars, n, m);
  }

  /** As long as a violation is left, the example is not stuck. */
  lemma StripExists(n: nat, t: TileState)
    requires ObjectFirst(t) && BanNames(n)(t.atoms) != []
    ensures !Stuck(NamesShop(n), {StripVariables}, t)
  {
    hide Proposed, Keys;
    var vs := BanNames(n)(t.atoms);
    var v := vs[0];
    BannedInMember(t.atoms[0].vars, n, v);
    var m :| 1 <= m <= n && v.variable == Name(m) && Name(m) in t.atoms[0].vars;
    var c := Candidate(Stripped(t, m), [FixOf(v, StripVariables)]);
    ProposedStrip(n, t, v, m, c);
    StripOne(t.atoms[0].vars, n, m);
    assert v in vs && Validates(NamesShop(n), t, c);
  }

  lemma {:induction false} StripRun(n: nat, run: seq<TileState>)
    requires IsRun(NamesShop(n), {StripVariables}, run) && ObjectFirst(run[0])
    ensures ObjectFirst(run[|run| - 1])
    ensures |BanNames(n)(run[|run| - 1].atoms)| == |BanNames(n)(run[0].atoms)| - (|run| - 1)
    decreases |run|
  {
    hide Accepted, Picked, ObjectFirst, BanNames;
    if |run| > 1 {
      var init, t := run[..|run| - 1], run[|run| - 2];
      assert Steps(NamesShop(n), {StripVariables}, t, run[|run| - 1]);
      StripRun(n, init);
      var c := StepIsAccepted(NamesShop(n), {StripVariables}, t, run[|run| - 1]);
      StripStep(n, t, c);
    }
  }

  lemma {:induction false} StripRunExists(n: nat, t: TileState, k: nat) returns (run: seq<TileState>)
    requires ObjectFirst(t) && k <= |BanNames(n)(t.atoms)|
    ensures IsRun(NamesShop(n), {StripVariables}, run) && run[0] == t && |run| == k + 1
  {
    hide Accepted, Picked, BanNames, Stuck, IsRun, ObjectFirst;
    ObjectFirstOk(t);
    if k == 0 {
      run := [t];
      StartRun(NamesShop(n), {StripVariables}, t);
    } else {
      run := StripRunExists(n, t, k - 1);
      StripRun(n, run);
      ObjectFirstOk(run[|run| - 1]);
      StripExists(n, run[|run| - 1]);
      var c := PickExists(NamesShop(n), {StripVariables}, run[|run| - 1]);
      PickedIsAccepted(NamesShop(n), {StripVariables}, run[|run| - 1], c);
      StripStep(n, run[|run| - 1], c);
      assert StateOk(c.next) by { ObjectFirstOk(c.next); }
      ExtendRun(NamesShop(n), {StripVariables}, run, c);
      run := run + [c.next];
    }
  }

  lemma EditedTileCounts(n: nat, v: nat)
    requires n >= 1
    ensures |EditedTile(n, v)| == n && |BanNames(v)(EditedTile(n, v))| == v && ObjectFirst(StartState(EditedTile(n, v)))
  {
    forall m | 1 <= m <= v ensures Name(m) in Edits(v) { EditsHave(v, m); }
    BannedInSize(Edits(v), v);
  }

  /** A run that the limit stops although its last tile could still be improved. */
  ghost predicate CutShort(shop: Shop, kinds: set<FixKind>, atoms: seq<Atom>, run: seq<TileState>) {
    && IsRun(shop, kinds, run) && run[0] == StartState(atoms) && |run| - 1 == StepLimit(atoms)
    && Check(shop.rules, run[|run| - 1].atoms) != [] && !Stuck(shop, kinds, run[|run| - 1])
  }

  ghost predicate CanBeCutShort(n: nat, v: nat) {
    exists shop: Shop, kinds, atoms, run ::
      |atoms| == n && |Check(shop.rules, atoms)| == v && CutShort(shop, kinds, atoms, run)
  }

  /** The limit can cut a tile of n atoms and v violations short if and only if there are more
      violations than it allows steps. */
  lemma LimitIsExact(n: nat, v: nat)
    requires n >= 1
    ensures CanBeCutShort(n, v) <==> v > 4 * n + 16
  {
    hide IsRun, Stuck, BanNames;
    if v > 4 * n + 16 {
      var atoms := EditedTile(n, v);
      EditedTileCounts(n, v);
      var run := StripRunExists(v, StartState(atoms), StepLimit(atoms));
      StripRun(v, run);
      StripExists(v, run[|run| - 1]);
      assert CutShort(NamesShop(v), {StripVariables}, atoms, run);
    } else {
      forall shop: Shop, kinds, atoms, run | |atoms| == n && |Check(shop.rules, atoms)| == v
        ensures !CutShort(shop, kinds, atoms, run)
      {
        if CutShort(shop, kinds, atoms, run) { FewViolationsFinish(shop, kinds, atoms, run); }
      }
    }
  }

  /** The limit is not only a guard: FixTile leaves banned edits on the example although each of
      them could still be stripped, exactly as many as exceed the limit. */
  method FixEdited(n: nat, v: nat) returns (fix: TileFix)
    requires n >= 1 && v > 4 * n + 16
    ensures |fix.remaining| == v - (4 * n + 16) > 0
    ensures |fix.atoms| == |fix.source| && !Stuck(NamesShop(v), {StripVariables}, TileState(fix.atoms, fix.source))
  {
    hide IsRun, Stuck, BanNames, Sourced, Holds, IdenticalIsSame, DescendantsOnly;
    var atoms := EditedTile(n, v);
    EditedTileCounts(n, v);
    ghost var run;
    fix, run := FixTile(NamesShop(v), {StripVariables}, atoms);
    StripRun(v, run);
    StripExists(v, run[|run| - 1]);
  }
}
