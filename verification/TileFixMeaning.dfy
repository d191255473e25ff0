/** What a fix does to a tile (internal/aphelion/maplint/fix.go:212-450), told by what remains of each
    atom and each of its variables. */
module TileFixMeaning {
  import opened Basics
  import opened Paths
  import opened MapLint
  import opened TileFixer

  // ---- promotion ---------------------------------------------------------------------------------

  /** The type itself has the value that the atom is edited to. */
  predicate Restates(shop: Shop, types: TypeTree, path: string, name: string, value: string) {
    match types.value(path, name)
    case None => false
    case Some(initial) => shop.sameValue(initial, value)
  }

  predicate IsPixelOffset(name: string) { |name| >= 6 && name[..6] == "pixel_" }

  /** The type has all banned values of its own, and differs from the atom's type only where the atom
      is edited anyway, or in the dir that belongs to a pixel offset. */
  ghost predicate StandsIn(shop: Shop, types: TypeTree, a: Atom, banned: set<string>, sub: string)
    requires banned <= a.vars.Keys
  {
    && !types.isAbstract(sub)
    && (forall name :: name in banned ==> Restates(shop, types, sub, name, a.vars[name]))
    && (forall name :: name in types.differing(a.path, sub) ==>
          name in a.vars || (name == "dir" && exists b :: b in banned && IsPixelOffset(b)))
  }

  lemma EligibleStandsIn(shop: Shop, types: TypeTree, a: Atom, banned: set<string>, sub: string)
    requires banned <= a.vars.Keys
    ensures Eligible(shop, types, a, banned, sub) <==> StandsIn(shop, types, a, banned, sub)
  {
    forall name ensures Explained(a, banned, name) <==>
      name in a.vars || (name == "dir" && exists b :: b in banned && IsPixelOffset(b))
    {
      PixelMeaning(banned);
    }
    hide Explained;
    var ds := types.differing(a.path, sub);
    assert (forall k :: 0 <= k < |ds| ==> Explained(a, banned, ds[k])) <==> forall n :: n in ds ==>
      Explained(a, banned, n);
  }

  lemma PixelMeaning(banned: set<string>)
    ensures (exists b :: b in banned && HasPrefix(b, "pixel_")) <==> exists b :: b in banned && IsPixelOffset(b)
  {
    assert forall b: string :: HasPrefix(b, "pixel_") <==> IsPixelOffset(b);
  }

  lemma {:induction false} OthersMeaning(own: set<string>, subs: seq<string>, x: string)
    ensures x in Others(own, subs) <==> x in subs && x !in own
  {
    if subs != [] {
      OthersMeaning(own, subs[..|subs| - 1], x);
      assert x in subs <==> x in subs[..|subs| - 1] || x == subs[|subs| - 1];
    }
  }

  /** Candidates are the subtypes and, for a directional helper, the other helpers of its family. */
  lemma CandidatesMeaning(types: TypeTree, path: string, x: string)
    ensures x in PromotionCandidates(types, path) <==>
      || x in types.subtypes(path)
      || exists i :: 0 < i <= |path| && HasPrefix(path[i..], "/directional/")
                     && (forall j :: i < j <= |path| ==> !HasPrefix(path[j..], "/directional/"))
                     && x in types.subtypes(path[..i]) && x != path
  {
    hide HasPrefix, Others;
    var subs, i := types.subtypes(path), LastIndexFrom(path, DIRECTIONAL, |path|);
    if i > 0 {
      OthersMeaning({path} + (set s | s in subs), types.subtypes(path[..i]), x);
      assert x in PromotionCandidates(types, path) <==> x in subs || (x in types.subtypes(path[..i]) && x != path);
    }
  }

  /** Every edit of the atom is still in effect on b: as an edit, or because the type says the same. */
  ghost predicate KeepsEdits(shop: Shop, types: TypeTree, a: Atom, b: Atom) {
    forall name :: name in a.vars ==>
      if name in b.vars then b.vars[name] == a.vars[name] else Restates(shop, types, b.path, name, a.vars[name])
  }

  /** A promotion replaces the type by the one that stands in with the fewest differences, and no
      edit loses its effect; the banned edits are gone, no other is added. */
  lemma PromotionMeaning(shop: Shop, types: TypeTree, a: Atom, banned: set<string>, b: Atom)
    requires Promotes(shop, types, a, banned, Some(b))
    ensures banned <= a.vars.Keys && b.path in PromotionCandidates(types, a.path)
    ensures StandsIn(shop, types, a, banned, b.path) && KeepsEdits(shop, types, a, b)
    ensures b.vars.Keys <= a.vars.Keys - banned
    ensures forall sub :: sub in PromotionCandidates(types, a.path) && StandsIn(shop, types, a, banned, sub) ==>
      sub == b.path || |types.differing(a.path, b.path)| < |types.differing(a.path, sub)|
  {
    hide Eligible, StandsIn, PromotionCandidates;
    var cands := PromotionCandidates(types, a.path);
    var scores := Scores(shop, types, a, banned, cands);
    var i :| 0 <= i < |cands| && IsUniqueBest(shop, types, a, banned, cands, i) &&
      b == Atom(cands[i], Kept(shop, types, a, banned, cands[i]));
    assert scores[i] == ScoreOf(shop, types, a, banned, cands[i]);
    EligibleStandsIn(shop, types, a, banned, b.path);
    forall sub | sub in cands && StandsIn(shop, types, a, banned, sub)
      ensures sub == b.path || |types.differing(a.path, b.path)| < |types.differing(a.path, sub)|
    {
      EligibleStandsIn(shop, types, a, banned, sub);
      var j :| 0 <= j < |cands| && cands[j] == sub;
      assert scores[j] == ScoreOf(shop, types, a, banned, cands[j]);
    }
    BannedRestated(shop, types, a, banned, b.path);
  }

  lemma BannedRestated(shop: Shop, types: TypeTree, a: Atom, banned: set<string>, sub: string)
    requires banned <= a.vars.Keys && StandsIn(shop, types, a, banned, sub)
    ensures forall name :: name in banned ==> Restates(shop, types, sub, name, a.vars[name])
  {
  }

  /** No promotion means that no type stands in, or that every one that does is tied or beaten. */
  lemma NoPromotionMeaning(shop: Shop, types: TypeTree, a: Atom, banned: set<string>, i: nat)
    requires Promotes(shop, types, a, banned, None) && banned != {} && banned <= a.vars.Keys
    requires var cands := PromotionCandidates(types, a.path);
      i < |cands| && StandsIn(shop, types, a, banned, cands[i])
    ensures var cands := PromotionCandidates(types, a.path);
      exists j :: 0 <= j < |cands| && j != i && StandsIn(shop, types, a, banned, cands[j]) &&
                  |types.differing(a.path, cands[j])| <= |types.differing(a.path, cands[i])|
  {
    hide Eligible, StandsIn, PromotionCandidates;
    var cands := PromotionCandidates(types, a.path);
    var scores := Scores(shop, types, a, banned, cands);
    EligibleStandsIn(shop, types, a, banned, cands[i]);
    assert scores[i] == ScoreOf(shop, types, a, banned, cands[i]);
    assert !IsUniqueBest(shop, types, a, banned, cands, i);
    var j :| 0 <= j < |scores| && j != i && scores[j].Some? && scores[j].value <= scores[i].value;
    assert scores[j] == ScoreOf(shop, types, a, banned, cands[j]);
    EligibleStandsIn(shop, types, a, banned, cands[j]);
  }

  // ---- the other rewrites --------------------------------------------------------------------------

  /** The variables agree except for the named ones. */
  ghost predicate SameExcept(a: Atom, b: Atom, names: set<string>) {
    forall name :: name !in names ==>
      (name in a.vars <==> name in b.vars) && (name in a.vars ==> a.vars[name] == b.vars[name])
  }

  /** Which variables place or connect an object. */
  predicate IsPositional(name: string) {
    name == "pixel_x" || name == "pixel_y" || name == "pixel_w" || name == "pixel_z" || name == "dir"
    || name == "piping_layer" || name == "cable_layer"
  }

  predicate IsText(name: string) { name == "name" || name == "desc" }

  /** The variables a violation of variables is about. */
  function Complained(v: Violation, a: Atom): set<string> {
    if v.kind == BannedVariables then a.vars.Keys else {v.variable}
  }

  /** A light variable of a fixture and the bulb variable that takes its value. */
  predicate BulbFor(light: string, bulb: string) {
    || (light == "light_range" && bulb == "brightness") || (light == "light_power" && bulb == "bulb_power")
    || (light == "light_color" && bulb == "bulb_colour")
  }

  /** The type's own value of a variable, if the types are known and it has one. */
  function InitialOf(shop: Shop, path: string, name: string): Option<string> {
    if shop.types.None? then None else shop.types.value.value(path, name)
  }

  /** One text is replaced by one of its variants. */
  ghost predicate TextChanged(shop: Shop, v: Violation, a: Atom, b: Atom) {
    && v.kind == BannedVariable && IsText(v.variable) && v.variable in b.vars && SameExcept(a, b, {v.variable})
    && b.vars[v.variable] in shop.variants(if v.variable in a.vars then a.vars[v.variable] else "")
  }

  /** The variables complained of are gone, none of them a text. */
  ghost predicate Stripped(v: Violation, a: Atom, b: Atom) {
    SameExcept(a, b, Complained(v, a)) && forall name :: name in Complained(v, a) ==> name !in b.vars && !IsText(name)
  }

  /** The complaint touches the place of something that is not an area. */
  ghost predicate Misplaces(v: Violation, a: Atom) {
    && (exists name :: name in Complained(v, a) && IsPositional(name))
    && a.path != "/area" && !HasPrefix(a.path, "/area/")
  }

  /** The light variable is gone and its bulb variable has its value, as an edit or of its own, unless
      that was edited already. */
  ghost predicate LightMoved(shop: Shop, a: Atom, light: string, b: Atom) {
    && light in a.vars && light !in b.vars
    && ((forall bulb :: !BulbFor(light, bulb)) ==> SameExcept(a, b, {light}))
    && (forall bulb :: BulbFor(light, bulb) ==> SameExcept(a, b, {light, bulb}) && BulbTakes(shop, a, light, bulb, b))
  }

  ghost predicate BulbTakes(shop: Shop, a: Atom, light: string, bulb: string, b: Atom)
    requires light in a.vars
  {
    if bulb in a.vars then bulb in b.vars && b.vars[bulb] == a.vars[bulb]
    else if bulb in b.vars then b.vars[bulb] == a.vars[light]
    else
      var initial := InitialOf(shop, a.path, bulb);
      initial.Some? && shop.sameValue(initial.value, a.vars[light])
  }

  /** A rewritten atom keeps its type unless it is promoted, and changes only what the violation
      complains of: a text is replaced by one of its variants, a stripped variable is gone, and the
      value of a light variable passes to its bulb variable, unless that is edited already. */
  lemma RewriteMeaning(shop: Shop, kinds: set<FixKind>, v: Violation, a: Atom, k: FixKind, b: Atom)
    requires Rewrite(shop, kinds, v, a, k, b)
    ensures k in kinds && (k != PromoteSubtype ==> b.path == a.path)
    ensures k == PromoteSubtype ==>
      shop.types.Some? && Promotes(shop, shop.types.value, a, Complained(v, a), Some(b))
    ensures k == CapitalizeText ==> TextChanged(shop, v, a, b)
    ensures k == StripVariables || k == StripPositional ==> Stripped(v, a, b)
    ensures k == StripVariables ==> !Misplaces(v, a)
    ensures k == StripPositional ==> Misplaces(v, a)
    ensures k == StripRedundant || k == StripInertDir ==>
      v.variable in a.vars && v.variable !in b.vars && SameExcept(a, b, {v.variable})
    ensures k == MoveFixtureLight ==> LightMoved(shop, a, v.variable, b)
  {
    hide Promotes, HasPrefix;
    match k
    case MoveFixtureLight =>
      RewiredMeaning(shop, a, v.variable);
    case StripVariables =>
      StripMeaning(v, a);
    case StripPositional =>
      StripMeaning(v, a);
    case CapitalizeText =>
      TextMeaning(shop, a, v.variable, b);
    case _ =>
  }

  lemma TextMeaning(shop: Shop, a: Atom, name: string, b: Atom)
    requires name in TEXT_VARS && IsVariant(a, name, shop.variants(Value(a, name)), b)
    ensures IsText(name) && b.path == a.path && name in b.vars && SameExcept(a, b, {name})
    ensures b.vars[name] in shop.variants(if name in a.vars then a.vars[name] else "")
  {
  }

  lemma StripMeaning(v: Violation, a: Atom)
    ensures BannedNames(v, a) == Complained(v, a)
    ensures BannedNames(v, a) !! TEXT_VARS <==> forall name :: name in Complained(v, a) ==> !IsText(name)
    ensures StripKind(a, BannedNames(v, a)) == if Misplaces(v, a) then StripPositional else StripVariables
  {
    hide HasPrefix;
    var banned := BannedNames(v, a);
    assert forall name :: name in POSITIONAL_VARS <==> IsPositional(name);
    assert forall name :: name in TEXT_VARS <==> IsText(name);
    assert forall name :: name in banned * POSITIONAL_VARS <==> name in banned && IsPositional(name);
    assert "/area" + "/" == "/area/";
  }

  lemma RewiredMeaning(shop: Shop, a: Atom, light: string)
    requires light in a.vars
    ensures Rewired(shop, a, light).path == a.path && LightMoved(shop, a, light, Rewired(shop, a, light))
  {
    assert forall bulb :: BulbFor(light, bulb) <==> light in BULB_VARS && BULB_VARS[light] == bulb;
    if light in BULB_VARS { assert BulbFor(light, BULB_VARS[light]); }
  }

  // ---- what leaves the tile --------------------------------------------------------------------------

  predicate IsTurfOrArea(path: string) {
    path == "/turf" || path == "/area" || HasPrefix(path, "/turf/") || HasPrefix(path, "/area/")
  }

  /** An atom is removed because it is the later one of two alike, because it is unedited and another
      atom of the tile is of a type below its own, or because it is banned; but for the first reason no
      turf and no area goes. */
  lemma RemovalMeaning(kinds: set<FixKind>, v: Violation, t: TileState, k: FixKind, i: nat)
    requires 0 <= v.atomIndex < |t.atoms| && Removal(kinds, v, t, k, i)
    ensures k in kinds && i < |t.atoms| && (i == v.atomIndex || i == v.neighborIndex)
    ensures k == RemoveDuplicate || k == RemoveSuperseded || k == RemoveBanned
    ensures k == RemoveDuplicate ==> v.kind == BannedNeighbor && v.identical && v.neighborIndex <= i && v.atomIndex <= i
    ensures k == RemoveSuperseded ==> v.kind == BannedNeighbor && !v.identical && t.atoms[i].vars == map[]
    ensures k == RemoveSuperseded ==>
      exists j :: 0 <= j < |t.atoms| && HasPrefix(t.atoms[j].path, t.atoms[i].path + "/")
    ensures k == RemoveBanned ==> v.kind == Banned
    ensures k != RemoveDuplicate ==> !IsTurfOrArea(t.atoms[i].path)
  {
    hide HasPrefix;
    assert "/turf" + "/" == "/turf/" && "/area" + "/" == "/area/";
  }

  /** All atoms but the one at `index` stay, in order, each with its source. */
  lemma WithoutMeaning(t: TileState, index: nat)
    requires StateOk(t) && index < |t.atoms|
    ensures var next := Without(t, index);
      && |next.atoms| == |next.source| == |t.atoms| - 1
      && (forall j :: 0 <= j < index ==> next.atoms[j] == t.atoms[j] && next.source[j] == t.source[j])
      && (forall j ::
          index <= j < |next.atoms| ==> next.atoms[j] == t.atoms[j + 1] && next.source[j] == t.source[j + 1])
  {
  }

  /** A rewritten atom takes the place of the old one, unless duplicates may be removed and the tile
      holds its equal elsewhere: then the old one just goes. */
  lemma CollapseMeaning(t: TileState, index: nat, b: Atom, kinds: set<FixKind>, f: Fix)
    requires StateOk(t) && index < |t.atoms|
    ensures var next, fixes := Collapse(t, index, b, kinds, f).next, Collapse(t, index, b, kinds, f).fixes;
      if RemoveDuplicate in kinds && exists j :: 0 <= j < |t.atoms| && j != index && t.atoms[j] == b then
        next == Without(t, index) && fixes == [f, f.(kind := RemoveDuplicate)]
      else
        && fixes == [f] && next.source == t.source && |next.atoms| == |t.atoms| && next.atoms[index] == b
        && forall j :: 0 <= j < |t.atoms| && j != index ==> next.atoms[j] == t.atoms[j]
  {
    hide Without, SameAtom;
    forall j | 0 <= j < |t.atoms| ensures SameAtom(t.atoms[j], b) <==> t.atoms[j] == b {
      SameAtomIsEquality(t.atoms[j], b);
    }
  }

  /** Every candidate records what it does, under the rule and the file of the violation. */
  lemma CandidateRecords(shop: Shop, kinds: set<FixKind>, v: Violation, t: TileState, c: Candidate)
    requires StateOk(t) && Proposed(shop, kinds, v, t, c)
    ensures c.fixes != [] && forall f :: f in c.fixes ==>
      f.ruleFile == v.ruleFile && f.rule == v.rule && f.kind in kinds
  {
    hide Without, Replacing, HasCopy;
    if k, i :| 0 <= i < |t.atoms| && Removal(kinds, v, t, k, i) && c == Candidate(Without(t, i), [FixOf(v, k)]) {
      assert FixOf(v, k).kind in kinds;
    } else {
      var k, b :| Rewrite(shop, kinds, v, t.atoms[v.atomIndex], k, b) &&
        c == Collapse(t, v.atomIndex, b, kinds, FixOf(v, k));
      assert FixOf(v, k).kind in kinds;
    }
  }
}
