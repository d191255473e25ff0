/** The automatic fixer of one tile (internal/aphelion/maplint/fix.go): candidates are applied to
    a copy and kept only when they leave strictly fewer violations and no new one. */
module TileFixer {
  import opened Basics
  import opened Paths
  import opened MapLint

  datatype FixKind =
    | RemoveDuplicate | RemoveSuperseded | PromoteSubtype | StripVariables | RemoveBanned | CapitalizeText
    | StripPositional
    | StripRedundant | StripInertDir | MoveFixtureLight

  /** One accepted change, without its text. */
  datatype Fix = Fix(kind: FixKind, ruleFile: string, rule: string)

  /** The environment's answers. `differing` are the variables in which two types differ
      observably, `isAbstract` and `sameValue` compare constants. */
  datatype TypeTree = TypeTree(
    subtypes: string -> seq<string>, value: (string, string) -> Option<string>,
    differing: (string, string) -> seq<string>,
    isAbstract: string -> bool)

  /** What the fixer works with: the rules, the types (when known), and the text functions. */
  datatype Shop = Shop(rules: Rules, types: Option<TypeTree>, sameValue: (string, string) -> bool,
                       variants: string -> seq<string>)

  datatype TileState = TileState(atoms: seq<Atom>, source: seq<int>)

  datatype Candidate = Candidate(next: TileState, fixes: seq<Fix>)

  // ---- paths ----------------------------------------------------------------------------------

  predicate IsArea(path: string) { AtOrBelow(path, "/area") }

  predicate IsTurf(path: string) { AtOrBelow(path, "/turf") }

  predicate Removable(path: string) { !IsArea(path) && !IsTurf(path) }

  /** The last position at or before `from` where sub occurs, or -1. */
  function LastIndexFrom(s: string, sub: string, from: int): (i: int)
    requires -1 <= from <= |s|
    ensures -1 <= i <= from && (i >= 0 ==> HasPrefix(s[i..], sub))
    ensures forall j :: i < j <= from && 0 <= j ==> !HasPrefix(s[j..], sub)
    decreases from + 1
  {
    if from < 0 then -1 else if HasPrefix(s[from..], sub) then from else LastIndexFrom(s, sub, from - 1)
  }

  const DIRECTIONAL := "/directional/"

  // ---- tile states -----------------------------------------------------------------------------

  ghost predicate StateOk(t: TileState) { |t.atoms| == |t.source| }

  function Without(t: TileState, index: nat): TileState
    requires |t.atoms| == |t.source| && index < |t.atoms|
  {
    TileState(t.atoms[..index] + t.atoms[index + 1..], t.source[..index] + t.source[index + 1..])
  }

  function Replacing(t: TileState, index: nat, a: Atom): TileState
    requires index < |t.atoms|
  {
    TileState(t.atoms[index := a], t.source)
  }

  /** Does the tile hold a copy of a elsewhere? */
  predicate HasCopy(t: TileState, index: nat, a: Atom)
  {
    exists i :: 0 <= i < |t.atoms| && i != index && SameAtom(t.atoms[i], a)
  }

  function Collapse(t: TileState, index: nat, a: Atom, kinds: set<FixKind>, f: Fix): Candidate
    requires |t.atoms| == |t.source| && index < |t.atoms|
  {
    if RemoveDuplicate in kinds && HasCopy(t, index, a) then
      Candidate(Without(t, index), [f, Fix(RemoveDuplicate, f.ruleFile, f.rule)])
    else Candidate(Replacing(t, index, a), [f])
  }

  // ---- promotion ---------------------------------------------------------------------------------

  function Others(own: set<string>, subs: seq<string>): seq<string> {
    if subs == [] then []
    else Others(own, subs[..|subs| - 1]) + if subs[|subs| - 1] in own then [] else [subs[|subs| - 1]]
  }

  /** promotionCandidates. */
  function PromotionCandidates(types: TypeTree, path: string): seq<string> {
    var subs := types.subtypes(path);
    var i := LastIndexFrom(path, DIRECTIONAL, |path|);
    if i > 0 then subs + Others({path} + (set s | s in subs), types.subtypes(path[..i])) else subs
  }

  /** A subtype that declares every banned edit and differs only in variables the atom edits. */
  predicate Eligible(shop: Shop, types: TypeTree, a: Atom, banned: set<string>, sub: string)
    requires banned <= a.vars.Keys
  {
    && !types.isAbstract(sub)
    && (forall name ::
        name in banned ==> types.value(sub, name).Some? && shop.sameValue(types.value(sub, name).value, a.vars[name]))
    && (forall k :: 0 <= k < |types.differing(a.path, sub)| ==> Explained(a, banned, types.differing(a.path, sub)[k]))
  }

  /** The atom already edits the variable, or it is a dir that came with a pixel offset. */
  predicate Explained(a: Atom, banned: set<string>, name: string) {
    name in banned || name in a.vars || (name == "dir" && exists b :: b in banned && HasPrefix(b, "pixel_"))
  }

  /** The number of differing variables of an eligible subtype. */
  function ScoreOf(shop: Shop, types: TypeTree, a: Atom, banned: set<string>, sub: string): Option<nat>
    requires banned <= a.vars.Keys
  {
    if Eligible(shop, types, a, banned, sub) then Some(|types.differing(a.path, sub)|) else None
  }

  function Scores(shop: Shop, types: TypeTree, a: Atom, banned: set<string>, cands: seq<string>): seq<Option<nat>>
    requires banned <= a.vars.Keys
  {
    seq(|cands|, i requires 0 <= i < |cands| => ScoreOf(shop, types, a, banned, cands[i]))
  }

  /** The lowest score, reached nowhere else. */
  ghost predicate UniqueBest(scores: seq<Option<nat>>, i: int) {
    && 0 <= i < |scores| && scores[i].Some?
    && forall j :: 0 <= j < |scores| && j != i && scores[j].Some? ==> scores[i].value < scores[j].value
  }

  /** The eligible subtype with the fewest differences, if it is the only such one. */
  ghost predicate IsUniqueBest(shop: Shop, types: TypeTree, a: Atom, banned: set<string>, cands: seq<string>, i: int)
    requires banned <= a.vars.Keys
  {
    UniqueBest(Scores(shop, types, a, banned, cands), i)
  }

  /** The edits that are neither banned nor restated by the subtype. */
  function Kept(shop: Shop, types: TypeTree, a: Atom, banned: set<string>, best: string): map<string, string> {
    map name | name in a.vars && name !in banned &&
               !(types.value(best, name).Some? && shop.sameValue(types.value(best, name).value, a.vars[name])) ::
                 a.vars[name]
  }

  /** What promote promises. */
  ghost predicate Promotes(shop: Shop, types: TypeTree, a: Atom, banned: set<string>, out: Option<Atom>) {
    var cands := PromotionCandidates(types, a.path);
    if banned == {} || !(banned <= a.vars.Keys) then out == None
    else
      && (out.None? <==> forall i :: 0 <= i < |cands| ==> !IsUniqueBest(shop, types, a, banned, cands, i))
      && (out.Some? ==> exists i :: 0 <= i < |cands| && IsUniqueBest(shop, types, a, banned, cands, i) &&
                                    out.value == Atom(cands[i], Kept(shop, types, a, banned, cands[i])))
  }

  /** The search for the best score: the first position that has it and how many do. */
  ghost predicate Tallied(scores: seq<Option<nat>>, best: int, ties: nat) {
    if best < 0 then ties == 0 && forall j :: 0 <= j < |scores| ==> scores[j].None?
    else
      && best < |scores| && scores[best].Some? && ties >= 1
      && (forall j :: 0 <= j < |scores| && scores[j].Some? ==> scores[best].value <= scores[j].value)
      && (ties == 1 <==> UniqueBest(scores, best))
  }

  lemma TallyNext(scores: seq<Option<nat>>, s: Option<nat>, best: int, ties: nat)
    requires Tallied(scores, best, ties)
    ensures s.None? ==> Tallied(scores + [s], best, ties)
    ensures s.Some? && (best < 0 || s.value < scores[best].value) ==> Tallied(scores + [s], |scores|, 1)
    ensures s.Some? && best >= 0 && s.value == scores[best].value ==> Tallied(scores + [s], best, ties + 1)
    ensures s.Some? && best >= 0 && s.value > scores[best].value ==> Tallied(scores + [s], best, ties)
  {
    var out := scores + [s];
    assert forall j :: 0 <= j < |scores| ==> out[j] == scores[j];
    assert out[|scores|] == s;
    if s.Some? && best >= 0 && s.value == scores[best].value { assert !UniqueBest(out, best); }
  }

  method Tally(shop: Shop, types: TypeTree, a: Atom, banned: set<string>, cands: seq<string>)
    returns (best: int, ties: nat)
    requires banned <= a.vars.Keys
    ensures Tallied(Scores(shop, types, a, banned, cands), best, ties)
  {
    hide ScoreOf, UniqueBest;
    best, ties := -1, 0;
    ghost var scores := Scores(shop, types, a, banned, cands);
    for k := 0 to |cands|
      invariant Tallied(scores[..k], best, ties) && best < k
    {
      var score := ScoreOf(shop, types, a, banned, cands[k]);
      assert scores[..k + 1] == scores[..k] + [score];
      TallyNext(scores[..k], score, best, ties);
      if score.Some? {
        var lowest := if best < 0 then None else ScoreOf(shop, types, a, banned, cands[best]);
        assert best >= 0 ==> lowest == scores[..k][best];
        if best < 0 || score.value < lowest.value {
          best, ties := k, 1;
        } else if score.value == lowest.value {
          ties := ties + 1;
        }
      }
    }
    assert scores[..|cands|] == scores;
  }

  method Promote(shop: Shop, types: TypeTree, a: Atom, banned: set<string>) returns (out: Option<Atom>)
    ensures Promotes(shop, types, a, banned, out)
  {
    hide ScoreOf, UniqueBest, PromotionCandidates;
    if banned == {} || !(banned <= a.vars.Keys) { return None; }
    var cands := PromotionCandidates(types, a.path);
    var best, ties := Tally(shop, types, a, banned, cands);
    TallyDecides(Scores(shop, types, a, banned, cands), best, ties);
    if ties != 1 {
      assert forall i :: 0 <= i < |cands| ==> !IsUniqueBest(shop, types, a, banned, cands, i);
      return None;
    }
    assert IsUniqueBest(shop, types, a, banned, cands, best);
    out := Some(Atom(cands[best], Kept(shop, types, a, banned, cands[best])));
  }

  lemma TallyDecides(scores: seq<Option<nat>>, best: int, ties: nat)
    requires Tallied(scores, best, ties)
    ensures ties == 1 ==> UniqueBest(scores, best)
    ensures ties != 1 ==> forall i :: 0 <= i < |scores| ==> !UniqueBest(scores, i)
  {
  }

  // ---- candidates ----------------------------------------------------------------------------------

  const TEXT_VARS: set<string> := {"name", "desc"}

  const POSITIONAL_VARS: set<string> := {"pixel_x", "pixel_y", "pixel_w", "pixel_z", "dir", "piping_layer",
                                         "cable_layer"}

  /** The bulb variable that replaces a light variable on a fixture; light_on has none. */
  const BULB_VARS: map<string, string> := map["light_range" := "brightness", "light_power" := "bulb_power",
                                              "light_color" := "bulb_colour"]

  /** An unedited removable atom that a subtype on the same tile replaces. */
  predicate Superseded(t: TileState, general: nat, specific: nat)
    requires general < |t.atoms| && specific < |t.atoms|
  {
    && t.atoms[general].vars == map[] && HasPrefix(t.atoms[specific].path, t.atoms[general].path + "/")
    && Removable(t.atoms[general].path)
  }

  function BannedNames(v: Violation, a: Atom): set<string>
  {
    if v.kind == BannedVariables then a.vars.Keys else {v.variable}
  }

  function StripKind(a: Atom, banned: set<string>): FixKind {
    if banned * POSITIONAL_VARS != {} && !IsArea(a.path) then StripPositional else StripVariables
  }

  /** The atom with its light variable moved to the bulb, unless that would restate a default. */
  function Rewired(shop: Shop, a: Atom, name: string): Atom
    requires name in a.vars
  {
    var vars := a.vars - {name};
    if name !in BULB_VARS then Atom(a.path, vars)
    else
      var bulb := BULB_VARS[name];
      var initial := if shop.types.Some? then shop.types.value.value(a.path, bulb) else None;
      if bulb in vars || (initial.Some? && shop.sameValue(initial.value, a.vars[name])) then Atom(a.path, vars)
      else Atom(a.path, vars[bulb := a.vars[name]])
  }

  function Value(a: Atom, name: string): string { if name in a.vars then a.vars[name] else "" }

  /** The atom with the variable set to one of the texts. */
  predicate IsVariant(a: Atom, name: string, texts: seq<string>, b: Atom) {
    exists i :: 0 <= i < |texts| && b == Atom(a.path, a.vars[name := texts[i]])
  }

  /** The rewritten atoms a variable violation may lead to, with the kind of fix. */
  ghost predicate Rewrite(shop: Shop, kinds: set<FixKind>, v: Violation, a: Atom, k: FixKind, b: Atom) {
    && k in kinds
    && match v.kind
       case BannedVariable =>
         || (k == PromoteSubtype && shop.types.Some? && Promotes(shop, shop.types.value, a, BannedNames(v, a), Some(b)))
         || (k == CapitalizeText && v.variable in TEXT_VARS &&
             IsVariant(a, v.variable, shop.variants(Value(a, v.variable)), b))
         || (k == StripKind(a, {v.variable}) && v.variable !in TEXT_VARS && b == Atom(a.path, a.vars - {v.variable}))
       case BannedVariables =>
         || (k == PromoteSubtype && shop.types.Some? && Promotes(shop, shop.types.value, a, BannedNames(v, a), Some(b)))
         || (k == StripKind(a, a.vars.Keys) && a.vars.Keys !! TEXT_VARS && b == Atom(a.path, map[]))
       case RedundantEdit => k == StripRedundant && v.variable in a.vars && b == Atom(a.path, a.vars - {v.variable})
       case InertDir => k == StripInertDir && v.variable in a.vars && b == Atom(a.path, a.vars - {v.variable})
       case FixtureLight => k == MoveFixtureLight && v.variable in a.vars && b == Rewired(shop, a, v.variable)
       case _ => false
  }

  /** The atoms a violation may remove outright, with the kind of fix. */
  predicate Removal(kinds: set<FixKind>, v: Violation, t: TileState, k: FixKind, index: nat)
    requires 0 <= v.atomIndex < |t.atoms|
  {
    && k in kinds
    && match v.kind
       case BannedNeighbor =>
         && 0 <= v.neighborIndex < |t.atoms|
         && if v.identical then k == RemoveDuplicate && index == Max(v.atomIndex, v.neighborIndex)
            else
              && k == RemoveSuperseded
              && ((index == v.atomIndex && Superseded(t, v.atomIndex, v.neighborIndex))
                  || (index == v.neighborIndex && Superseded(t, v.neighborIndex, v.atomIndex)))
       case Banned => k == RemoveBanned && index == v.atomIndex && Removable(t.atoms[v.atomIndex].path)
       case _ => false
  }

  function FixOf(v: Violation, k: FixKind): Fix { Fix(k, v.ruleFile, v.rule) }

  /** The candidates of one violation. */
  ghost predicate Proposed(shop: Shop, kinds: set<FixKind>, v: Violation, t: TileState, c: Candidate)
    requires StateOk(t)
  {
    && 0 <= v.atomIndex < |t.atoms|
    && ((exists k, i ::
         0 <= i < |t.atoms| && Removal(kinds, v, t, k, i) && c == Candidate(Without(t, i), [FixOf(v, k)]))
        || (exists k, b ::
            Rewrite(shop, kinds, v, t.atoms[v.atomIndex], k, b) &&
            c == Collapse(t, v.atomIndex, b, kinds, FixOf(v, k))))
  }

  /** The removals, in the order they are tried: the subject before its neighbour. */
  function RemovalList(kinds: set<FixKind>, v: Violation, t: TileState): (out: seq<(FixKind, nat)>)
    requires 0 <= v.atomIndex < |t.atoms|
    ensures forall k, i: nat :: (k, i) in out <==> Removal(kinds, v, t, k, i)
    ensures forall p :: p in out ==> p.1 < |t.atoms|
  {
    var subject, other := v.atomIndex, v.neighborIndex;
    match v.kind
    case BannedNeighbor =>
      if other < 0 || other >= |t.atoms| then []
      else if v.identical then if RemoveDuplicate in kinds then [(RemoveDuplicate, Max(subject, other))] else []
      else if RemoveSuperseded !in kinds then []
      else
        (if Superseded(t, subject, other) then [(RemoveSuperseded, subject)] else []) +
        (if Superseded(t, other, subject) then [(RemoveSuperseded, other)] else [])
    case Banned => if RemoveBanned in kinds && Removable(t.atoms[subject].path) then [(RemoveBanned, subject)] else []
    case _ => []
  }

  /** The promotion, if there is one. */
  ghost function PromotedList(shop: Shop, kinds: set<FixKind>, v: Violation, a: Atom): (out: seq<(FixKind, Atom)>)
    ensures forall k, b :: (k, b) in out <==>
      k == PromoteSubtype && k in kinds && shop.types.Some? &&
        Promotes(shop, shop.types.value, a, BannedNames(v, a), Some(b))
  {
    if PromoteSubtype in kinds && shop.types.Some? &&
      exists b :: Promotes(shop, shop.types.value, a, BannedNames(v, a), Some(b)) then
      var b :| Promotes(shop, shop.types.value, a, BannedNames(v, a), Some(b));
      PromotesOnce(shop, shop.types.value, a, BannedNames(v, a), Some(b));
      [(PromoteSubtype, b)]
    else []
  }

  /** The capitalised texts, in the order of the variants. */
  function TextList(shop: Shop, kinds: set<FixKind>, v: Violation, a: Atom): (out: seq<(FixKind, Atom)>)
    ensures forall k, b :: (k, b) in out <==>
      k == CapitalizeText && k in kinds && v.kind == BannedVariable && v.variable in TEXT_VARS &&
      IsVariant(a, v.variable, shop.variants(Value(a, v.variable)), b)
  {
    var texts := shop.variants(Value(a, v.variable));
    if CapitalizeText in kinds && v.kind == BannedVariable && v.variable in TEXT_VARS then
      var out := seq(|texts|,
                     i requires 0 <= i < |texts| => (CapitalizeText, Atom(a.path, a.vars[v.variable := texts[i]])));
      assert forall b ::
        IsVariant(a, v.variable, texts, b) ==>
        (CapitalizeText, b) in out by { VariantsListed(a, v.variable, texts, out); }
      out
    else []
  }

  lemma VariantsListed(a: Atom, name: string, texts: seq<string>, out: seq<(FixKind, Atom)>)
    requires |out| == |texts| && forall i :: 0 <= i < |texts| ==>
      out[i] == (CapitalizeText, Atom(a.path, a.vars[name := texts[i]]))
    ensures forall b :: IsVariant(a, name, texts, b) ==> (CapitalizeText, b) in out
  {
    forall b | IsVariant(a, name, texts, b) ensures (CapitalizeText, b) in out {
      var i :| 0 <= i < |texts| && b == Atom(a.path, a.vars[name := texts[i]]);
      assert out[i] == (CapitalizeText, b);
    }
  }

  function StripList(kinds: set<FixKind>, v: Violation, a: Atom): seq<(FixKind, Atom)> {
    var banned := BannedNames(v, a);
    var strip := StripKind(a, banned);
    if strip in kinds && banned !! TEXT_VARS then [(strip, Atom(a.path, a.vars - banned))] else []
  }

  /** The rewritten atoms, in the order they are tried: promotion, then texts, then stripping. */
  ghost function RewriteList(shop: Shop, kinds: set<FixKind>, v: Violation, a: Atom): (out: seq<(FixKind, Atom)>)
    ensures forall k, b :: (k, b) in out <==> Rewrite(shop, kinds, v, a, k, b)
  {
    hide Promotes, IsVariant;
    match v.kind
    case BannedVariable => PromotedList(shop, kinds, v, a) + TextList(shop, kinds, v, a) + StripList(kinds, v, a)
    case BannedVariables =>
      assert a.vars - a.vars.Keys == map[];
      PromotedList(shop, kinds, v, a) + TextList(shop, kinds, v, a) + StripList(kinds, v, a)
    case RedundantEdit =>
      if StripRedundant in kinds && v.variable in a.vars then [(StripRedundant, Atom(a.path, a.vars - {v.variable}))]
        else []
    case InertDir =>
      if StripInertDir in kinds && v.variable in a.vars then [(StripInertDir, Atom(a.path, a.vars - {v.variable}))]
        else []
    case FixtureLight =>
      if MoveFixtureLight in kinds && v.variable in a.vars then [(MoveFixtureLight, Rewired(shop, a, v.variable))]
        else []
    case _ => []
  }

  method Rewrites(shop: Shop, kinds: set<FixKind>, v: Violation, a: Atom) returns (out: seq<(FixKind, Atom)>)
    ensures out == RewriteList(shop, kinds, v, a)
  {
    hide Promotes, IsVariant, Rewrite;
    out := [];
    match v.kind
    case BannedVariable => out := VariableRewrites(shop, kinds, v, a);
    case BannedVariables => out := VariableRewrites(shop, kinds, v, a);
    case RedundantEdit =>
      if StripRedundant in kinds &&
        v.variable in a.vars { out := [(StripRedundant, Atom(a.path, a.vars - {v.variable}))]; }
    case InertDir =>
      if StripInertDir in kinds &&
        v.variable in a.vars { out := [(StripInertDir, Atom(a.path, a.vars - {v.variable}))]; }
    case FixtureLight =>
      if MoveFixtureLight in kinds && v.variable in a.vars {
        out := [(MoveFixtureLight, Rewired(shop, a, v.variable))];
      }
    case _ =>
  }

  method VariableRewrites(shop: Shop, kinds: set<FixKind>, v: Violation, a: Atom) returns (out: seq<(FixKind, Atom)>)
    ensures out == PromotedList(shop, kinds, v, a) + TextList(shop, kinds, v, a) + StripList(kinds, v, a)
  {
    hide Promotes, IsVariant;
    out := [];
    if PromoteSubtype in kinds && shop.types.Some? {
      var promoted := Promote(shop, shop.types.value, a, BannedNames(v, a));
      PromotesOnce(shop, shop.types.value, a, BannedNames(v, a), promoted);
      if promoted.Some? { out := [(PromoteSubtype, promoted.value)]; }
    }
    assert out == PromotedList(shop, kinds, v, a);
    out := out + TextList(shop, kinds, v, a) + StripList(kinds, v, a);
  }

  /** There is at most one promotion. */
  lemma PromotesOnce(shop: Shop, types: TypeTree, a: Atom, banned: set<string>, out: Option<Atom>)
    requires Promotes(shop, types, a, banned, out)
    ensures forall b :: Promotes(shop, types, a, banned, Some(b)) <==> out == Some(b)
  {
    hide ScoreOf, PromotionCandidates, Kept;
  }

  /** The candidates of one violation, in the order they are tried. */
  ghost function CandidateList(shop: Shop, kinds: set<FixKind>, v: Violation, t: TileState): seq<Candidate>
    requires StateOk(t)
  {
    if v.atomIndex < 0 || v.atomIndex >= |t.atoms| then []
    else
      Removed(v, t, RemovalList(kinds, v, t)) +
        Rewritten(kinds, v, t, RewriteList(shop, kinds, v, t.atoms[v.atomIndex]))
  }

  function Removed(v: Violation, t: TileState, list: seq<(FixKind, nat)>): seq<Candidate>
    requires |t.atoms| == |t.source| && forall p :: p in list ==> p.1 < |t.atoms|
  {
    seq(|list|, i requires 0 <=
        i < |list| => assert list[i] in list; Candidate(Without(t, list[i].1), [FixOf(v, list[i].0)]))
  }

  function Rewritten(kinds: set<FixKind>, v: Violation, t: TileState, list: seq<(FixKind, Atom)>): seq<Candidate>
    requires |t.atoms| == |t.source| && 0 <= v.atomIndex < |t.atoms|
  {
    seq(|list|, i requires 0 <= i < |list| => Collapse(t, v.atomIndex, list[i].1, kinds, FixOf(v, list[i].0)))
  }

  /** The list holds exactly the proposed candidates. */
  lemma ListIsProposed(shop: Shop, kinds: set<FixKind>, v: Violation, t: TileState, c: Candidate)
    requires StateOk(t)
    ensures c in CandidateList(shop, kinds, v, t) <==> Proposed(shop, kinds, v, t, c)
  {
    hide Removal, Rewrite, Collapse, Without, RemovalList, RewriteList;
    if 0 <= v.atomIndex < |t.atoms| {
      var rs, ws := RemovalList(kinds, v, t), RewriteList(shop, kinds, v, t.atoms[v.atomIndex]);
      var list := CandidateList(shop, kinds, v, t);
      if k, i :| 0 <= i < |t.atoms| && Removal(kinds, v, t, k, i) && c == Candidate(Without(t, i), [FixOf(v, k)]) {
        var n :| 0 <= n < |rs| && rs[n] == (k, i);
        assert list[n] == c;
      }
      if k, b :|
        Rewrite(shop, kinds, v, t.atoms[v.atomIndex], k, b) && c == Collapse(t, v.atomIndex, b, kinds, FixOf(v, k)) {
        var n :| 0 <= n < |ws| && ws[n] == (k, b);
        assert list[|rs| + n] == c;
      }
      if c in list {
        var n :| 0 <= n < |list| && list[n] == c;
        if n < |rs| { assert rs[n] in rs; } else { assert ws[n - |rs|] in ws; }
      }
    }
  }

  /** candidatesFor: the proposed candidates in their order. */
  method CandidatesFor(shop: Shop, kinds: set<FixKind>, v: Violation, t: TileState) returns (out: seq<Candidate>)
    requires StateOk(t)
    ensures out == CandidateList(shop, kinds, v, t) && forall c :: c in out <==> Proposed(shop, kinds, v, t, c)
  {
    hide Proposed, RemovalList, RewriteList, Collapse, Without;
    forall c ensures c in CandidateList(shop, kinds, v, t) <==> Proposed(shop, kinds, v, t, c) {
      ListIsProposed(shop, kinds, v, t, c);
    }
    out := [];
    if v.atomIndex < 0 || v.atomIndex >= |t.atoms| { return; }
    var rewrites := Rewrites(shop, kinds, v, t.atoms[v.atomIndex]);
    out := Removed(v, t, RemovalList(kinds, v, t)) + Rewritten(kinds, v, t, rewrites);
  }

  /** The candidate leaves strictly fewer violations and none that the tile did not have. */
  ghost predicate Validates(shop: Shop, t: TileState, c: Candidate) {
    && |Check(shop.rules, c.next.atoms)| < |Check(shop.rules, t.atoms)|
    && Keys(Check(shop.rules, c.next.atoms)) <= Keys(Check(shop.rules, t.atoms))
  }

  /** No violation of the tile has a candidate that validates. */
  ghost predicate Stuck(shop: Shop, kinds: set<FixKind>, t: TileState)
    requires StateOk(t)
  {
    forall v, c :: v in Check(shop.rules, t.atoms) && Proposed(shop, kinds, v, t, c) ==> !Validates(shop, t, c)
  }

  /** One accepted step. */
  ghost predicate Accepted(shop: Shop, kinds: set<FixKind>, t: TileState, c: Candidate)
    requires StateOk(t)
  {
    Validates(shop, t, c) && exists v :: v in Check(shop.rules, t.atoms) && Proposed(shop, kinds, v, t, c)
  }

  /** The k-th candidate of the n-th violation is the first that validates. */
  ghost predicate PickedAt(shop: Shop, kinds: set<FixKind>, t: TileState, n: nat, k: nat, c: Candidate)
    requires StateOk(t)
  {
    var vs := Check(shop.rules, t.atoms);
    && n < |vs| && k < |CandidateList(shop, kinds, vs[n], t)| && c == CandidateList(shop, kinds, vs[n], t)[k]
    && Validates(shop, t, c) && NoneBefore(shop, t, CandidateList(shop, kinds, vs[n], t), k)
    && forall m :: 0 <= m < n ==> NoneValidates(shop, t, CandidateList(shop, kinds, vs[m], t))
  }

  ghost predicate NoneBefore(shop: Shop, t: TileState, cands: seq<Candidate>, k: nat) {
    forall j :: 0 <= j < k && j < |cands| ==> !Validates(shop, t, cands[j])
  }

  ghost predicate NoneValidates(shop: Shop, t: TileState, cands: seq<Candidate>) { NoneBefore(shop, t, cands, |cands|) }

  /** The candidate that improve returns: the first, in violation order, that validates. */
  ghost predicate Picked(shop: Shop, kinds: set<FixKind>, t: TileState, c: Candidate)
    requires StateOk(t)
  {
    exists n: nat, k: nat :: PickedAt(shop, kinds, t, n, k, c)
  }

  lemma PickedIsAccepted(shop: Shop, kinds: set<FixKind>, t: TileState, c: Candidate)
    requires StateOk(t) && Picked(shop, kinds, t, c)
    ensures Accepted(shop, kinds, t, c)
  {
    hide Validates, Proposed, CandidateList;
    var n: nat, k: nat :| PickedAt(shop, kinds, t, n, k, c);
    var v := Check(shop.rules, t.atoms)[n];
    assert c in CandidateList(shop, kinds, v, t);
    ListIsProposed(shop, kinds, v, t, c);
  }

  /** improve decides: there is one candidate it can return. */
  lemma PickedOnce(shop: Shop, kinds: set<FixKind>, t: TileState, c: Candidate, d: Candidate)
    requires StateOk(t) && Picked(shop, kinds, t, c) && Picked(shop, kinds, t, d)
    ensures c == d
  {
    hide Validates, CandidateList;
    var n: nat, k: nat :| PickedAt(shop, kinds, t, n, k, c);
    var m: nat, j: nat :| PickedAt(shop, kinds, t, m, j, d);
  }

  method Improve(shop: Shop, kinds: set<FixKind>, t: TileState, violations: seq<Violation>)
    returns (c: Candidate, ok: bool)
    requires StateOk(t) && violations == Check(shop.rules, t.atoms)
    ensures ok ==> Picked(shop, kinds, t, c) && Accepted(shop, kinds, t, c)
    ensures !ok ==> Stuck(shop, kinds, t)
  {
    hide Proposed, Keys, Validates, CandidateList;
    for n := 0 to |violations|
      invariant forall m :: 0 <= m < n ==> NoneValidates(shop, t, CandidateList(shop, kinds, violations[m], t))
    {
      var cands := CandidatesFor(shop, kinds, violations[n], t);
      var k;
      k, ok := FirstValid(shop, t, cands, violations);
      if ok {
        c := cands[k];
        assert PickedAt(shop, kinds, t, n, k, c);
        PickedIsAccepted(shop, kinds, t, c);
        return;
      }
    }
    NobodyIsStuck(shop, kinds, t);
    c, ok := Candidate(t, []), false;
  }

  lemma NobodyIsStuck(shop: Shop, kinds: set<FixKind>, t: TileState)
    requires StateOk(t)
    requires var vs := Check(shop.rules, t.atoms);
      forall m :: 0 <= m < |vs| ==> NoneValidates(shop, t, CandidateList(shop, kinds, vs[m], t))
    ensures Stuck(shop, kinds, t)
  {
    hide Proposed, Validates, CandidateList;
    var vs := Check(shop.rules, t.atoms);
    forall v, c | v in vs && Proposed(shop, kinds, v, t, c) ensures !Validates(shop, t, c) {
      var m :| 0 <= m < |vs| && vs[m] == v;
      ListIsProposed(shop, kinds, v, t, c);
      var j :| 0 <= j < |CandidateList(shop, kinds, v, t)| && CandidateList(shop, kinds, v, t)[j] == c;
      assert NoneValidates(shop, t, CandidateList(shop, kinds, vs[m], t));
    }
  }

  /** The first candidate of a list that validates. */
  method FirstValid(shop: Shop, t: TileState, cands: seq<Candidate>, violations: seq<Violation>)
    returns (k: nat, ok: bool)
    requires violations == Check(shop.rules, t.atoms)
    ensures ok ==> k < |cands| && Validates(shop, t, cands[k]) && NoneBefore(shop, t, cands, k)
    ensures !ok ==> NoneValidates(shop, t, cands)
  {
    hide Keys;
    for n := 0 to |cands|
      invariant NoneBefore(shop, t, cands, n)
    {
      var after := Check(shop.rules, cands[n].next.atoms);
      if |after| < |violations| {
        var fresh' := NewViolations(shop.rules, t.atoms, cands[n].next.atoms);
        NoNewViolations(fresh', Keys(after), Keys(violations));
        if fresh' == [] { return n, true; }
      }
    }
    k, ok := 0, false;
  }

  /** A tile that is not stuck has a candidate to pick. */
  lemma PickExists(shop: Shop, kinds: set<FixKind>, t: TileState) returns (c: Candidate)
    requires StateOk(t) && !Stuck(shop, kinds, t)
    ensures Picked(shop, kinds, t, c)
  {
    hide Proposed, Validates, CandidateList, Stuck;
    var vs := Check(shop.rules, t.atoms);
    NobodyIsStuckUnless(shop, kinds, t);
    var n :| 0 <= n < |vs| && !NoneValidates(shop, t, CandidateList(shop, kinds, vs[n], t));
    n := FirstList(shop, kinds, t, n);
    var cands := CandidateList(shop, kinds, vs[n], t);
    var k :| 0 <= k < |cands| && Validates(shop, t, cands[k]);
    k := FirstOf(shop, t, cands, k);
    c := cands[k];
    assert PickedAt(shop, kinds, t, n, k, c);
  }

  lemma NobodyIsStuckUnless(shop: Shop, kinds: set<FixKind>, t: TileState)
    requires StateOk(t) && !Stuck(shop, kinds, t)
    ensures var vs := Check(shop.rules, t.atoms);
      exists n :: 0 <= n < |vs| && !NoneValidates(shop, t, CandidateList(shop, kinds, vs[n], t))
  {
    hide Proposed, Validates, CandidateList, Stuck;
    var vs := Check(shop.rules, t.atoms);
    if forall m :: 0 <= m < |vs| ==> NoneValidates(shop, t, CandidateList(shop, kinds, vs[m], t)) {
      NobodyIsStuck(shop, kinds, t);
    }
  }

  lemma {:induction false} FirstList(shop: Shop, kinds: set<FixKind>, t: TileState, n: nat) returns (m: nat)
    requires StateOk(t) && n < |Check(shop.rules, t.atoms)|
    requires !NoneValidates(shop, t, CandidateList(shop, kinds, Check(shop.rules, t.atoms)[n], t))
    ensures var vs := Check(shop.rules, t.atoms);
      && m < |vs| && !NoneValidates(shop, t, CandidateList(shop, kinds, vs[m], t))
      && forall j :: 0 <= j < m ==> NoneValidates(shop, t, CandidateList(shop, kinds, vs[j], t))
    decreases n
  {
    hide NoneValidates, CandidateList;
    var vs := Check(shop.rules, t.atoms);
    if j :| 0 <= j < n && !NoneValidates(shop, t, CandidateList(shop, kinds, vs[j], t)) {
      m := FirstList(shop, kinds, t, j);
    } else {
      m := n;
    }
  }

  lemma {:induction false} FirstOf(shop: Shop, t: TileState, cands: seq<Candidate>, n: nat) returns (k: nat)
    requires n < |cands| && Validates(shop, t, cands[n])
    ensures k < |cands| && Validates(shop, t, cands[k]) && NoneBefore(shop, t, cands, k)
    decreases n
  {
    hide Validates;
    if j :| 0 <= j < n && Validates(shop, t, cands[j]) { k := FirstOf(shop, t, cands, j); } else { k := n; }
  }
}
