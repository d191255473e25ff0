/** Violations of a tile and what counts as a new one (internal/aphelion/maplint/report.go:62-107). */
module MapLint {
  import opened Basics

  datatype Atom = Atom(path: string, vars: map<string, string>)

  datatype Kind = Banned | BannedNeighbor | RequiredNeighbor | BannedVariables | BannedVariable
    | InertDir | RedundantEdit | FixtureLight

  datatype Violation = Violation(ruleFile: string, rule: string, kind: Kind, message: string, atomIndex: int,
                                 neighborIndex: int, variable: string, identical: bool)

  /** What makes two violations the same problem, wherever their atoms stand. */
  datatype Problem = Problem(ruleFile: string, rule: string, message: string)

  /** The rule set, applied to a non-empty tile of one file. */
  type Rules = seq<Atom> -> seq<Violation>

  /** CheckTileInFile. */
  function Check(rules: Rules, atoms: seq<Atom>): seq<Violation> { if atoms == [] then [] else rules(atoms) }

  /** newViolationKey: a violation without its tile indices. */
  function KeyOf(v: Violation): string { v.ruleFile + "\0" + v.rule + "\0" + v.message }

  function Keys(vs: seq<Violation>): multiset<string> {
    if vs == [] then multiset{} else Keys(vs[..|vs| - 1]) + multiset{KeyOf(vs[|vs| - 1])}
  }

  lemma KeysNext(vs: seq<Violation>, k: nat)
    requires k < |vs|
    ensures Keys(vs[..k + 1]) == Keys(vs[..k]) + multiset{KeyOf(vs[k])}
  {
    assert vs[..k + 1][..k] == vs[..k];
  }

  lemma {:induction false} KeysSize(vs: seq<Violation>)
    ensures |Keys(vs)| == |vs|
  {
    if vs != [] { KeysSize(vs[..|vs| - 1]); }
  }

  // ---- what a key stands for ----------------------------------------------------------------------

  function ProblemOf(v: Violation): Problem { Problem(v.ruleFile, v.rule, v.message) }

  /** How often each problem occurs. */
  ghost function Problems(vs: seq<Violation>): multiset<Problem> {
    if vs == [] then multiset{} else Problems(vs[..|vs| - 1]) + multiset{ProblemOf(vs[|vs| - 1])}
  }

  predicate NoNul(s: string) { forall k :: 0 <= k < |s| ==> s[k] != '\0' }

  /** Rule files and rule names are texts without NUL. */
  ghost predicate Plain(vs: seq<Violation>) { forall v :: v in vs ==> NoNul(v.ruleFile) && NoNul(v.rule) }

  /** Where the first NUL stands, a text joined by NUL splits in one way. */
  lemma SplitOnce(a: string, x: string, b: string, y: string)
    requires NoNul(a) && NoNul(b) && a + "\0" + x == b + "\0" + y
    ensures a == b && x == y
  {
    var s, t := a + "\0" + x, b + "\0" + y;
    assert s[|a|] == '\0' && t[|b|] == '\0';
    assert forall k :: 0 <= k < |a| ==> s[k] == a[k];
    assert forall k :: 0 <= k < |b| ==> t[k] == b[k];
    assert s[..|a|] == a && t[..|b|] == b && s[|a| + 1..] == x && t[|b| + 1..] == y;
  }

  /** Equal keys are equal problems. */
  lemma KeyTellsProblem(v: Violation, w: Violation)
    requires NoNul(v.ruleFile) && NoNul(v.rule) && NoNul(w.ruleFile) && NoNul(w.rule)
    ensures KeyOf(v) == KeyOf(w) <==> ProblemOf(v) == ProblemOf(w)
  {
    if KeyOf(v) == KeyOf(w) {
      var x, y := v.rule + "\0" + v.message, w.rule + "\0" + w.message;
      assert v.ruleFile + "\0" + x == KeyOf(v) && w.ruleFile + "\0" + y == KeyOf(w);
      SplitOnce(v.ruleFile, x, w.ruleFile, y);
      SplitOnce(v.rule, v.message, w.rule, w.message);
    }
  }

  /** A problem occurs as often as its key. */
  lemma {:induction false} KeyCountsProblem(vs: seq<Violation>, v: Violation)
    requires Plain(vs) && NoNul(v.ruleFile) && NoNul(v.rule)
    ensures Problems(vs)[ProblemOf(v)] == Keys(vs)[KeyOf(v)]
  {
    hide KeyOf, NoNul;
    if vs != [] {
      var init, last := vs[..|vs| - 1], vs[|vs| - 1];
      assert last in vs && forall w :: w in init ==> w in vs;
      KeyCountsProblem(init, v);
      KeyTellsProblem(last, v);
    }
  }

  lemma {:induction false} ProblemIsThere(vs: seq<Violation>, p: Problem) returns (v: Violation)
    requires p in Problems(vs)
    ensures v in vs && ProblemOf(v) == p
  {
    v := vs[|vs| - 1];
    if ProblemOf(v) != p { v := ProblemIsThere(vs[..|vs| - 1], p); }
  }

  /** What is said of keys holds of problems: inclusion, and the excess of one tile over another. */
  lemma ProblemsFollowKeys(out: seq<Violation>, now: seq<Violation>, before: seq<Violation>)
    requires Plain(out) && Plain(now) && Plain(before)
    ensures Keys(now) <= Keys(before) ==> Problems(now) <= Problems(before)
    ensures Keys(out) == Keys(now) - Keys(before) ==> Problems(out) == Problems(now) - Problems(before)
  {
    hide Keys, Problems, KeyOf, NoNul, ProblemOf;
    forall p | p in Problems(now) || p in Problems(before) || p in Problems(out)
      ensures Keys(now) <= Keys(before) ==> Problems(now)[p] <= Problems(before)[p]
      ensures Keys(out) == Keys(now) - Keys(before) ==> Problems(out)[p] == (Problems(now) - Problems(before))[p]
    {
      var v;
      if p in Problems(now) {
        v := ProblemIsThere(now, p);
      } else if p in Problems(before) {
        v := ProblemIsThere(before, p);
      } else {
        v := ProblemIsThere(out, p);
      }
      KeyCountsProblem(out, v);
      KeyCountsProblem(now, v);
      KeyCountsProblem(before, v);
    }
  }

  /** SameAtom compares sizes and one direction only; that is equality. */
  predicate SameAtom(a: Atom, b: Atom) {
    a.path == b.path && |a.vars| == |b.vars| && forall name :: name in a.vars ==>
      name in b.vars && b.vars[name] == a.vars[name]
  }

  lemma SameAtomIsEquality(a: Atom, b: Atom)
    ensures SameAtom(a, b) <==> a == b
  {
    if SameAtom(a, b) {
      assert a.vars.Keys <= b.vars.Keys;
      SubsetSize(a.vars.Keys, b.vars.Keys);
    }
  }

  /** Counts left over for one key. */
  function Left(seen: map<string, nat>, key: string): nat { if key in seen then seen[key] else 0 }

  method CountKeys(vs: seq<Violation>) returns (seen: map<string, nat>)
    ensures Counts(seen, Keys(vs))
  {
    seen := map[];
    for k := 0 to |vs|
      invariant forall key :: Left(seen, key) == Keys(vs[..k])[key]
    {
      KeysNext(vs, k);
      var key := KeyOf(vs[k]);
      seen := seen[key := Left(seen, key) + 1];
    }
    assert vs[..|vs|] == vs;
  }

  /** The violations, in order, by which a problem occurs more often than before. */
  ghost function Excess(now: seq<Violation>, before: multiset<string>): seq<Violation> {
    if now == [] then []
    else
      var last := now[|now| - 1];
      Excess(now[..|now| - 1], before) + if Keys(now)[KeyOf(last)] > before[KeyOf(last)] then [last] else []
  }

  lemma ExcessNext(now: seq<Violation>, before: multiset<string>, k: nat)
    requires k < |now|
    ensures Excess(now[..k + 1], before) ==
      Excess(now[..k], before) + if Keys(now[..k + 1])[KeyOf(now[k])] > before[KeyOf(now[k])] then [now[k]] else []
  {
    assert now[..k + 1][..k] == now[..k];
  }

  /** NewViolations: exactly the violations whose keys exceed, with multiplicity, those of the
      tile before; when no rule is named with a NUL, each problem is reported as often as it occurs
      more often than before. */
  method NewViolations(rules: Rules, before: seq<Atom>, after: seq<Atom>) returns (out: seq<Violation>)
    ensures out == Excess(Check(rules, after), Keys(Check(rules, before)))
    ensures Keys(out) == Keys(Check(rules, after)) - Keys(Check(rules, before))
    ensures Plain(Check(rules, after)) && Plain(Check(rules, before)) ==>
      Problems(out) == Problems(Check(rules, after)) - Problems(Check(rules, before))
  {
    hide Plain, Problems, Keys;
    NoKeys();
    out := [];
    if after == [] { return; }
    var now := rules(after);
    if now == [] { return; }
    var old' := Check(rules, before);
    var seen := CountKeys(old');
    out := Unseen(now, seen, Keys(old'));
    if Plain(now) && Plain(old') {
      PlainPart(out, now);
      ProblemsFollowKeys(out, now, old');
    }
  }

  lemma NoKeys()
    ensures Keys([]) == multiset{} && Problems([]) == multiset{}
  {
  }

  lemma PlainPart(out: seq<Violation>, now: seq<Violation>)
    requires Plain(now) && forall v :: v in out ==> v in now
    ensures Plain(out)
  {
  }

  lemma KeysSnoc(vs: seq<Violation>, v: Violation)
    ensures Keys(vs + [v]) == Keys(vs) + multiset{KeyOf(v)}
  {
    assert (vs + [v])[..|vs|] == vs;
  }

  /** The counter map holds what is left of the keys seen before. */
  ghost predicate Counts(seen: map<string, nat>, m: multiset<string>) { forall key :: Left(seen, key) == m[key] }

  lemma UnseenStep(before: multiset<string>, m: multiset<string>, key: string, seen: map<string, nat>)
    requires Counts(seen, before - m)
    ensures var rest := before - (m + multiset{key});
      if Left(seen, key) > 0 then
        (m + multiset{key}) - before == m - before && Counts(seen[key := Left(seen, key) - 1], rest)
      else (m + multiset{key}) - before == (m - before) + multiset{key} && Counts(seen, rest)
    ensures Left(seen, key) > 0 <==> (m + multiset{key})[key] <= before[key]
  {
    var rest := before - (m + multiset{key});
    assert Left(seen, key) == (before - m)[key];
    forall k ensures rest[k] == if k == key && (before - m)[key] > 0 then (before - m)[k] - 1 else (before - m)[k] { }
  }

  lemma NoExcess(before: multiset<string>)
    ensures Excess([], before) == []
  {
  }

  method Unseen(now: seq<Violation>, counts: map<string, nat>,
                ghost before: multiset<string>) returns (out: seq<Violation>)
    requires Counts(counts, before)
    ensures out == Excess(now, before) && Keys(out) == Keys(now) - before
    ensures forall v :: v in out ==> v in now
  {
    hide Keys, KeyOf, Counts, Excess;
    assert Excess([], before) == [] by { NoExcess(before); }
    out := [];
    NoKeys();
    assert before - multiset{} == before;
    assert now[..0] == [];
    var seen: map<string, nat> := counts;
    for k := 0 to |now|
      invariant Counts(seen, before - Keys(now[..k]))
      invariant out == Excess(now[..k], before) && Keys(out) == Keys(now[..k]) - before
      invariant forall v :: v in out ==> v in now
    {
      KeysNext(now, k);
      ExcessNext(now, before, k);
      var key := KeyOf(now[k]);
      UnseenStep(before, Keys(now[..k]), key, seen);
      if Left(seen, key) > 0 {
        seen := seen[key := Left(seen, key) - 1];
      } else {
        KeysSnoc(out, now[k]);
        out := out + [now[k]];
      }
    }
    assert now[..|now|] == now;
  }

  lemma NoNewViolations(out: seq<Violation>, now: multiset<string>, before: multiset<string>)
    requires Keys(out) == now - before
    ensures out == [] <==> now <= before
  {
    KeysSize(out);
    if out == [] {
      forall key ensures now[key] <= before[key] { assert (now - before)[key] == 0; }
    }
    if now <= before { assert now - before == multiset{}; }
  }
}
