/** Visibility policies and how they resolve along the type ancestry
    (internal/aphelion/filterprofiles/profile.go:395-413). */
module FilterPolicy {
  import opened Basics

  datatype Scope = Exact | Subtree

  datatype Rule = Rule(path: string, scope: Scope, visible: bool)

  /** The types of the project in order, and the declared parent of each that has one. */
  datatype Catalog = Catalog(parents: map<string, string>, paths: seq<string>)

  /** The rules in force, later ones first in rank, and what applies without a rule. */
  datatype Policy = Policy(defaultVisible: bool, rules: seq<Rule>)

  /** The last rule with that path and scope decides. */
  function Latest(rules: seq<Rule>, path: string, scope: Scope): Option<bool> {
    if rules == [] then None
    else
      var last := rules[|rules| - 1];
      if last.path == path && last.scope == scope then Some(last.visible) else Latest(rules[..|rules| - 1], path, scope)
  }

  lemma LatestSnoc(rules: seq<Rule>, r: Rule, path: string, scope: Scope)
    ensures Latest(rules + [r], path, scope) == if r.path == path && r.scope == scope then Some(r.visible)
      else Latest(rules, path, scope)
  {
    assert (rules + [r])[..|rules|] == rules;
  }

  lemma {:induction false} LatestConcat(a: seq<Rule>, b: seq<Rule>, path: string, scope: Scope)
    ensures Latest(a + b, path, scope) == if Latest(b, path, scope).Some? then Latest(b, path, scope)
      else Latest(a, path, scope)
  {
    if b == [] {
      assert a + b == a;
    } else {
      assert (a + b)[..|a + b| - 1] == a + b[..|b| - 1];
      LatestConcat(a, b[..|b| - 1], path, scope);
    }
  }

  lemma {:induction false} LatestIn(rules: seq<Rule>, path: string, scope: Scope)
    ensures Latest(rules, path, scope).Some? ==> Rule(path, scope, Latest(rules, path, scope).value) in rules
    ensures Latest(rules, path, scope).None? ==> forall r :: r in rules ==> r.path != path || r.scope != scope
  {
    if rules != [] {
      var init := rules[..|rules| - 1];
      LatestIn(init, path, scope);
      assert forall r :: r in rules ==> r in init || r == rules[|rules| - 1];
    }
  }

  function Parent(cat: Catalog, path: string): string { if path in cat.parents then cat.parents[path] else "" }

  /** The walk up the ancestry to the nearest subtree rule; None is the cycle error. */
  function Nearest(cat: Catalog, pol: Policy, current: string, depth: nat): Option<bool>
    decreases |cat.parents| + 1 - depth
  {
    if current == "" then Some(pol.defaultVisible)
    else if depth > |cat.parents| then None
    else if Latest(pol.rules, current, Subtree).Some? then Latest(pol.rules, current, Subtree)
    else Nearest(cat, pol, Parent(cat, current), depth + 1)
  }

  /** Is a type shown? */
  function Seen(cat: Catalog, pol: Policy, path: string): Option<bool> {
    if Latest(pol.rules, path, Exact).Some? then Latest(pol.rules, path, Exact) else Nearest(cat, pol, path, 0)
  }

  /** Two policies say the same about every path. */
  ghost predicate Agree(p: Policy, q: Policy) {
    p.defaultVisible == q.defaultVisible &&
      forall path, scope :: Latest(p.rules, path, scope) == Latest(q.rules, path, scope)
  }

  lemma {:induction false} NearestAgrees(cat: Catalog, p: Policy, q: Policy, current: string, depth: nat)
    requires p.defaultVisible == q.defaultVisible &&
      forall path :: Latest(p.rules, path, Subtree) == Latest(q.rules, path, Subtree)
    ensures Nearest(cat, p, current, depth) == Nearest(cat, q, current, depth)
    decreases |cat.parents| + 1 - depth
  {
    hide Latest;
    if current != "" && depth <= |cat.parents| && Latest(p.rules, current, Subtree).None? {
      NearestAgrees(cat, p, q, Parent(cat, current), depth + 1);
    }
  }

  lemma SeenAgrees(cat: Catalog, p: Policy, q: Policy, path: string)
    requires Agree(p, q)
    ensures Seen(cat, p, path) == Seen(cat, q, path)
  {
    hide Latest, Nearest;
    NearestAgrees(cat, p, q, path, 0);
  }

  // ---- the cycle error -----------------------------------------------------------------------------

  /** The ancestry of the path ends after exactly n types. */
  ghost predicate EndsAfter(cat: Catalog, path: string, n: nat)
    decreases n
  {
    if n == 0 then path == "" else path != "" && EndsAfter(cat, Parent(cat, path), n - 1)
  }

  ghost predicate Grounded(cat: Catalog, path: string) { exists n: nat :: EndsAfter(cat, path, n) }

  ghost predicate EndsWithin(cat: Catalog, path: string, n: nat)
  {
    exists m: nat :: 0 < m <= n && EndsAfter(cat, path, m)
  }

  lemma {:induction false} EndsOnce(cat: Catalog, path: string, m: nat, n: nat)
    requires EndsAfter(cat, path, m) && EndsAfter(cat, path, n)
    ensures m == n
    decreases m
  {
    if m > 0 && n > 0 { EndsOnce(cat, Parent(cat, path), m - 1, n - 1); }
  }

  /** The pigeonhole: the types above the last one are different and each declares a parent, so
      there are no more of them than declared parents. */
  lemma {:induction false} EndsSoon(cat: Catalog, path: string, n: nat) returns (chain: set<string>)
    requires EndsAfter(cat, path, n) && n > 0
    ensures chain <= cat.parents.Keys && |chain| == n - 1 && n - 1 <= |cat.parents|
    ensures forall x :: x in chain ==> EndsWithin(cat, x, n)
    decreases n
  {
    if n == 1 {
      chain := {};
    } else {
      assert Parent(cat, path) != "";
      var above := EndsSoon(cat, Parent(cat, path), n - 1);
      if path in above {
        var m: nat :| 0 < m <= n - 1 && EndsAfter(cat, path, m);
        EndsOnce(cat, path, m, n);
      }
      chain := above + {path};
      forall x | x in chain ensures EndsWithin(cat, x, n) {
        if x == path {
          assert EndsAfter(cat, x, n);
        } else {
          var m: nat :| 0 < m <= n - 1 && EndsAfter(cat, x, m);
        }
      }
      SubsetSize(chain, cat.parents.Keys);
    }
  }

  lemma {:induction false} WalkEnds(cat: Catalog, pol: Policy, current: string, depth: nat, n: nat)
    requires EndsAfter(cat, current, n) && depth + n <= |cat.parents| + 1
    ensures Nearest(cat, pol, current, depth).Some?
    decreases n
  {
    if n > 0 { WalkEnds(cat, pol, Parent(cat, current), depth + 1, n - 1); }
  }

  /** A type whose ancestry ends never raises the cycle error, whatever the rules. */
  lemma GroundedResolves(cat: Catalog, pol: Policy, path: string)
    requires Grounded(cat, path)
    ensures Seen(cat, pol, path).Some?
  {
    var n: nat :| EndsAfter(cat, path, n);
    if n > 0 { var chain := EndsSoon(cat, path, n); }
    WalkEnds(cat, pol, path, 0, n);
  }

  lemma {:induction false} WalkNeverEnds(cat: Catalog, pol: Policy, current: string, depth: nat)
    requires pol.rules == [] && !Grounded(cat, current) && depth <= |cat.parents| + 1
    ensures Nearest(cat, pol, current, depth) == None
    decreases |cat.parents| + 1 - depth
  {
    assert current != "" by { if current == "" { assert EndsAfter(cat, current, 0); } }
    if depth <= |cat.parents| {
      if Grounded(cat, Parent(cat, current)) {
        var n: nat :| EndsAfter(cat, Parent(cat, current), n);
        assert EndsAfter(cat, current, n + 1);
      }
      WalkNeverEnds(cat, pol, Parent(cat, current), depth + 1);
    }
  }

  /** Without rules the error is raised exactly on the types whose ancestry never ends. */
  lemma CycleErrorIsExact(cat: Catalog, defaultVisible: bool, path: string)
    ensures Seen(cat, Policy(defaultVisible, []), path).None? <==> !Grounded(cat, path)
  {
    if Grounded(cat, path) { GroundedResolves(cat, Policy(defaultVisible, []), path); }
    else { WalkNeverEnds(cat, Policy(defaultVisible, []), path, 0); }
  }

  // ---- what an ancestry decides ----------------------------------------------------------------------

  /** The types from the first upwards, each declared the parent of the one before, the last one
      without a parent. */
  ghost predicate Lineage(cat: Catalog, chain: seq<string>)
    decreases |chain|
  {
    && chain != [] && chain[0] != ""
    && if |chain| == 1 then chain[0] in cat.parents ==> cat.parents[chain[0]] == ""
       else chain[0] in cat.parents && cat.parents[chain[0]] == chain[1] && Lineage(cat, chain[1..])
  }

  /** The type is shown or hidden by its exact rule, or else by the subtree rule of the first type of
      the lineage that has one, or else by the default. */
  ghost predicate Decides(pol: Policy, chain: seq<string>, visible: bool)
    requires chain != []
  {
    if Latest(pol.rules, chain[0], Exact).Some? then Latest(pol.rules, chain[0], Exact).value == visible
    else if forall i ::
      0 <= i < |chain| ==> Latest(pol.rules, chain[i], Subtree).None? then visible == pol.defaultVisible
    else exists n :: FirstAt(pol, chain, n, visible)
  }

  /** The n-th type is the first with a subtree rule, and this is what the rule says. */
  ghost predicate FirstAt(pol: Policy, chain: seq<string>, n: int, visible: bool) {
    0 <= n < |chain| && Latest(pol.rules, chain[n], Subtree) == Some(visible)
    && forall i :: 0 <= i < n ==> Latest(pol.rules, chain[i], Subtree).None?
  }

  lemma {:induction false} LineageEnds(cat: Catalog, chain: seq<string>)
    requires Lineage(cat, chain)
    ensures EndsAfter(cat, chain[0], |chain|)
    decreases |chain|
  {
    if |chain| == 1 {
      assert EndsAfter(cat, "", 0);
    } else {
      LineageEnds(cat, chain[1..]);
    }
  }

  /** The first rule met on the way up a lineage. */
  function FirstRule(pol: Policy, chain: seq<string>): bool {
    if chain == [] then pol.defaultVisible
    else match Latest(pol.rules, chain[0], Subtree)
      case Some(visible) => visible
      case None => FirstRule(pol, chain[1..])
  }

  lemma {:induction false} NearestIsFirst(cat: Catalog, pol: Policy, chain: seq<string>, depth: nat)
    requires Lineage(cat, chain) && depth + |chain| <= |cat.parents| + 1
    ensures Nearest(cat, pol, chain[0], depth) == Some(FirstRule(pol, chain))
    decreases |chain|
  {
    hide Latest;
    if Latest(pol.rules, chain[0], Subtree).None? {
      if |chain| == 1 {
        assert Parent(cat, chain[0]) == "" && chain[1..] == [];
      } else {
        NearestIsFirst(cat, pol, chain[1..], depth + 1);
      }
    }
  }

  lemma {:induction false} FirstDecides(pol: Policy, chain: seq<string>)
    ensures if forall i :: 0 <= i < |chain| ==> Latest(pol.rules, chain[i], Subtree).None?
            then FirstRule(pol, chain) == pol.defaultVisible
            else exists n :: FirstAt(pol, chain, n, FirstRule(pol, chain))
    decreases |chain|
  {
    hide Latest;
    if chain != [] {
      if Latest(pol.rules, chain[0], Subtree).None? {
        var rest := chain[1..];
        FirstDecides(pol, rest);
        assert forall i :: 0 <= i < |rest| ==> rest[i] == chain[i + 1];
        if n :| FirstAt(pol, rest, n, FirstRule(pol, rest)) {
          assert forall i :: 0 < i < n + 1 ==> chain[i] == rest[i - 1];
          assert FirstAt(pol, chain, n + 1, FirstRule(pol, chain));
        }
      } else {
        assert FirstAt(pol, chain, 0, FirstRule(pol, chain));
      }
    }
  }

  /** Along a lineage that ends, however long, the nearest rule decides. */
  lemma LineageDecides(cat: Catalog, pol: Policy, chain: seq<string>, visible: bool)
    requires Lineage(cat, chain)
    ensures Seen(cat, pol, chain[0]) == Some(visible) <==> Decides(pol, chain, visible)
  {
    hide Latest, Nearest;
    LineageEnds(cat, chain);
    var above := EndsSoon(cat, chain[0], |chain|);
    NearestIsFirst(cat, pol, chain, 0);
    FirstDecides(pol, chain);
    if Decides(pol, chain, visible) && Latest(pol.rules, chain[0], Exact).None? {
      OneDecision(pol, chain, visible, FirstRule(pol, chain));
    }
  }

  lemma OneDecision(pol: Policy, chain: seq<string>, a: bool, b: bool)
    requires chain != [] && Decides(pol, chain, a) && Decides(pol, chain, b)
    ensures a == b
  {
    hide Latest;
    if Latest(pol.rules, chain[0], Exact).None?
      && !(forall i :: 0 <= i < |chain| ==> Latest(pol.rules, chain[i], Subtree).None?) {
      var m :| FirstAt(pol, chain, m, a);
      var n :| FirstAt(pol, chain, n, b);
      assert m == n;
    }
  }
}
