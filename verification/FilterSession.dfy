/** A session's temporary visibility changes (internal/aphelion/filterprofiles/profile.go:478-506,
    579-639): a subtree toggle is the newest word on everything below it, and on nothing else. */
module FilterSession {
  import opened Basics
  import opened Paths
  import opened FilterPolicy
  import opened FilterProfiles

  // ---- rules ---------------------------------------------------------------------------------------

  /** What a rule leaves of an earlier answer about a key. */
  function Then(earlier: Option<bool>, r: Rule, p: string, s: Scope): Option<bool> {
    if p == r.path && s == r.scope then Some(r.visible) else earlier
  }

  /** setRule: replaces the rule with the same key or adds one. */
  method SetRule(rules: seq<Rule>, rule: Rule) returns (out: seq<Rule>)
    requires OneEach(rules)
    ensures OneEach(out)
    ensures forall p, s :: Latest(out, p, s) == Then(Latest(rules, p, s), rule, p, s)
    ensures forall r :: r in out ==> r == rule || r in rules
  {
    hide Latest;
    for i := 0 to |rules|
      invariant forall j :: 0 <= j < i ==> !SameKey(rules[j], rule)
    {
      if SameKey(rules[i], rule) {
        out := rules[i := rule];
        ReplacedRule(rules, i, rule);
        return;
      }
    }
    out := rules + [rule];
    forall p, s ensures Latest(out, p, s) == Then(Latest(rules, p, s), rule, p, s) {
      LatestSnoc(rules, rule, p, s);
    }
  }

  lemma ReplacedRule(rules: seq<Rule>, i: nat, rule: Rule)
    requires OneEach(rules) && i < |rules| && SameKey(rules[i], rule)
    ensures OneEach(rules[i := rule])
    ensures forall p, s :: Latest(rules[i := rule], p, s) == Then(Latest(rules, p, s), rule, p, s)
  {
    var out := rules[i := rule];
    forall j, k | 0 <= j < k < |out| ensures !SameKey(out[j], out[k]) { assert !SameKey(rules[j], rules[k]); }
    forall p, s ensures Latest(out, p, s) == Then(Latest(rules, p, s), rule, p, s) {
      assert out[i] == rule;
      if p == rule.path && s == rule.scope { LatestOfOne(out, rule); } else { LatestSkips(rules, out, p, s); }
    }
  }

  /** Rules under other keys do not matter. */
  lemma {:induction false} LatestSkips(a: seq<Rule>, b: seq<Rule>, p: string, s: Scope)
    requires |a| == |b| && forall i :: 0 <= i < |a| ==>
      a[i] == b[i] || (SameKey(a[i], b[i]) && !(a[i].path == p && a[i].scope == s))
    ensures Latest(a, p, s) == Latest(b, p, s)
  {
    if a != [] { LatestSkips(a[..|a| - 1], b[..|b| - 1], p, s); }
  }

  function Outside(rules: seq<Rule>, path: string): seq<Rule> {
    if rules == [] then []
    else Outside(rules[..|rules| - 1], path) + if AtOrBelow(rules[|rules| - 1].path, path) then []
      else [rules[|rules| - 1]]
  }

  lemma {:induction false} OutsideMeaning(rules: seq<Rule>, path: string)
    requires OneEach(rules)
    ensures OneEach(Outside(rules, path)) && forall r :: r in Outside(rules, path) <==>
      r in rules && !AtOrBelow(r.path, path)
  {
    if rules != [] {
      var init, last := rules[..|rules| - 1], rules[|rules| - 1];
      OutsideMeaning(init, path);
      var out := Outside(init, path);
      forall i | 0 <= i < |out| ensures !SameKey(out[i], last) {
        assert out[i] in init;
        var j :| 0 <= j < |init| && init[j] == out[i];
        assert !SameKey(rules[j], rules[|rules| - 1]);
      }
      assert forall r :: r in rules <==> r in init || r == last;
    }
  }

  lemma {:induction false} OutsideLatest(rules: seq<Rule>, path: string, p: string, s: Scope)
    ensures Latest(Outside(rules, path), p, s) == if AtOrBelow(p, path) then None else Latest(rules, p, s)
  {
    hide AtOrBelow;
    if rules != [] {
      var init, last := rules[..|rules| - 1], rules[|rules| - 1];
      OutsideLatest(init, path, p, s);
      LatestSnoc(Outside(init, path), last, p, s);
      assert Outside(init, path) + [] == Outside(init, path);
    }
  }

  /** A profile rule that would contradict the toggle and has to be overridden. */
  predicate Contradicts(r: Rule, path: string, visible: bool) {
    AtOrBelow(r.path, path) && r.visible != visible && !(r.path == path && r.scope == Subtree)
  }

  /** What the temporary rules say about a key after supersede. */
  function SupersededAt(rules: seq<Rule>, base: seq<Rule>, path: string, visible: bool, p: string,
                        s: Scope): Option<bool> {
    if !AtOrBelow(p, path) then Latest(rules, p, s)
    else if Latest(base, p, s) == Some(!visible) && !(p == path && s == Subtree) then Some(visible)
    else None
  }

  method Supersede(rules: seq<Rule>, base: seq<Rule>, path: string, visible: bool) returns (out: seq<Rule>)
    requires OneEach(rules) && OneEach(base)
    ensures OneEach(out)
    ensures forall p, s :: Latest(out, p, s) == SupersededAt(rules, base, path, visible, p, s)
    ensures forall r :: r in out ==> r in rules || exists b :: b in base && b.path == r.path
  {
    hide Latest, OneEach, AtOrBelow, SupersededAt;
    out := Outside(rules, path);
    OutsideMeaning(rules, path);
    forall p, s ensures Latest(out, p, s) == SupersededAt(rules, base[..0], path, visible, p, s) {
      OutsideSuperseded(rules, base, path, visible, p, s);
    }
    for k := 0 to |base|
      invariant OneEach(out)
      invariant forall p, s :: Latest(out, p, s) == SupersededAt(rules, base[..k], path, visible, p, s)
      invariant forall r :: r in out ==> r in rules || exists b :: b in base && b.path == r.path
    {
      var r := base[k];
      assert r in base;
      ghost var before := out;
      if Contradicts(r, path, visible) { out := SetRule(out, Rule(r.path, r.scope, visible)); }
      forall p, s ensures Latest(out, p, s) == SupersededAt(rules, base[..k + 1], path, visible, p, s) {
        SupersededNext(rules, base, k, path, visible, p, s);
        assert Latest(before, p, s) == SupersededAt(rules, base[..k], path, visible, p, s);
      }
    }
    assert base[..|base|] == base;
  }

  lemma OutsideSuperseded(rules: seq<Rule>, base: seq<Rule>, path: string, visible: bool, p: string, s: Scope)
    ensures Latest(Outside(rules, path), p, s) == SupersededAt(rules, base[..0], path, visible, p, s)
  {
    hide AtOrBelow;
    OutsideLatest(rules, path, p, s);
    assert base[..0] == [];
  }

  lemma SupersededNext(rules: seq<Rule>, base: seq<Rule>, k: nat, path: string, visible: bool, p: string, s: Scope)
    requires OneEach(base) && k < |base|
    ensures SupersededAt(rules, base[..k + 1], path, visible, p, s) ==
            var before := SupersededAt(rules, base[..k], path, visible, p, s);
            if Contradicts(base[k], path, visible) then Then(before, Rule(base[k].path, base[k].scope, visible), p, s)
              else before
  {
    hide Latest, AtOrBelow;
    assert base[..k + 1] == base[..k] + [base[k]];
    LatestSnoc(base[..k], base[k], p, s);
    FirstOfKey(base, k);
  }

  lemma FirstOfKey(base: seq<Rule>, k: nat)
    requires OneEach(base) && k < |base|
    ensures Latest(base[..k], base[k].path, base[k].scope) == None
  {
    LatestIn(base[..k], base[k].path, base[k].scope);
    forall i | 0 <= i < k ensures !SameKey(base[..k][i], base[k]) { assert !SameKey(base[i], base[k]); }
  }

  // ---- paths ----------------------------------------------------------------------------------------

  function LastSlash(p: string): (i: int)
    ensures -1 <= i < |p| && (i >= 0 ==> p[i] == '/') && forall j :: i < j < |p| ==> p[j] != '/'
  {
    if p == "" then -1 else if p[|p| - 1] == '/' then |p| - 1 else LastSlash(p[..|p| - 1])
  }

  /** The path without its last segment; empty for a root. */
  function PathParent(p: string): string { if LastSlash(p) <= 0 then "" else p[..LastSlash(p)] }

  /** Declared parents are the path parents, and the catalogue has them all. */
  ghost predicate PathTree(cat: Catalog) {
    forall p :: p in cat.paths ==>
      (if p in cat.parents then cat.parents[p] else "") == PathParent(p)
      && (PathParent(p) == "" || PathParent(p) in cat.paths)
  }

  lemma BelowParent(q: string, path: string)
    requires path != "" && AtOrBelow(q, path) && q != path
    ensures PathParent(q) != "" && AtOrBelow(PathParent(q), path)
  {
    var n, i := |path|, LastSlash(q);
    assert q[..n + 1] == path + "/";
    assert q[n] == (path + "/")[n];
    assert i >= n;
    assert q[..n] == (path + "/")[..n] == path;
    if i > n { assert q[..i][..n + 1] == q[..n + 1]; }
  }

  lemma ParentBelow(q: string, path: string)
    requires PathParent(q) != "" && AtOrBelow(PathParent(q), path)
    ensures AtOrBelow(q, path)
  {
    var i := LastSlash(q);
    var parent := q[..i];
    if parent == path {
      assert q[..i + 1] == path + "/";
    } else {
      assert q[..|path| + 1] == parent[..|path| + 1];
    }
  }

  lemma {:induction false} PathTreeGrounded(cat: Catalog, q: string)
    requires PathTree(cat) && (q == "" || q in cat.paths)
    ensures Grounded(cat, q)
    decreases |q|
  {
    if q == "" {
      assert EndsAfter(cat, q, 0);
    } else {
      PathTreeGrounded(cat, PathParent(q));
      var n: nat :| EndsAfter(cat, PathParent(q), n);
      assert EndsAfter(cat, q, n + 1);
    }
  }

  // ---- the effect of a subtree toggle -------------------------------------------------------------

  /** At or below the path every rule says `visible`, and the path itself has a subtree rule. */
  ghost predicate SettledBelow(pol: Policy, path: string, visible: bool) {
    && (forall p, s ::
        AtOrBelow(p, path) ==> Latest(pol.rules, p, s) == None || Latest(pol.rules, p, s) == Some(visible))
    && Latest(pol.rules, path, Subtree) == Some(visible)
  }

  /** Outside the subtree the two policies agree. */
  ghost predicate SameOutside(p: Policy, q: Policy, path: string) {
    && p.defaultVisible == q.defaultVisible
    && forall x, s :: !AtOrBelow(x, path) ==> Latest(p.rules, x, s) == Latest(q.rules, x, s)
  }

  lemma {:induction false} WalkBelow(cat: Catalog, pol: Policy, path: string, visible: bool, q: string, depth: nat)
    requires PathTree(cat) && SettledBelow(pol, path, visible) && path != "" && q in cat.paths && AtOrBelow(q, path)
    ensures Nearest(cat, pol, q, depth) == None || Nearest(cat, pol, q, depth) == Some(visible)
    decreases |cat.parents| + 1 - depth
  {
    hide Latest, AtOrBelow;
    assert q != "" by { NotEmptyBelow(q, path); }
    if depth <= |cat.parents| && Latest(pol.rules, q, Subtree).None? {
      BelowParent(q, path);
      WalkBelow(cat, pol, path, visible, PathParent(q), depth + 1);
    }
  }

  lemma NotEmptyBelow(q: string, path: string)
    requires path != "" && AtOrBelow(q, path)
    ensures q != ""
  {
  }

  lemma {:induction false} WalkOutside(cat: Catalog, p: Policy, p': Policy, path: string, q: string, depth: nat)
    requires PathTree(cat) && SameOutside(p, p', path) && (q == "" || (q in cat.paths && !AtOrBelow(q, path)))
    ensures Nearest(cat, p, q, depth) == Nearest(cat, p', q, depth)
    decreases |cat.parents| + 1 - depth
  {
    hide Latest, AtOrBelow;
    if q != "" && depth <= |cat.parents| && Latest(p.rules, q, Subtree).None? {
      if PathParent(q) != "" && AtOrBelow(PathParent(q), path) { ParentBelow(q, path); }
      WalkOutside(cat, p, p', path, PathParent(q), depth + 1);
    }
  }

  /** Every catalogued type at or below the path is shown as requested; no other changes. */
  lemma ToggleIsExact(cat: Catalog, p: Policy, p': Policy, path: string, visible: bool, q: string)
    requires PathTree(cat) && path != "" && SettledBelow(p', path, visible) && SameOutside(p, p', path) &&
      q in cat.paths
    ensures Seen(cat, p', q) == if AtOrBelow(q, path) then Some(visible) else Seen(cat, p, q)
  {
    hide Latest, AtOrBelow, Nearest;
    if AtOrBelow(q, path) {
      PathTreeGrounded(cat, q);
      GroundedResolves(cat, p', q);
      WalkBelow(cat, p', path, visible, q, 0);
    } else {
      WalkOutside(cat, p, p', path, q, 0);
    }
  }

  /** After supersede and the toggle rule the policy is settled below the path and unchanged
      elsewhere. */
  lemma ToggledPolicy(profile: Profile, ov: Overrides, next: Overrides, path: string, visible: bool)
    requires next.replaceProfile == ov.replaceProfile && next.defaultVisible == ov.defaultVisible
    requires forall p, s ::
      Latest(next.rules, p, s) ==
        Then(SupersededAt(ov.rules, BaseRules(profile, ov), path, visible, p, s), Rule(path, Subtree, visible), p, s)
    ensures SettledBelow(PolicyOf(profile, next), path, visible)
    ensures SameOutside(PolicyOf(profile, ov), PolicyOf(profile, next), path)
  {
    hide Latest, AtOrBelow;
    var pol, pol' := PolicyOf(profile, ov), PolicyOf(profile, next);
    assert AtOrBelow(path, path) by { ItselfBelow(path); }
    forall p, s | AtOrBelow(p, path) ensures Latest(pol'.rules, p, s) == None ||
      Latest(pol'.rules, p, s) == Some(visible) {
      ToggledAt(profile, ov, next, path, visible, p, s);
    }
    ToggledAt(profile, ov, next, path, visible, path, Subtree);
    forall p, s | !AtOrBelow(p, path) ensures Latest(pol.rules, p, s) == Latest(pol'.rules, p, s) {
      ToggledAt(profile, ov, next, path, visible, p, s);
    }
  }

  lemma ItselfBelow(path: string)
    ensures AtOrBelow(path, path)
  {
  }

  lemma ToggledAt(profile: Profile, ov: Overrides, next: Overrides, path: string, visible: bool, p: string, s: Scope)
    requires next.replaceProfile == ov.replaceProfile && next.defaultVisible == ov.defaultVisible &&
      AtOrBelow(path, path)
    requires Latest(next.rules, p, s) ==
             Then(SupersededAt(ov.rules, BaseRules(profile, ov), path, visible, p, s), Rule(path, Subtree, visible), p,
                  s)
    ensures var now := Latest(PolicyOf(profile, next).rules, p, s);
      && (AtOrBelow(p, path) ==> now == None || now == Some(visible))
      && (p == path && s == Subtree ==> now == Some(visible))
      && (!AtOrBelow(p, path) ==> now == Latest(PolicyOf(profile, ov).rules, p, s))
  {
    hide Latest, AtOrBelow;
    LatestConcat(BaseRules(profile, ov), next.rules, p, s);
    LatestConcat(BaseRules(profile, ov), ov.rules, p, s);
    var base := Latest(BaseRules(profile, ov), p, s);
    if base.Some? {
      var b: bool := base.value;
      assert b == visible || b == !visible;
      assert base == Some(b);
    }
  }

  /** An exact rule changes its own path only. */
  lemma ExactIsExact(cat: Catalog, profile: Profile, ov: Overrides, next: Overrides, path: string, visible: bool,
                     q: string)
    requires next.replaceProfile == ov.replaceProfile && next.defaultVisible == ov.defaultVisible
    requires forall p, s :: Latest(next.rules, p, s) == Then(Latest(ov.rules, p, s), Rule(path, Exact, visible), p, s)
    ensures Seen(cat, PolicyOf(profile, next), q) == if q == path then Some(visible)
      else Seen(cat, PolicyOf(profile, ov), q)
    ensures Latest(PolicyOf(profile, next).rules, q, Exact) == if q == path then Some(visible)
      else Latest(PolicyOf(profile, ov).rules, q, Exact)
  {
    hide Latest, Nearest;
    var base := BaseRules(profile, ov);
    forall p, s
      ensures Latest(PolicyOf(profile, next).rules, p, s) ==
        Then(Latest(PolicyOf(profile, ov).rules, p, s), Rule(path, Exact, visible), p, s)
    {
      LatestConcat(base, next.rules, p, s);
      LatestConcat(base, ov.rules, p, s);
    }
    NearestAgrees(cat, PolicyOf(profile, next), PolicyOf(profile, ov), q, 0);
  }

  /** What the exact rules say of a path after a subtree toggle. */
  ghost function ToggledExact(profile: Profile, ov: Overrides, path: string, visible: bool, q: string): Option<bool> {
    if !AtOrBelow(q, path) then Latest(PolicyOf(profile, ov).rules, q, Exact)
    else if Latest(BaseRules(profile, ov), q, Exact).Some? then Some(visible) else None
  }

  /** Of a path that the project lacks only the exact rules matter: at or below the toggled path the
      profile's exact rules are overridden and the temporary ones dropped; elsewhere none changes. */
  lemma ToggledAbsent(profile: Profile, ov: Overrides, next: Overrides, path: string, visible: bool, q: string)
    requires next.replaceProfile == ov.replaceProfile && next.defaultVisible == ov.defaultVisible
    requires forall p, s ::
      Latest(next.rules, p, s) ==
        Then(SupersededAt(ov.rules, BaseRules(profile, ov), path, visible, p, s), Rule(path, Subtree, visible), p, s)
    ensures Latest(PolicyOf(profile, next).rules, q, Exact) == ToggledExact(profile, ov, path, visible, q)
  {
    hide Latest, AtOrBelow;
    var base := BaseRules(profile, ov);
    LatestConcat(base, next.rules, q, Exact);
    LatestConcat(base, ov.rules, q, Exact);
    var old' := Latest(base, q, Exact);
    if old'.Some? {
      var b: bool := old'.value;
      assert b == visible || b == !visible;
      assert old' == Some(b);
    }
  }

  /** The overrides after a toggle. */
  method Toggled(profile: Profile, ov: Overrides, path: string, scope: Scope, visible: bool) returns (next: Overrides)
    requires ValidRules(profile.rules) && ValidRules(ov.rules)
    ensures OneEach(next.rules) && next.replaceProfile == ov.replaceProfile && next.defaultVisible == ov.defaultVisible
    ensures ValidPath(path) <==> ValidRules(next.rules)
    ensures scope == Subtree ==>
      SettledBelow(PolicyOf(profile, next), path, visible) &&
        SameOutside(PolicyOf(profile, ov), PolicyOf(profile, next), path)
    ensures scope == Subtree ==>
      forall q :: Latest(PolicyOf(profile, next).rules, q, Exact) == ToggledExact(profile, ov, path, visible, q)
    ensures scope == Exact ==>
      forall p, s :: Latest(next.rules, p, s) == Then(Latest(ov.rules, p, s), Rule(path, Exact, visible), p, s)
  {
    hide Latest, OneEach, SettledBelow, SameOutside, SupersededAt, ValidPath, AtOrBelow, PolicyOf;
    var base, rules := BaseRules(profile, ov), ov.rules;
    BaseValid(profile, ov);
    if scope == Subtree { rules := Supersede(rules, base, path, visible); }
    var out := SetRule(rules, Rule(path, scope, visible));
    next := ov.(rules := out);
    if scope == Subtree {
      ToggledPolicy(profile, ov, next, path, visible);
      forall q ensures Latest(PolicyOf(profile, next).rules, q, Exact) == ToggledExact(profile, ov, path, visible, q) {
        ToggledAbsent(profile, ov, next, path, visible, q);
      }
    }
    ToggledValid(ov.rules, base, out, Rule(path, scope, visible));
  }

  lemma BaseValid(profile: Profile, ov: Overrides)
    requires ValidRules(profile.rules)
    ensures ValidRules(BaseRules(profile, ov))
  {
  }

  lemma ToggledValid(rules: seq<Rule>, base: seq<Rule>, out: seq<Rule>, rule: Rule)
    requires ValidRules(rules) && ValidRules(base) && OneEach(out)
    requires forall p, s :: p == rule.path && s == rule.scope ==> Latest(out, p, s) == Some(rule.visible)
    requires forall r :: r in out ==> r == rule || r in rules || exists b :: b in base && b.path == r.path
    ensures ValidPath(rule.path) <==> ValidRules(out)
  {
    hide OneEach, ValidPath;
    LatestIn(out, rule.path, rule.scope);
    forall r | r in out && r != rule ensures ValidPath(r.path) {
      if r !in rules { var b :| b in base && b.path == r.path; }
    }
  }

  // ---- the session ----------------------------------------------------------------------------------

  function DefaultProfile(): Profile { Profile(true, true, []) }

  /** What compiling says about a path: of a catalogued type, whether it is seen; of any other,
      whether an exact rule hides it. */
  lemma HiddenMember(cat: Catalog, pol: Policy, hidden: seq<string>, q: string)
    requires Compiles(cat, pol, Some(hidden))
    ensures q in cat.paths ==> (q in hidden <==> Seen(cat, pol, q) == Some(false))
    ensures q !in cat.paths ==> (q in hidden <==> Latest(pol.rules, q, Exact) == Some(false))
  {
    hide Seen, Latest;
    var absent :| ListsAbsent(cat, pol, absent) && hidden == absent + HiddenAmong(cat, pol, cat.paths);
    HiddenAmongMember(cat, pol, cat.paths, q);
  }

  lemma {:induction false} HiddenAmongMember(cat: Catalog, pol: Policy, paths: seq<string>, q: string)
    ensures q in HiddenAmong(cat, pol, paths) <==> q in paths && Seen(cat, pol, q) == Some(false)
  {
    hide Seen;
    if paths != [] {
      HiddenAmongMember(cat, pol, paths[..|paths| - 1], q);
      assert q in paths <==> q in paths[..|paths| - 1] || q == paths[|paths| - 1];
    }
  }

  /** No catalogued type raises the cycle error. */
  ghost predicate NoCycleError(cat: Catalog, pol: Policy) { forall q :: q in cat.paths ==> Seen(cat, pol, q).Some? }

  lemma CompileOutcome(cat: Catalog, pol: Policy, r: Option<seq<string>>)
    requires Compiles(cat, pol, r)
    ensures r.Some? <==> NoCycleError(cat, pol)
  {
    hide Seen, HiddenAmong, ListsAbsent;
  }

  class Session {
    const cat: Catalog
    var active: Option<Profile>
    var overrides: Overrides
    var hidden: seq<string>
    var lastHidden: Option<Rule>

    function Current(): Profile
      reads this
    {
      if active.Some? then active.value else DefaultProfile()
    }

    /** The session shows what its profile and overrides say. */
    ghost predicate Valid()
      reads this
    {
      && Current().named && ValidRules(Current().rules) && ValidRules(overrides.rules)
      && Compiles(cat, PolicyOf(Current(), overrides), Some(hidden))
    }

    /** A session without a profile shows everything. */
    constructor (cat: Catalog)
      requires forall q :: q in cat.paths ==> Grounded(cat, q)
      ensures Valid() && this.cat == cat && hidden == [] && active == None
    {
      this.cat, active, overrides, hidden, lastHidden := cat, None, NoOverrides(), [], None;
      StartShown(cat);
    }

    /** Apply: the profile alone decides; it fails exactly for an invalid profile or a cycle, and
        then nothing changes. */
    method Apply(profile: Profile) returns (ok: bool)
      requires Valid()
      modifies this
      ensures Valid()
      ensures ok <==> profile.named && ValidRules(profile.rules) && NoCycleError(cat, PolicyOf(profile, NoOverrides()))
      ensures if ok then active == Some(profile) && overrides == NoOverrides() && lastHidden == None
              else active == old(active) && overrides == old(overrides) && hidden == old(hidden)
    {
      hide ValidRules, Compiles;
      NoRulesValid();
      var compiled := Compile(cat, profile, NoOverrides());
      if profile.named && ValidRules(profile.rules) { CompileOutcome(cat, PolicyOf(profile, NoOverrides()), compiled); }
      if compiled.None? { return false; }
      active, overrides, hidden, lastHidden := Some(profile), NoOverrides(), compiled.value, None;
      ok := true;
    }

    /** SetVisibility: with subtree scope exactly the catalogued types at or below the path take
        the requested visibility, with exact scope exactly the path; on an error nothing changes. */
    method SetVisibility(path: string, scope: Scope, visible: bool) returns (ok: bool)
      requires Valid()
      modifies this
      ensures Valid() && active == old(active)
      ensures !ok ==> overrides == old(overrides) && hidden == old(hidden) && lastHidden == old(lastHidden)
      ensures ok ==> ValidPath(path)
      ensures ValidPath(path) && (forall q :: q in cat.paths ==> Grounded(cat, q)) ==> ok
      ensures ok && scope == Subtree && PathTree(cat) ==>
        forall q :: q in cat.paths ==> (q in hidden <==> if AtOrBelow(q, path) then !visible else q in old(hidden))
      ensures ok && scope == Subtree ==> forall q :: q !in cat.paths ==>
        (q in hidden <==> if !AtOrBelow(q, path) then q in old(hidden)
                          else !visible && Latest(BaseRules(Current(), old(overrides)), q, Exact).Some?)
      ensures ok && scope == Exact ==> forall q :: q in hidden <==> if q == path then !visible else q in old(hidden)
    {
      hide ValidRules, PolicyOf, Compiles, SettledBelow, SameOutside, Latest, ValidPath, OneEach, AtOrBelow;
      var next := Toggled(Current(), overrides, path, scope, visible);
      var compiled := Compile(cat, Current(), next);
      if compiled.None? {
        CompileFailed(cat, Current(), next);
        return false;
      }
      ghost var before, after := PolicyOf(Current(), overrides), PolicyOf(Current(), next);
      forall q | q !in cat.paths
        ensures scope == Exact ==> (q in compiled.value <==> if q == path then !visible else q in hidden)
        ensures scope == Subtree ==> (q in compiled.value <==> if !AtOrBelow(q, path) then q in hidden
          else !visible && Latest(BaseRules(Current(), overrides), q, Exact).Some?)
      {
        HiddenMember(cat, before, hidden, q);
        HiddenMember(cat, after, compiled.value, q);
        if scope == Exact { ExactIsExact(cat, Current(), overrides, next, path, visible, q); }
      }
      forall q | q in cat.paths && (scope == Exact || PathTree(cat))
        ensures q in compiled.value <==>
          if (if scope == Subtree then AtOrBelow(q, path) else q == path) then !visible else q in hidden
      {
        HiddenMember(cat, before, hidden, q);
        HiddenMember(cat, after, compiled.value, q);
        if scope == Subtree {
          ValidPathNotEmpty(path);
          ToggleIsExact(cat, before, after, path, visible, q);
        } else {
          ExactIsExact(cat, Current(), overrides, next, path, visible, q);
        }
      }
      if !visible && hidden != compiled.value { lastHidden := Some(Rule(path, scope, visible)); }
      overrides, hidden := next, compiled.value;
      ok := true;
    }

    /** Show All: the profile is replaced by one that shows everything; on a cycle nothing changes. */
    method ShowAll() returns (ok: bool)
      requires Valid()
      modifies this
      ensures Valid() && active == old(active)
      ensures ok <==> NoCycleError(cat, PolicyOf(old(Current()), Overrides(true, Some(true), [])))
      ensures ok ==> hidden == [] && overrides == Overrides(true, Some(true), [])
      ensures !ok ==> overrides == old(overrides) && hidden == old(hidden)
      ensures (forall q :: q in cat.paths ==> Grounded(cat, q)) ==> ok
    {
      hide ValidRules, Compiles;
      var next := Overrides(true, Some(true), []);
      NoRulesValid();
      var compiled := Compile(cat, Current(), next);
      CompileOutcome(cat, PolicyOf(Current(), next), compiled);
      if compiled.None? {
        CompileFailed(cat, Current(), next);
        return false;
      }
      NothingHidden(cat, compiled.value);
      overrides, hidden := next, compiled.value;
      ok := true;
    }
  }

  lemma ValidPathNotEmpty(path: string)
    requires ValidPath(path)
    ensures path != ""
  {
  }

  /** On a catalogue without cycles only invalid rules fail. */
  lemma CompileFailed(cat: Catalog, profile: Profile, ov: Overrides)
    requires ValidRules(ov.rules) ==> Compiles(cat, PolicyOf(profile, ov), None)
    ensures ValidRules(ov.rules) ==> exists q :: q in cat.paths && !Grounded(cat, q)
  {
    hide ValidRules, Seen;
    if ValidRules(ov.rules) {
      var q :| q in cat.paths && Seen(cat, PolicyOf(profile, ov), q).None?;
      if Grounded(cat, q) { GroundedResolves(cat, PolicyOf(profile, ov), q); }
    }
  }

  lemma {:induction false} NearestShown(cat: Catalog, pol: Policy, q: string, depth: nat)
    requires pol == Policy(true, [])
    ensures Nearest(cat, pol, q, depth) != Some(false)
    decreases |cat.parents| + 1 - depth
  {
    if q != "" && depth <= |cat.parents| { NearestShown(cat, pol, Parent(cat, q), depth + 1); }
  }

  lemma {:induction false} NoneHidden(cat: Catalog, pol: Policy, paths: seq<string>)
    requires pol == Policy(true, [])
    ensures HiddenAmong(cat, pol, paths) == []
  {
    if paths != [] {
      NoneHidden(cat, pol, paths[..|paths| - 1]);
      NearestShown(cat, pol, paths[|paths| - 1], 0);
    }
  }

  lemma StartShown(cat: Catalog)
    requires forall q :: q in cat.paths ==> Grounded(cat, q)
    ensures ValidRules([]) && Compiles(cat, PolicyOf(DefaultProfile(), NoOverrides()), Some([]))
  {
    var pol := Policy(true, []);
    assert PolicyOf(DefaultProfile(), NoOverrides()) == pol;
    NoneHidden(cat, pol, cat.paths);
    forall q | q in cat.paths ensures Seen(cat, pol, q).Some? { GroundedResolves(cat, pol, q); }
    assert ListsAbsent(cat, pol, []);
  }

  lemma HasElement(xs: seq<string>)
    requires xs != []
    ensures exists x :: x in xs
  {
    assert xs[0] in xs;
  }

  lemma NothingHidden(cat: Catalog, hidden: seq<string>)
    requires Compiles(cat, Policy(true, [] + []), Some(hidden))
    ensures hidden == []
  {
    var pol := Policy(true, []);
    assert Policy(true, [] + []) == pol;
    NoneHidden(cat, pol, cat.paths);
    var absent :| ListsAbsent(cat, pol, absent) && hidden == absent + HiddenAmong(cat, pol, cat.paths);
    if absent != [] { HasElement(absent); }
  }
}
