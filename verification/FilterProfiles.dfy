/** Compiling profiles with temporary overrides, and saving the overrides
    (internal/aphelion/filterprofiles/profile.go:124-140, 346-467). */
module FilterProfiles {
  import opened Basics
  import opened Sorting
  import opened FilterPolicy

  /** `named` says whether the ID and the name pass validation. */
  datatype Profile = Profile(named: bool, defaultVisible: bool, rules: seq<Rule>)

  datatype Overrides = Overrides(replaceProfile: bool, defaultVisible: Option<bool>, rules: seq<Rule>)

  function NoOverrides(): Overrides { Overrides(false, None, []) }

  // ---- validation ----------------------------------------------------------------------------------

  predicate ValidPath(path: string) {
    0 < |path| <= 1024 && path[0] == '/' && forall i :: 0 <= i < |path| - 1 ==> !(path[i] == '/' && path[i + 1] == '/')
  }

  /** A path has 1 to 1024 characters, starts with a slash, and no two slashes are neighbours. */
  lemma ValidPathMeaning(path: string)
    ensures ValidPath(path) <==>
      path != "" && |path| < 1025 && path[..1] == "/" &&
      forall i, j :: 0 <= i < j < |path| && path[i] == '/' && path[j] == '/' ==> j - i > 1
  {
  }

  predicate SameKey(r: Rule, s: Rule) { r.path == s.path && r.scope == s.scope }

  ghost predicate OneEach(rules: seq<Rule>) { forall i, j :: 0 <= i < j < |rules| ==> !SameKey(rules[i], rules[j]) }

  ghost predicate ValidRules(rules: seq<Rule>)
  {
    OneEach(rules) && forall i :: 0 <= i < |rules| ==> ValidPath(rules[i].path)
  }

  method ValidateRules(rules: seq<Rule>) returns (ok: bool)
    ensures ok <==> ValidRules(rules)
  {
    hide ValidPath;
    var seen: set<(string, Scope)> := {};
    for k := 0 to |rules|
      invariant seen == set i | 0 <= i < k :: (rules[i].path, rules[i].scope)
      invariant OneEach(rules[..k]) && forall i :: 0 <= i < k ==> ValidPath(rules[i].path)
    {
      var key := (rules[k].path, rules[k].scope);
      if !ValidPath(rules[k].path) { return false; }
      if key in seen {
        var i :| 0 <= i < k && (rules[i].path, rules[i].scope) == key;
        assert SameKey(rules[i], rules[k]);
        return false;
      }
      forall i | 0 <= i < k ensures !SameKey(rules[i], rules[k]) { assert (rules[i].path, rules[i].scope) in seen; }
      seen := seen + {key};
    }
    assert rules[..|rules|] == rules;
    ok := true;
  }

  lemma NoRulesValid()
    ensures ValidRules([])
  {
  }

  // ---- strings in order --------------------------------------------------------------------------

  predicate StringLe(a: string, b: string)
  {
    a == "" || (b != "" && (a[0] < b[0] || (a[0] == b[0] && StringLe(a[1..], b[1..]))))
  }

  lemma {:induction false} StringLeTotal(a: string, b: string)
    ensures StringLe(a, b) || StringLe(b, a)
    ensures StringLe(a, b) && StringLe(b, a) ==> a == b
  {
    if a != "" && b != "" {
      StringLeTotal(a[1..], b[1..]);
      assert a == [a[0]] + a[1..] && b == [b[0]] + b[1..];
    }
  }

  lemma {:induction false} StringLeTransitive(a: string, b: string, c: string)
    requires StringLe(a, b) && StringLe(b, c)
    ensures StringLe(a, c)
  {
    if a != "" && a[0] == b[0] && b[0] == c[0] { StringLeTransitive(a[1..], b[1..], c[1..]); }
  }

  /** Byte order: a is a beginning of b, or smaller at the first difference. */
  ghost predicate Precedes(a: string, b: string) { exists n :: DiffersAt(a, b, n) }

  /** Up to position n the texts agree; there a ends, or has the smaller character. */
  predicate DiffersAt(a: string, b: string, n: int) {
    0 <= n <= |a| && n <= |b| && a[..n] == b[..n] && (n == |a| || (n < |b| && a[n] < b[n]))
  }

  lemma {:induction false} StringLeMeaning(a: string, b: string)
    ensures StringLe(a, b) <==> Precedes(a, b)
  {
    if a == "" {
      assert DiffersAt(a, b, 0);
    } else if b != "" {
      StringLeMeaning(a[1..], b[1..]);
      if n :| DiffersAt(a[1..], b[1..], n) && a[0] == b[0] {
        assert a[..n + 1] == [a[0]] + a[1..][..n] && b[..n + 1] == [b[0]] + b[1..][..n];
        assert DiffersAt(a, b, n + 1);
      }
      if a[0] < b[0] { assert DiffersAt(a, b, 0); }
      if n :| DiffersAt(a, b, n) && n > 0 {
        assert a[..n][0] == a[0] && b[..n][0] == b[0];
        assert a[1..][..n - 1] == a[..n][1..] && b[1..][..n - 1] == b[..n][1..];
        assert DiffersAt(a[1..], b[1..], n - 1);
      }
    }
  }

  lemma StringLeOrders()
    ensures TotalOrder(StringLe)
  {
    hide StringLe;
    forall a, b ensures StringLe(a, b) || StringLe(b, a) { StringLeTotal(a, b); }
    forall a, b, c | StringLe(a, b) && StringLe(b, c) ensures StringLe(a, c) { StringLeTransitive(a, b, c); }
  }

  /** A set of strings has one sorted listing. */
  lemma {:induction false} ListedOnce(xs: seq<string>, ys: seq<string>)
    requires SortedBy(xs, StringLe) && SortedBy(ys, StringLe) && Distinct(xs) && Distinct(ys)
    requires forall x :: x in xs <==> x in ys
    ensures xs == ys
  {
    hide StringLe;
    assert (xs != [] ==> xs[0] in xs) && (ys != [] ==> ys[0] in ys);
    if xs != [] && ys != [] {
      assert xs[0] in ys && ys[0] in xs;
      var j :| 0 <= j < |ys| && ys[j] == xs[0];
      var i :| 0 <= i < |xs| && xs[i] == ys[0];
      if i > 0 && j > 0 { StringLeTotal(xs[0], ys[0]); }
      assert xs[0] == ys[0];
      RestListed(xs, ys);
      ListedOnce(xs[1..], ys[1..]);
      assert xs == [xs[0]] + xs[1..] && ys == [ys[0]] + ys[1..];
    }
  }

  lemma RestListed(xs: seq<string>, ys: seq<string>)
    requires xs != [] && ys != [] && xs[0] == ys[0] && Distinct(xs) && Distinct(ys) && forall x :: x in xs <==> x in ys
    ensures forall x :: x in xs[1..] <==> x in ys[1..]
  {
    DistinctLater(xs, 0);
    DistinctLater(ys, 0);
    assert forall x :: x in xs <==> x == xs[0] || x in xs[1..];
    assert forall x :: x in ys <==> x == ys[0] || x in ys[1..];
  }

  // ---- compiling -------------------------------------------------------------------------------------

  function BaseRules(profile: Profile, ov: Overrides): seq<Rule> { if ov.replaceProfile then [] else profile.rules }

  function DefaultOf(profile: Profile, ov: Overrides): bool {
    if ov.defaultVisible.Some? then ov.defaultVisible.value else if ov.replaceProfile then true
      else profile.defaultVisible
  }

  /** What a profile with temporary overrides says. */
  function PolicyOf(profile: Profile, ov: Overrides): Policy
  {
    Policy(DefaultOf(profile, ov), BaseRules(profile, ov) + ov.rules)
  }

  ghost predicate HiddenAbsent(cat: Catalog, pol: Policy, path: string) {
    Latest(pol.rules, path, Exact) == Some(false) && path !in cat.paths
  }

  function HiddenAmong(cat: Catalog, pol: Policy, paths: seq<string>): seq<string> {
    if paths == [] then []
    else HiddenAmong(cat, pol, paths[..|paths| - 1]) +
         if Seen(cat, pol, paths[|paths| - 1]) == Some(false) then [paths[|paths| - 1]] else []
  }

  ghost predicate ListsAbsent(cat: Catalog, pol: Policy, absent: seq<string>) {
    SortedBy(absent, StringLe) && Distinct(absent) && forall p :: p in absent <==> HiddenAbsent(cat, pol, p)
  }

  /** HiddenPaths: the exactly hidden types the project lacks, sorted, then the hidden types of
      the project in catalogue order. None is an error. */
  ghost predicate Compiles(cat: Catalog, pol: Policy, r: Option<seq<string>>) {
    && (r.None? <==> exists p :: p in cat.paths && Seen(cat, pol, p).None?)
    && (r.Some? ==>
        exists absent :: ListsAbsent(cat, pol, absent) && r.value == absent + HiddenAmong(cat, pol, cat.paths))
  }

  lemma {:induction false} HiddenAmongAgrees(cat: Catalog, p: Policy, q: Policy, paths: seq<string>)
    requires Agree(p, q)
    ensures HiddenAmong(cat, p, paths) == HiddenAmong(cat, q, paths)
  {
    hide Seen, Agree;
    if paths != [] {
      HiddenAmongAgrees(cat, p, q, paths[..|paths| - 1]);
      SeenAgrees(cat, p, q, paths[|paths| - 1]);
    }
  }

  /** Policies that agree hide the same types, in the same order, or fail alike. */
  lemma CompilesAgree(cat: Catalog, p: Policy, q: Policy, r: Option<seq<string>>, s: Option<seq<string>>)
    requires Agree(p, q) && Compiles(cat, p, r) && Compiles(cat, q, s)
    ensures r == s
  {
    hide Latest, Seen, StringLe, HiddenAmong;
    forall x ensures Seen(cat, p, x) == Seen(cat, q, x) { SeenAgrees(cat, p, q, x); }
    HiddenAmongAgrees(cat, p, q, cat.paths);
    if r.Some? {
      var a :| ListsAbsent(cat, p, a) && r.value == a + HiddenAmong(cat, p, cat.paths);
      var b :| ListsAbsent(cat, q, b) && s.value == b + HiddenAmong(cat, q, cat.paths);
      assert forall x :: HiddenAbsent(cat, p, x) <==> HiddenAbsent(cat, q, x);
      ListedOnce(a, b);
    }
  }

  function Get(m: map<string, bool>, path: string): Option<bool> { if path in m then Some(m[path]) else None }

  /** The rule index: later rules overwrite earlier ones. */
  method IndexRules(rules: seq<Rule>) returns (exact: map<string, bool>, subtree: map<string, bool>)
    ensures forall p :: Get(exact, p) == Latest(rules, p, Exact) && Get(subtree, p) == Latest(rules, p, Subtree)
  {
    exact, subtree := map[], map[];
    for k := 0 to |rules|
      invariant forall p ::
        Get(exact, p) == Latest(rules[..k], p, Exact) && Get(subtree, p) == Latest(rules[..k], p, Subtree)
    {
      assert rules[..k + 1][..k] == rules[..k];
      if rules[k].scope == Exact {
        exact := exact[rules[k].path := rules[k].visible];
      } else {
        subtree := subtree[rules[k].path := rules[k].visible];
      }
    }
    assert rules[..|rules|] == rules;
  }

  /** The ancestry loop for one type. */
  method Resolve(cat: Catalog, subtree: map<string, bool>, pol: Policy, path: string) returns (visible: Option<bool>)
    requires forall p :: Get(subtree, p) == Latest(pol.rules, p, Subtree)
    ensures visible == Nearest(cat, pol, path, 0)
  {
    hide Latest;
    var current, depth := path, 0;
    while current != ""
      invariant Nearest(cat, pol, path, 0) == Nearest(cat, pol, current, depth) && depth <= |cat.parents| + 1
      decreases |cat.parents| + 1 - depth
    {
      if depth > |cat.parents| { return None; }
      if current in subtree {
        assert Get(subtree, current) == Some(subtree[current]);
        return Some(subtree[current]);
      }
      assert Get(subtree, current) == None;
      current, depth := Parent(cat, current), depth + 1;
    }
    visible := Some(pol.defaultVisible);
  }

  method HiddenProject(cat: Catalog, pol: Policy, exact: map<string, bool>, subtree: map<string, bool>)
    returns (ok: bool, hidden: seq<string>)
    requires forall p ::
      Get(exact, p) == Latest(pol.rules, p, Exact) && Get(subtree, p) == Latest(pol.rules, p, Subtree)
    ensures !ok <==> exists p :: p in cat.paths && Seen(cat, pol, p).None?
    ensures ok ==> hidden == HiddenAmong(cat, pol, cat.paths)
  {
    hide Latest, Nearest;
    hidden := [];
    for k := 0 to |cat.paths|
      invariant hidden == HiddenAmong(cat, pol, cat.paths[..k])
      invariant forall i :: 0 <= i < k ==> Seen(cat, pol, cat.paths[i]).Some?
    {
      var path := cat.paths[k];
      assert cat.paths[..k + 1][..k] == cat.paths[..k];
      assert Get(exact, path) == Latest(pol.rules, path, Exact);
      var visible;
      if path in exact { visible := Some(exact[path]); } else { visible := Resolve(cat, subtree, pol, path); }
      assert visible == Seen(cat, pol, path);
      if visible.None? { return false, hidden; }
      if !visible.value { hidden := hidden + [path]; }
    }
    assert cat.paths[..|cat.paths|] == cat.paths;
    ok := true;
  }

  method ListAbsent(cat: Catalog, pol: Policy, exact: map<string, bool>) returns (absent: seq<string>)
    requires forall p :: Get(exact, p) == Latest(pol.rules, p, Exact)
    ensures ListsAbsent(cat, pol, absent)
  {
    hide Latest, StringLe;
    var rest, list := exact.Keys, [];
    while rest != {}
      invariant rest <= exact.Keys && Distinct(list)
      invariant forall p :: p in list <==> p in exact && p !in rest && !exact[p] && p !in cat.paths
      decreases rest
    {
      var p := AnyOf(rest);
      rest := rest - {p};
      if !exact[p] && p !in cat.paths {
        DistinctSnoc(list, p);
        list := list + [p];
      }
    }
    StringLeOrders();
    absent := Sort(list, StringLe);
    DistinctCounts(list);
    CountsDistinct(absent);
    assert forall p :: p in absent <==> p in multiset(absent);
    assert forall p :: p in list <==> p in multiset(list);
    forall p ensures p in absent <==> HiddenAbsent(cat, pol, p) { assert Get(exact, p) == Latest(pol.rules, p, Exact); }
  }

  /** Catalog.Compile. */
  method Compile(cat: Catalog, profile: Profile, ov: Overrides) returns (r: Option<seq<string>>)
    ensures !(profile.named && ValidRules(profile.rules) && ValidRules(ov.rules)) ==> r == None
    ensures profile.named && ValidRules(profile.rules) && ValidRules(ov.rules) ==>
      Compiles(cat, PolicyOf(profile, ov), r)
  {
    hide ValidRules, Latest, Seen, HiddenAmong, ListsAbsent;
    var valid := ValidateRules(profile.rules);
    var valid' := ValidateRules(ov.rules);
    if !profile.named || !valid || !valid' { return None; }
    var pol := PolicyOf(profile, ov);
    var exact, subtree := IndexRules(pol.rules);
    var absent := ListAbsent(cat, pol, exact);
    var ok, hidden := HiddenProject(cat, pol, exact, subtree);
    if !ok { return None; }
    r := Some(absent + hidden);
  }

  // ---- saving overrides ------------------------------------------------------------------------------

  predicate RuleLe(a: Rule, b: Rule) {
    StringLe(a.path, b.path) && (a.path == b.path ==> a.scope == Exact || b.scope == Subtree)
  }

  /** By path in byte order, of one path the exact rule first. */
  ghost predicate InOrder(rules: seq<Rule>) {
    forall i, j :: 0 <= i < j < |rules| ==>
      Precedes(rules[i].path, rules[j].path) &&
        (rules[i].path == rules[j].path ==> rules[i].scope == Exact || rules[j].scope == Subtree)
  }

  lemma SortedInOrder(rules: seq<Rule>)
    requires SortedBy(rules, RuleLe)
    ensures InOrder(rules)
  {
    hide StringLe, Precedes;
    forall i, j | 0 <= i < j < |rules| ensures Precedes(rules[i].path, rules[j].path) {
      assert RuleLe(rules[i], rules[j]);
      StringLeMeaning(rules[i].path, rules[j].path);
    }
  }

  lemma RuleLeOrders()
    ensures TotalOrder(RuleLe)
  {
    hide StringLe;
    StringLeOrders();
    forall a, b ensures RuleLe(a, b) || RuleLe(b, a) { StringLeTotal(a.path, b.path); }
    forall a, b, c | RuleLe(a, b) && RuleLe(b, c) ensures RuleLe(a, c) { StringLeTotal(a.path, b.path); }
  }

  /** The rules by path and scope, later ones winning. */
  method Keyed(rules: seq<Rule>) returns (m: map<(string, Scope), Rule>)
    ensures forall p, s :: ((p, s) in m <==> Latest(rules, p, s).Some?)
    ensures forall p, s :: (p, s) in m ==> m[(p, s)] == Rule(p, s, Latest(rules, p, s).value)
  {
    m := map[];
    for k := 0 to |rules|
      invariant forall p, s :: ((p, s) in m <==> Latest(rules[..k], p, s).Some?)
      invariant forall p, s :: (p, s) in m ==> m[(p, s)] == Rule(p, s, Latest(rules[..k], p, s).value)
    {
      assert rules[..k + 1][..k] == rules[..k];
      m := m[(rules[k].path, rules[k].scope) := rules[k]];
    }
    assert rules[..|rules|] == rules;
  }

  /** A list of rules with one rule per key says what its rules say. */
  lemma {:induction false} LatestOfOne(rules: seq<Rule>, r: Rule)
    requires OneEach(rules) && r in rules
    ensures Latest(rules, r.path, r.scope) == Some(r.visible)
  {
    if rules[|rules| - 1] != r {
      var i :| 0 <= i < |rules| && rules[i] == r;
      var init := rules[..|rules| - 1];
      assert init[i] == r;
      LatestOfOne(init, r);
      assert !SameKey(rules[i], rules[|rules| - 1]);
    }
  }

  /** The rules listed in any order. */
  method Values(m: map<(string, Scope), Rule>) returns (out: seq<Rule>)
    requires forall p, s :: (p, s) in m ==> m[(p, s)].path == p && m[(p, s)].scope == s
    ensures OneEach(out) && forall r :: r in out <==> (r.path, r.scope) in m && m[(r.path, r.scope)] == r
  {
    var rest := m.Keys;
    out := [];
    while rest != {}
      invariant rest <= m.Keys && OneEach(out)
      invariant forall r ::
        r in out <==> (r.path, r.scope) in m && (r.path, r.scope) !in rest && m[(r.path, r.scope)] == r
      decreases rest
    {
      var key := AnyOf(rest);
      var r := m[(key.0, key.1)];
      forall i | 0 <= i < |out| ensures !SameKey(out[i], r) { assert out[i] in out; }
      rest, out := rest - {key}, out + [r];
    }
  }

  lemma PermutedRules(xs: seq<Rule>, ys: seq<Rule>)
    requires OneEach(xs) && multiset(xs) == multiset(ys)
    ensures OneEach(ys) && forall r :: r in ys <==> r in xs
  {
    assert forall r :: r in ys <==> r in multiset(ys);
    assert forall r :: r in xs <==> r in multiset(xs);
    forall i, j | 0 <= i < j < |xs| ensures xs[i] != xs[j] { assert !SameKey(xs[i], xs[j]); }
    DistinctCounts(xs);
    CountsDistinct(ys);
    forall i, j | 0 <= i < j < |ys| ensures !SameKey(ys[i], ys[j]) {
      assert ys[i] in xs && ys[j] in xs && ys[i] != ys[j];
      var a :| 0 <= a < |xs| && xs[a] == ys[i];
      var b :| 0 <= b < |xs| && xs[b] == ys[j];
      assert a < b || b < a;
    }
  }

  /** Rules listed from the key table say what the original rules say. */
  lemma ListedAgrees(rules: seq<Rule>, m: map<(string, Scope), Rule>, out: seq<Rule>)
    requires forall p, s :: (p, s) in m <==> Latest(rules, p, s).Some?
    requires forall p, s :: (p, s) in m ==> m[(p, s)] == Rule(p, s, Latest(rules, p, s).value)
    requires OneEach(out) && forall r :: r in out <==> (r.path, r.scope) in m && m[(r.path, r.scope)] == r
    ensures forall p, s :: Latest(out, p, s) == Latest(rules, p, s)
  {
    hide Latest, OneEach;
    forall p, s ensures Latest(out, p, s) == Latest(rules, p, s) {
      LatestIn(out, p, s);
      if (p, s) in m {
        assert m[(p, s)] in out;
        LatestOfOne(out, m[(p, s)]);
      }
    }
  }

  /** MergeOverrides: the profile to save. */
  method MergeOverrides(profile: Profile, ov: Overrides) returns (r: Option<Profile>)
    ensures r.Some? <==> profile.named && forall rule :: rule in PolicyOf(profile, ov).rules ==> ValidPath(rule.path)
    ensures r.Some? ==> r.value.named && ValidRules(r.value.rules) && InOrder(r.value.rules)
    ensures r.Some? ==> Agree(PolicyOf(r.value, NoOverrides()), PolicyOf(profile, ov))
  {
    hide Latest, ValidPath, OneEach, RuleLe, Agree, InOrder;
    var rules := BaseRules(profile, ov) + ov.rules;
    var m := Keyed(rules);
    var list := Values(m);
    RuleLeOrders();
    var sorted := Sort(list, RuleLe);
    SortedInOrder(sorted);
    PermutedRules(list, sorted);
    ListedAgrees(rules, m, sorted);
    var merged := Profile(profile.named, DefaultOf(profile, ov), sorted);
    MergedAgrees(profile, ov, merged);
    ValidTogether(rules, sorted);
    var ok := ValidateRules(sorted);
    if !profile.named || !ok { return None; }
    r := Some(merged);
  }

  lemma MergedAgrees(profile: Profile, ov: Overrides, merged: Profile)
    requires merged.defaultVisible == DefaultOf(profile, ov)
    requires forall p, s :: Latest(merged.rules, p, s) == Latest(BaseRules(profile, ov) + ov.rules, p, s)
    ensures Agree(PolicyOf(merged, NoOverrides()), PolicyOf(profile, ov))
  {
    hide Latest;
    assert merged.rules + [] == merged.rules;
  }

  lemma ValidTogether(rules: seq<Rule>, sorted: seq<Rule>)
    requires OneEach(sorted) && forall p, s :: Latest(sorted, p, s) == Latest(rules, p, s)
    ensures ValidRules(sorted) <==> forall r :: r in rules ==> ValidPath(r.path)
  {
    hide Latest, ValidPath, OneEach;
    forall r | r in rules ensures exists q :: q in sorted && q.path == r.path {
      LatestIn(rules, r.path, r.scope);
      LatestIn(sorted, r.path, r.scope);
      assert Rule(r.path, r.scope, Latest(sorted, r.path, r.scope).value) in sorted;
    }
    forall q | q in sorted ensures exists r :: r in rules && r.path == q.path {
      LatestIn(sorted, q.path, q.scope);
      LatestIn(rules, q.path, q.scope);
      assert Rule(q.path, q.scope, Latest(rules, q.path, q.scope).value) in rules;
    }
  }

  /** Saving the overrides changes nothing, for every catalogue: the saved profile compiles to what
      the profile with its overrides says, also when merging had to repair repeated rules, which
      compiling rejects; without any it compiles to the same hidden paths or the same error. */
  method SaveKeepsMeaning(cat: Catalog, profile: Profile, ov: Overrides)
    returns (before: Option<seq<string>>, after: Option<seq<string>>)
    requires profile.named && forall rule :: rule in PolicyOf(profile, ov).rules ==> ValidPath(rule.path)
    ensures Compiles(cat, PolicyOf(profile, ov), after)
    ensures ValidRules(profile.rules) && ValidRules(ov.rules) ==> after == before
  {
    hide Agree, Compiles, ValidPath, OneEach;
    before := Compile(cat, profile, ov);
    var merged := MergeOverrides(profile, ov);
    if merged.None? { assert false; }
    NoRulesValid();
    after := Compile(cat, merged.value, NoOverrides());
    CompilesLike(cat, PolicyOf(merged.value, NoOverrides()), PolicyOf(profile, ov), after);
    if ValidRules(profile.rules) && ValidRules(ov.rules) {
      CompilesAgree(cat, PolicyOf(merged.value, NoOverrides()), PolicyOf(profile, ov), after, before);
    }
  }

  lemma CompilesLike(cat: Catalog, p: Policy, q: Policy, r: Option<seq<string>>)
    requires Agree(p, q) && Compiles(cat, p, r)
    ensures Compiles(cat, q, r)
  {
    hide Latest, Seen, StringLe, HiddenAmong, ListsAbsent;
    forall x ensures Seen(cat, p, x) == Seen(cat, q, x) { SeenAgrees(cat, p, q, x); }
    HiddenAmongAgrees(cat, p, q, cat.paths);
    if r.Some? {
      var a :| ListsAbsent(cat, p, a) && r.value == a + HiddenAmong(cat, p, cat.paths);
      AbsentAgrees(cat, p, q, a);
    }
  }

  lemma AbsentAgrees(cat: Catalog, p: Policy, q: Policy, absent: seq<string>)
    requires Agree(p, q) && ListsAbsent(cat, p, absent)
    ensures ListsAbsent(cat, q, absent)
  {
    hide Latest, StringLe;
    assert forall x :: HiddenAbsent(cat, p, x) <==> HiddenAbsent(cat, q, x);
  }
}
