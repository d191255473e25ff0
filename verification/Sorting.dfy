/** The library routines the editor calls: sort.Slice / slices.SortFunc and sort.Search. */
module Sorting {

  ghost predicate TotalOrder<T(!new)>(le: (T, T) -> bool) {
    && (forall a, b :: le(a, b) || le(b, a))
    && (forall a, b, c :: le(a, b) && le(b, c) ==> le(a, c))
  }

  ghost predicate SortedBy<T>(xs: seq<T>, le: (T, T) -> bool) {
    forall i, j :: 0 <= i < j < |xs| ==> le(xs[i], xs[j])
  }

  /** Sorts a slice. Which of two equivalent elements comes first is not specified. */
  method Sort<T(!new)>(xs: seq<T>, le: (T, T) -> bool) returns (out: seq<T>)
    requires TotalOrder(le)
    ensures multiset(out) == multiset(xs) && SortedBy(out, le) && |out| == |xs|
  {
    out := [];
    for n := 0 to |xs|
      invariant multiset(out) == multiset(xs[..n]) && SortedBy(out, le) && |out| == n
    {
      out := Insert(out, xs[n], le);
      assert xs[..n + 1] == xs[..n] + [xs[n]];
    }
    assert xs[..|xs|] == xs;
  }

  /** Putting an element between the smaller and the larger ones keeps a slice sorted. */
  lemma InsertedSorted<T(!new)>(a: seq<T>, x: T, b: seq<T>, le: (T, T) -> bool)
    requires SortedBy(a + b, le)
    requires (forall i :: 0 <= i < |a| ==> le(a[i], x)) && (forall i :: 0 <= i < |b| ==> le(x, b[i]))
    ensures SortedBy(a + [x] + b, le)
  {
    var out := a + [x] + b;
    forall i, j | 0 <= i < j < |out| ensures le(out[i], out[j]) {
      var i', j' := if i <= |a| then i else i - 1, if j <= |a| then j else j - 1;
      if i != |a| && j != |a| { assert le((a + b)[i'], (a + b)[j']); }
    }
  }

  method Insert<T(!new)>(xs: seq<T>, x: T, le: (T, T) -> bool) returns (out: seq<T>)
    requires TotalOrder(le) && SortedBy(xs, le)
    ensures multiset(out) == multiset(xs) + multiset{x} && SortedBy(out, le) && |out| == |xs| + 1
  {
    var k := 0;
    while k < |xs| && le(xs[k], x)
      invariant 0 <= k <= |xs|
      invariant forall i :: 0 <= i < k ==> le(xs[i], x)
    {
      k := k + 1;
    }
    forall i | k <= i < |xs| ensures le(x, xs[i]) {
      assert le(x, xs[k]);
      if k < i { assert le(xs[k], xs[i]); }
    }
    assert xs == xs[..k] + xs[k..];
    InsertedSorted(xs[..k], x, xs[k..], le);
    out := xs[..k] + [x] + xs[k..];
  }

  /** sort.Search: the smallest index at which a monotone predicate holds. */
  method Search(n: nat, f: int -> bool) returns (k: nat)
    requires forall i, j :: 0 <= i <= j < n && f(i) ==> f(j)
    ensures k <= n
    ensures forall i :: 0 <= i < k ==> !f(i)
    ensures forall i :: k <= i < n ==> f(i)
  {
    var i, j := 0, n;
    while i < j
      invariant 0 <= i <= j <= n
      invariant forall a :: 0 <= a < i ==> !f(a)
      invariant forall a :: j <= a < n ==> f(a)
    {
      var h := (i + j) / 2;
      if !f(h) { i := h + 1; } else { j := h; }
    }
    k := i;
  }

  ghost predicate Distinct<T>(xs: seq<T>) { forall i, j :: 0 <= i < j < |xs| ==> xs[i] != xs[j] }

  lemma EmptyDistinct<T>()
    ensures Distinct<T>([])
  {
  }

  lemma DistinctSnoc<T>(xs: seq<T>, x: T)
    requires Distinct(xs) && x !in xs
    ensures Distinct(xs + [x])
  {
  }

  lemma DistinctEarlier<T>(xs: seq<T>, k: nat)
    requires Distinct(xs) && k < |xs|
    ensures xs[k] !in xs[..k]
  {
  }

  lemma DistinctLater<T>(xs: seq<T>, k: nat)
    requires Distinct(xs) && k < |xs|
    ensures xs[k] !in xs[k + 1..]
  {
  }

  ghost predicate Increasing(xs: seq<int>) { forall i, j :: 0 <= i < j < |xs| ==> xs[i] < xs[j] }

  lemma {:induction false} DistinctCounts<T>(xs: seq<T>)
    requires Distinct(xs)
    ensures forall v :: multiset(xs)[v] <= 1
  {
    if xs != [] {
      var init, last := xs[..|xs| - 1], xs[|xs| - 1];
      DistinctCounts(init);
      assert xs == init + [last];
      assert last !in init;
    }
  }

  lemma CountsDistinct<T>(xs: seq<T>)
    requires forall v :: v in xs ==> multiset(xs)[v] <= 1
    ensures Distinct(xs)
  {
    forall i, j | 0 <= i < j < |xs| ensures xs[i] != xs[j] {
      assert xs == xs[..i] + [xs[i]] + xs[i + 1..];
      assert multiset(xs) == multiset(xs[..i]) + multiset{xs[i]} + multiset(xs[i + 1..]);
      assert multiset(xs)[xs[i]] >= 1 + multiset(xs[i + 1..])[xs[i]];
      assert xs[j] == xs[i + 1..][j - i - 1];
      assert multiset(xs[i + 1..])[xs[j]] >= 1;
    }
  }

  predicate IntLe(a: int, b: int) { a <= b }

  /** Any element: the order in which a map is ranged over is not specified. */
  method AnyOf<T(==)>(s: set<T>) returns (x: T)
    requires s != {}
    ensures x in s
  {
    x :| x in s;
  }

  /** The keys of a map, ascending. */
  method SortedKeys(keys: set<int>) returns (xs: seq<int>)
    ensures Increasing(xs) && forall x :: x in xs <==> x in keys
  {
    var rest, list := keys, [];
    while rest != {}
      invariant rest <= keys && Distinct(list)
      invariant forall x :: x in list <==> x in keys && x !in rest
      decreases |rest|
    {
      var x := AnyOf(rest);
      list, rest := list + [x], rest - {x};
    }
    xs := Sort(list, IntLe);
    DistinctCounts(list);
    CountsDistinct(xs);
    assert forall x :: x in xs <==> x in multiset(xs);
    assert forall x :: x in list <==> x in multiset(list);
    forall i, j | 0 <= i < j < |xs| ensures xs[i] < xs[j] { assert IntLe(xs[i], xs[j]); }
  }
}
