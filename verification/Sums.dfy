/** Weighted sums over event lists; sorting does not change them. */
module Sums {

  function SumOf<T>(es: seq<T>, w: T -> int): int {
    if es == [] then 0 else SumOf(es[..|es| - 1], w) + w(es[|es| - 1])
  }

  lemma {:induction false} SumConcat<T>(a: seq<T>, b: seq<T>, w: T -> int)
    ensures SumOf(a + b, w) == SumOf(a, w) + SumOf(b, w)
  {
    if b == [] {
      assert a + b == a;
    } else {
      assert (a + b)[..|a + b| - 1] == a + b[..|b| - 1];
      SumConcat(a, b[..|b| - 1], w);
    }
  }

  lemma {:induction false} SumPermuted<T>(a: seq<T>, b: seq<T>, w: T -> int)
    requires multiset(a) == multiset(b)
    ensures SumOf(a, w) == SumOf(b, w)
    decreases |a|
  {
    if a == [] {
      assert |multiset(b)| == 0;
      assert b == [];
    } else {
      var e, init := a[|a| - 1], a[..|a| - 1];
      assert a == init + [e];
      assert e in multiset(b);
      var k :| 0 <= k < |b| && b[k] == e;
      var p, q := b[..k], b[k + 1..];
      assert b == p + [e] + q;
      assert multiset(p + q) == multiset(b) - multiset{e};
      assert multiset(init) == multiset(a) - multiset{e};
      SumPermuted(init, p + q, w);
      SumConcat(p, q, w);
      SumConcat(p + [e], q, w);
      SumConcat(p, [e], w);
      SumConcat(init, [e], w);
    }
  }

  /** Two weights that agree on every element give the same sum. */
  lemma {:induction false} SumAgrees<T>(es: seq<T>, w: T -> int, w': T -> int)
    requires forall k :: 0 <= k < |es| ==> w(es[k]) == w'(es[k])
    ensures SumOf(es, w) == SumOf(es, w')
  {
    if es != [] { SumAgrees(es[..|es| - 1], w, w'); }
  }

  lemma {:induction false} SumZero<T>(es: seq<T>, w: T -> int)
    requires forall k :: 0 <= k < |es| ==> w(es[k]) == 0
    ensures SumOf(es, w) == 0
  {
    if es != [] { SumZero(es[..|es| - 1], w); }
  }

  /** A weight cut off after position i counts exactly the earlier elements. */
  lemma SumCut<T>(es: seq<T>, i: nat, cut: T -> int, w: T -> int)
    requires i <= |es|
    requires (forall k :: 0 <= k < i ==> cut(es[k]) == w(es[k])) && (forall k :: i <= k < |es| ==> cut(es[k]) == 0)
    ensures SumOf(es, cut) == SumOf(es[..i], w)
  {
    assert es == es[..i] + es[i..];
    SumConcat(es[..i], es[i..], cut);
    SumAgrees(es[..i], cut, w);
    SumZero(es[i..], cut);
  }
}
