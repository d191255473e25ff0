/** 64-bit words used as bitsets, and the bit tricks of the area query
    (internal/aphelion/editing/area_query.go:58-64, 85-101). */
module Bitset {

  /** Bit i of a word. */
  predicate Bit(w: nat, i: nat) { if i == 0 then w % 2 == 1 else Bit(w / 2, i - 1) }

  function BitOr(a: nat, b: nat): nat {
    if a == 0 && b == 0 then 0
    else 2 * BitOr(a / 2, b / 2) + if a % 2 == 1 || b % 2 == 1 then 1 else 0
  }

  function BitAnd(a: nat, b: nat): nat {
    if a == 0 || b == 0 then 0
    else 2 * BitAnd(a / 2, b / 2) + if a % 2 == 1 && b % 2 == 1 then 1 else 0
  }

  /** 1 << i */
  function OneBit(i: nat): nat { if i == 0 then 1 else 2 * OneBit(i - 1) }

  function TrailingZeros(w: nat): nat
    requires w > 0
  {
    if w % 2 == 1 then 0 else 1 + TrailingZeros(w / 2)
  }

  lemma {:induction false} ZeroHasNoBits(i: nat)
    ensures !Bit(0, i)
  {
    if i > 0 { ZeroHasNoBits(i - 1); }
  }

  lemma {:induction false} OrBits(a: nat, b: nat, i: nat)
    ensures Bit(BitOr(a, b), i) <==> Bit(a, i) || Bit(b, i)
  {
    if a == 0 && b == 0 {
      ZeroHasNoBits(i);
    } else if i > 0 {
      OrBits(a / 2, b / 2, i - 1);
      assert BitOr(a, b) / 2 == BitOr(a / 2, b / 2);
    }
  }

  lemma {:induction false} AndBits(a: nat, b: nat, i: nat)
    ensures Bit(BitAnd(a, b), i) <==> Bit(a, i) && Bit(b, i)
  {
    if a == 0 || b == 0 {
      ZeroHasNoBits(i);
    } else if i > 0 {
      AndBits(a / 2, b / 2, i - 1);
      assert BitAnd(a, b) / 2 == BitAnd(a / 2, b / 2);
    }
  }

  lemma {:induction false} OneBitBits(i: nat, j: nat)
    ensures Bit(OneBit(i), j) <==> i == j
  {
    if i > 0 && j > 0 {
      OneBitBits(i - 1, j - 1);
      assert OneBit(i) / 2 == OneBit(i - 1);
    } else if j > 0 {
      ZeroHasNoBits(j - 1);
    }
  }

  /** A word is zero exactly when it has no bits. */
  lemma {:induction false} NonZeroHasABit(w: nat)
    requires w > 0
    ensures Bit(w, TrailingZeros(w)) && forall j: nat :: j < TrailingZeros(w) ==> !Bit(w, j)
  {
    if w % 2 == 0 {
      NonZeroHasABit(w / 2);
      forall j: nat | j < TrailingZeros(w) ensures !Bit(w, j) {
        if j > 0 { assert !Bit(w / 2, j - 1); }
      }
    }
  }

  /** Testing one bit: (w & 1 << i) != 0. */
  lemma TestBit(w: nat, i: nat)
    ensures BitAnd(w, OneBit(i)) != 0 <==> Bit(w, i)
  {
    var t := BitAnd(w, OneBit(i));
    AndBits(w, OneBit(i), i);
    OneBitBits(i, i);
    if t != 0 {
      var k := TrailingZeros(t);
      NonZeroHasABit(t);
      AndBits(w, OneBit(i), k);
      OneBitBits(i, k);
    } else {
      ZeroHasNoBits(i);
    }
  }

  lemma {:induction false} AndSelf(w: nat)
    ensures BitAnd(w, w) == w
  {
    if w > 0 { AndSelf(w / 2); }
  }

  /** w & (w - 1) clears the lowest set bit. */
  lemma {:induction false} ClearLowest(w: nat, j: nat)
    requires w > 0
    ensures Bit(BitAnd(w, w - 1), j) <==> Bit(w, j) && j != TrailingZeros(w)
  {
    if w % 2 == 1 {
      AndSelf(w / 2);
      assert (w - 1) / 2 == w / 2;
      if w == 1 { ZeroHasNoBits(j); if j > 0 { ZeroHasNoBits(j - 1); } }
      else {
        assert BitAnd(w, w - 1) == w - 1;
        if j > 0 { assert Bit(w - 1, j) == Bit((w - 1) / 2, j - 1); }
      }
    } else {
      assert (w - 1) / 2 == w / 2 - 1;
      var rest := BitAnd(w / 2, w / 2 - 1);
      assert BitAnd(w, w - 1) == 2 * rest;
      if j > 0 {
        ClearLowest(w / 2, j - 1);
        assert Bit(2 * rest, j) == Bit(rest, j - 1);
      }
    }
  }

  // ---- sets of words ------------------------------------------------------------------

  /** Member i of a bitset. */
  predicate HasBit(words: seq<nat>, i: int) {
    0 <= i && i / 64 < |words| && Bit(words[i / 64], i % 64)
  }

  /** Every word fits in 64 bits. */
  ghost predicate Fits(words: seq<nat>) {
    forall k, i: nat :: 0 <= k < |words| && Bit(words[k], i) ==> i < 64
  }

  /** Sets member i and reports whether it was set before. */
  method Mark(words: seq<nat>, i: nat) returns (out: seq<nat>, previous: bool)
    requires i / 64 < |words| && Fits(words)
    ensures |out| == |words| && Fits(out) && previous == HasBit(words, i)
    ensures forall k :: HasBit(out, k) <==> HasBit(words, k) || k == i
  {
    var bit, w := OneBit(i % 64), words[i / 64];
    TestBit(w, i % 64);
    previous := BitAnd(w, bit) != 0;
    out := words[i / 64 := BitOr(w, bit)];
    forall j: nat ensures Bit(BitOr(w, bit), j) <==> Bit(w, j) || j == i % 64 {
      OrBits(w, bit, j);
      OneBitBits(i % 64, j);
    }
  }

  /** Removes the lowest member of word k. */
  method TakeLowest(words: seq<nat>, k: nat) returns (out: seq<nat>, i: nat)
    requires k < |words| && words[k] != 0 && Fits(words)
    ensures |out| == |words| && Fits(out) && i / 64 == k && HasBit(words, i)
    ensures forall j :: HasBit(out, j) <==> HasBit(words, j) && j != i
    ensures forall j :: HasBit(words, j) && j / 64 == k ==> i <= j
  {
    var w := words[k];
    var bit := TrailingZeros(w);
    NonZeroHasABit(w);
    out := words[k := BitAnd(w, w - 1)];
    i := k * 64 + bit;
    forall j: nat ensures Bit(BitAnd(w, w - 1), j) <==> Bit(w, j) && j != bit {
      ClearLowest(w, j);
    }
    assert forall j: nat :: Bit(out[k], j) ==> Bit(words[k], j);
    forall j | HasBit(words, j) && j / 64 == k ensures i <= j {
      assert !(j % 64 < bit);
    }
  }

  lemma EmptyWord(words: seq<nat>, k: nat, i: int)
    requires k < |words| && words[k] == 0 && i / 64 == k
    ensures !HasBit(words, i)
  {
    ZeroHasNoBits(i % 64);
  }
}
