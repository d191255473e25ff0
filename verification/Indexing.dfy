/** Row-major positions of grid cells. */
module Indexing {

  /** Position of a cell in a row-major slice with `w` columns. */
  function CellIndex(w: nat, x: int, y: int): int { y * w + x }

  lemma CellIndexBounds(w: nat, h: nat, x: int, y: int)
    requires 0 <= x < w && 0 <= y < h
    ensures 0 <= CellIndex(w, x, y) < w * h
    ensures CellIndex(w, x, y) % w == x && CellIndex(w, x, y) / w == y
  {
    assert 0 <= y * w;
    assert (y + 1) * w <= h * w;
    DivModUnique(w, y, x);
  }

  lemma NonzeroMultiple(d: int, w: nat)
    ensures d != 0 ==> d * w >= w || d * w <= -(w as int)
  {
    if d >= 1 { assert d * w >= w; } else if d <= -1 { assert (-d) * w >= w; }
  }

  lemma DivModUnique(w: nat, q: int, r: int)
    requires 0 <= r < w
    ensures (q * w + r) / w == q && (q * w + r) % w == r
  {
    var n := q * w + r;
    var d := n / w - q;
    assert n == (n / w) * w + n % w;
    assert d * w == r - n % w;
    NonzeroMultiple(d, w);
  }
}
