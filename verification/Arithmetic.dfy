// Machine integers, minima, and division by an arbitrary positive divisor in the form the bounds need it.
module Arithmetic {

  type U32 = n: nat | n < 0x1_0000_0000

  function Min(x: nat, y: nat): nat {
    if x < y then x else y
  }

  lemma MulMonotone(a: nat, x: int, y: int)
    ensures x <= y ==> a * x <= a * y
  {
  }

  lemma MulOneMore(a: int, n: int)
    ensures a * (1 + n) == a + a * n
  {
  }

  lemma DivMonotone(a: int, b: int, w: int)
    requires w > 0 && a <= b
    ensures a / w <= b / w
  {
    MulMonotone(w, b / w + 1, a / w);
    assert w * (b / w + 1) == w * (b / w) + w;
  }

  lemma DivUnique(x: int, w: int, q: int, r: int)
    requires w > 0 && x == w * q + r && 0 <= r < w
    ensures x / w == q
  {
    var d := x / w - q;
    assert w * d == r - x % w by {
      assert w * d == w * (x / w) - w * q;
    }
    MulMonotone(w, 1, d);
    MulMonotone(w, d, -1);
  }

  lemma DivAddDivisor(x: int, w: int)
    requires w > 0
    ensures (x + w) / w == x / w + 1
  {
    assert w * (x / w + 1) == w * (x / w) + w;
    DivUnique(x + w, w, x / w + 1, x % w);
  }

  // One divisor more than the whole ones is past a number.
  lemma DivCovers(x: int, w: int)
    requires w > 0 && x >= 0
    ensures x / w >= 0 && x < w * (x / w + 1)
  {
    DivMonotone(0, x, w);
    MulOneMore(w, x / w);
    assert x == w * (x / w) + x % w;
  }

  // Moving the origin forward by at least one divisor loses at least one whole divisor.
  lemma DivMovesBack(t: int, s: int, now: int, w: int)
    requires w > 0 && s + w <= now <= t
    ensures 0 <= (t - now) / w && (t - now) / w + 1 <= (t - s) / w
  {
    DivMonotone(t - now, t - s - w, w);
    DivAddDivisor(t - s - w, w);
    DivMonotone(0, t - now, w);
  }
}
