/** Facts about multiplication and division by a positive divisor, used for row-major
    indexing and for counting chunks. */
module Arith {

  lemma MulMonotone(a: nat, b: nat, w: nat)
    requires a <= b
    ensures a * w <= b * w
  {
    assert b * w == a * w + (b - a) * w;
  }

  /** Row i < m of width w ends no later than row m begins. */
  lemma RowEnd(i: nat, m: nat, w: nat)
    requires i < m
    ensures i * w + w <= m * w
  {
    MulMonotone(i + 1, m, w);
    assert (i + 1) * w == i * w + w;
  }

  lemma MulMonotoneWhen(a: nat, b: nat, w: nat)
    ensures a <= b ==> a * w <= b * w
  {
    if a <= b { MulMonotone(a, b, w); }
  }

  /** The quotient is the q with q * d <= a < (q + 1) * d. */
  lemma DivIs(a: nat, d: nat, q: nat)
    requires d > 0 && q * d <= a < q * d + d
    ensures a / d == q
  {
    var x := a / d;
    assert a == x * d + a % d;
    MulMonotoneWhen(q + 1, x, d);
    MulMonotoneWhen(x + 1, q, d);
    assert (q + 1) * d == q * d + d;
    assert (x + 1) * d == x * d + d;
  }

  lemma DivAddDivisor(a: nat, d: nat)
    requires d > 0
    ensures (a + d) / d == a / d + 1
  {
    var q := a / d;
    assert q * d <= a < q * d + d by {
      assert a == q * d + a % d;
    }
    assert (q + 1) * d == q * d + d;
    DivIs(a + d, d, q + 1);
  }
}
