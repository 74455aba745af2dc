/**
 * Machine bytes and words, and the facts about multiplication and division the file systems rest on.
 */
module Arith {
  type u8 = x: nat | x < 256
  type u32 = x: nat | x < 0x1_0000_0000

  lemma DivUnique(n: nat, d: nat, q: nat, r: nat)
    requires d > 0 && n == d * q + r && r < d
    ensures n / d == q && n % d == r
  {
    var q', r' := n / d, n % d;
    assert d * q' + r' == d * q + r;
    if q' < q {
      MulMono(d, q' + 1, q);
    } else if q < q' {
      MulMono(d, q + 1, q');
    }
  }

  lemma MulMono(d: nat, a: nat, b: nat)
    requires a <= b
    ensures d * a <= d * b
  {
  }

  lemma QuotientBound(n: nat, d: nat, p: nat)
    requires d > 0
    ensures n / d < p <==> n < d * p
  {
    var q := n / d;
    if q < p { MulMono(d, q + 1, p); } else { MulMono(d, p, q); }
  }
}
