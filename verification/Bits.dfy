/** Shifts and exclusive-or on unbounded naturals, defined one bit at a time. */
module Bits {

  /** n << k */
  function Shl(n: nat, k: nat): (r: nat)
    ensures r >= n
  {
    if k == 0 then n else 2 * Shl(n, k - 1)
  }

  /** n >> k */
  function Shr(n: nat, k: nat): nat {
    if k == 0 then n else Shr(n, k - 1) / 2
  }

  /** a ^ b, from the least significant bit up. */
  function Xor(a: nat, b: nat): nat
    decreases a + b
  {
    if a == 0 && b == 0 then 0
    else (if a % 2 == b % 2 then 0 else 1) + 2 * Xor(a / 2, b / 2)
  }

  lemma {:induction false} ShlAdd(n: nat, a: nat, b: nat)
    ensures Shl(Shl(n, a), b) == Shl(n, a + b)
  {
    if b > 0 {
      ShlAdd(n, a, b - 1);
    }
  }

  lemma {:induction false} ShrAdd(n: nat, a: nat, b: nat)
    ensures Shr(Shr(n, a), b) == Shr(n, a + b)
  {
    if b > 0 {
      ShrAdd(n, a, b - 1);
    }
  }

  lemma {:induction false} ShlSum(m: nat, n: nat, k: nat)
    ensures Shl(m, k) + Shl(n, k) == Shl(m + n, k)
  {
    if k > 0 {
      ShlSum(m, n, k - 1);
    }
  }

  lemma {:induction false} ShlDouble(n: nat, k: nat)
    ensures Shl(2 * n, k) == Shl(n, k + 1)
  {
    if k > 0 {
      ShlDouble(n, k - 1);
    }
  }

  lemma {:induction false} ShlMono(m: nat, n: nat, k: nat)
    requires m <= n
    ensures Shl(m, k) <= Shl(n, k)
  {
    if k > 0 {
      ShlMono(m, n, k - 1);
    }
  }

  /** Shr(n, k) is the r whose interval [r << k, (r + 1) << k) holds n. */
  lemma {:induction false} ShrBounds(n: nat, k: nat)
    ensures Shl(Shr(n, k), k) <= n < Shl(Shr(n, k) + 1, k)
  {
    if k > 0 {
      var s, h := Shr(n, k - 1), Shr(n, k);
      ShrBounds(n, k - 1);
      ShlMono(2 * h, s, k - 1);
      ShlMono(s + 1, 2 * (h + 1), k - 1);
      ShlDouble(h, k - 1);
      ShlDouble(h + 1, k - 1);
    }
  }

  lemma ShrUnique(n: nat, k: nat, r: nat)
    requires Shl(r, k) <= n < Shl(r + 1, k)
    ensures Shr(n, k) == r
  {
    ShrBounds(n, k);
    var s := Shr(n, k);
    if s < r {
      ShlMono(s + 1, r, k);
    } else if r < s {
      ShlMono(r + 1, s, k);
    }
  }

  lemma {:induction false} ShrMono(a: nat, b: nat, k: nat)
    requires a <= b
    ensures Shr(a, k) <= Shr(b, k)
  {
    if k > 0 {
      ShrMono(a, b, k - 1);
    }
  }

  function Flip(n: nat): nat {
    if n % 2 == 0 then n + 1 else n - 1
  }

  /** Exclusive-or with bit k moves a multiple of 2^k to its neighbour in the pair it belongs to. */
  lemma {:induction false} XorShifted(n: nat, k: nat)
    ensures Xor(Shl(n, k), Shl(1, k)) == Shl(Flip(n), k)
  {
    if k == 0 {
      XorZero(n / 2);
    } else {
      XorShifted(n, k - 1);
    }
  }

  lemma {:induction false} XorZero(a: nat)
    ensures Xor(a, 0) == a
  {
    if a > 0 {
      XorZero(a / 2);
    }
  }

  lemma ShlThree(n: nat)
    ensures Shl(n, 2) == 4 * n && Shl(n, 3) == 8 * n
  {
    assert Shl(n, 1) == 2 * n;
  }

  /** Three more places are a factor of eight, two more a factor of four. */
  lemma ShlMore(n: nat, k: nat)
    ensures Shl(n, k + 3) == 8 * Shl(n, k) && Shl(n, k + 2) == 4 * Shl(n, k)
  {
    hide Shl;
    ShlAdd(n, k, 3);
    ShlAdd(n, k, 2);
    ShlThree(Shl(n, k));
  }

  lemma ShlSmall(n: nat)
    ensures Shl(n, 9) == 512 * n && Shl(n, 11) == 2048 * n
    ensures Shl(n, 12) == 4096 * n && Shl(n, 23) == 0x80_0000 * n
  {
    hide Shl;
    ShlThree(n);
    ShlMore(n, 3);
    ShlMore(n, 6);
    ShlMore(n, 9);
    ShlMore(n, 12);
    ShlMore(n, 15);
    ShlMore(n, 18);
    ShlMore(n, 21);
  }
}
