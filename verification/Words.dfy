/** Machine words as natural numbers: powers of two, find-last-set, wrap-around. */
module Words {

  function Pow2(n: nat): (r: nat)
    ensures r > 0
  {
    if n == 0 then 1 else 2 * Pow2(n - 1)
  }

  const WORD64: nat := 0x1_0000_0000_0000_0000
  const WORD32: nat := 0x1_0000_0000

  lemma Pow2Consts()
    ensures Pow2(7) == 0x80 && Pow2(8) == 0x100
    ensures Pow2(16) == 0x1_0000
    ensures Pow2(23) == 0x80_0000 && Pow2(24) == 0x100_0000
    ensures Pow2(31) == 0x8000_0000 && Pow2(32) == WORD32
    ensures Pow2(63) == 0x8000_0000_0000_0000 && Pow2(64) == WORD64
  {
    assert Pow2(7) == 0x80;
    assert Pow2(15) == 0x8000;
    assert Pow2(23) == 0x80_0000;
    assert Pow2(31) == 0x8000_0000;
    assert Pow2(39) == 0x80_0000_0000;
    assert Pow2(47) == 0x8000_0000_0000;
    assert Pow2(55) == 0x80_0000_0000_0000;
    assert Pow2(63) == 0x8000_0000_0000_0000;
  }

  lemma {:induction false} Pow2Monotone(a: nat, b: nat)
    requires a <= b
    ensures Pow2(a) <= Pow2(b)
    decreases b - a
  {
    if a < b {
      Pow2Monotone(a, b - 1);
    }
  }

  lemma {:induction false} Pow2Add(a: nat, b: nat)
    ensures Pow2(a) * Pow2(b) == Pow2(a + b)
  {
    if a != 0 {
      Pow2Add(a - 1, b);
    }
  }

  /** Index of the most significant set bit. */
  function Fls(x: nat): (r: nat)
    requires x > 0
    ensures Pow2(r) <= x < Pow2(r + 1)
  {
    if x == 1 then 0 else 1 + Fls(x / 2)
  }

  /** 64-bit unsigned subtraction: wraps around below zero. */
  function Sub64(a: nat, b: nat): (r: nat)
    requires a < WORD64 && b < WORD64
    ensures r < WORD64
    ensures r + b == a || r + b == a + WORD64
  {
    if a >= b then a - b else a + WORD64 - b
  }

  // ---- Products, quotients and remainders ----

  lemma MulLess(a: int, b: int, m: nat)
    requires a < b
    ensures a * m + m <= b * m
  {
    assert (b - a - 1) * m >= 0;
  }

  /** Quotient and remainder are unique. */
  lemma DivModUnique(x: nat, m: nat, q: nat, r: nat)
    requires m > 0 && r < m && x == q * m + r
    ensures x / m == q && x % m == r
  {
    var d := x / m;
    assert x == d * m + x % m;
    if d < q {
      MulLess(d, q, m);
    } else if q < d {
      MulLess(q, d, m);
    }
  }

  lemma ModMultiple(k: nat, q: nat)
    requires q > 0
    ensures (k * q) % q == 0
  {
    DivModUnique(k * q, q, k, 0);
  }

  lemma MulAssoc(a: int, b: int, c: int)
    ensures (a * b) * c == a * (b * c)
  {
  }

  lemma MulDist(a: int, b: int, c: int)
    ensures (a + b) * c == a * c + b * c
  {
  }
}
