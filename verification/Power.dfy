/**
 * 64-bit integer arithmetic of the FFI (lj_carith.c): powers modulo 2^64, and
 * signed division that truncates.
 */
module Power {
  import opened Words

  const MIN64: int := -0x8000_0000_0000_0000
  const MAX64: int := 0x7fff_ffff_ffff_ffff

  /** Plain powers. */
  function Pow(x: int, k: nat): int {
    if k == 0 then 1 else x * Pow(x, k - 1)
  }

  lemma {:induction false} PowAdd(x: int, a: nat, b: nat)
    ensures Pow(x, a + b) == Pow(x, a) * Pow(x, b)
  {
    if a > 0 {
      PowAdd(x, a - 1, b);
      MulAssoc3(x, Pow(x, a - 1), Pow(x, b));
    }
  }

  lemma MulAssoc3(a: int, b: int, c: int)
    ensures (a * b) * c == a * (b * c)
  {
  }

  /** Squaring the base halves the exponent. */
  lemma {:induction false} PowSquare(x: int, k: nat)
    ensures Pow(x * x, k) == Pow(x, 2 * k)
  {
    if k > 0 {
      PowSquare(x, k - 1);
      PowAdd(x, 2, 2 * (k - 1));
      assert Pow(x, 2) == x * Pow(x, 1) && Pow(x, 1) == x * Pow(x, 0);
    }
  }

  // ---- Congruence modulo 2^64 ----

  ghost predicate Same(a: int, b: int) {
    a % WORD64 == b % WORD64
  }

  lemma SameMul(a: int, b: int, c: int, d: int)
    requires Same(a, b) && Same(c, d)
    ensures Same(a * c, b * d)
  {
    var m := WORD64;
    var i, j := a / m - b / m, c / m - d / m;
    assert a == b + i * m && c == d + j * m;
    assert a * c == b * d + (b * j + i * d + i * j * m) * m by { Expand(b, i, d, j, m); }
    ModPlus(b * d, b * j + i * d + i * j * m);
  }

  lemma Expand(b: int, i: int, d: int, j: int, m: int)
    ensures (b + i * m) * (d + j * m) == b * d + (b * j + i * d + i * j * m) * m
  {
  }

  lemma ModPlus(a: int, k: int)
    ensures (a + k * WORD64) % WORD64 == a % WORD64
  {
  }

  lemma {:induction false} SamePow(a: int, b: int, k: nat)
    requires Same(a, b)
    ensures Same(Pow(a, k), Pow(b, k))
  {
    if k > 0 {
      SamePow(a, b, k - 1);
      SameMul(a, b, Pow(a, k - 1), Pow(b, k - 1));
    }
  }

  function Mul64(a: nat, b: nat): (r: nat)
    ensures r < WORD64
  {
    a * b % WORD64
  }

  /** The base squared, for half of the exponent. */
  lemma Squared(x: nat, k: nat)
    ensures Same(Pow(Mul64(x, x), k), Pow(x, 2 * k))
  {
    SamePow(Mul64(x, x), x * x, k);
    PowSquare(x, k);
  }

  /** lj_carith_powu64 */
  method PowU64(x0: nat, k0: nat) returns (y: nat)
    requires x0 < WORD64 && k0 < WORD64
    ensures y == Pow(x0, k0) % WORD64
  {
    if k0 == 0 {
      return 1;
    }
    var x: nat, k: nat := x0, k0;
    while k % 2 == 0
      invariant 0 < k && x < WORD64 && Same(Pow(x, k), Pow(x0, k0))
      decreases k
    {
      Squared(x, k / 2);
      x := Mul64(x, x);
      k := k / 2;
    }
    y := x;
    ghost var goal := Pow(x0, k0);
    Odd(x, k);
    k := k / 2;
    if k != 0 {
      while true
        invariant 0 < k && x < WORD64 && y < WORD64 && Same(y * Pow(Mul64(x, x), k), goal)
        decreases k
      {
        x := Mul64(x, x);
        if k == 1 {
          break;
        }
        ghost var y0 := y;
        Halve(x, k, y);
        if k % 2 == 1 {
          y := Mul64(y, x);
        }
        k := k / 2;
      }
      assert Pow(x, 1) == x * Pow(x, 0);
      y := Mul64(y, x);
    }
  }

  /** The lowest bit of an odd exponent is taken by the result. */
  lemma Odd(x: nat, k: nat)
    requires k % 2 == 1
    ensures Same(x * Pow(Mul64(x, x), k / 2), Pow(x, k)) && (k / 2 == 0 ==> Pow(x, k) == x)
  {
    Squared(x, k / 2);
    assert k == 2 * (k / 2) + 1;
    SameMul(x, x, Pow(Mul64(x, x), k / 2), Pow(x, 2 * (k / 2)));
    if k == 1 { assert Pow(x, 1) == x * Pow(x, 0); }
  }

  /** One more bit of the exponent. */
  lemma Halve(x: nat, k: nat, y: nat)
    requires k > 0
    ensures Same((if k % 2 == 1 then Mul64(y, x) else y) * Pow(Mul64(x, x), k / 2), y * Pow(x, k))
  {
    var h := k / 2;
    var p := Pow(Mul64(x, x), h);
    Squared(x, h);
    if k % 2 == 1 {
      Odd(x, k);
      SameMul(Mul64(y, x), y * x, p, p);
      MulAssoc3(y, x, p);
      SameMul(y, y, x * p, Pow(x, k));
    } else {
      assert k == 2 * h;
      SameMul(y, y, p, Pow(x, k));
    }
  }

  // ---- Signed numbers ----

  function ToSigned(u: nat): (r: int)
    requires u < WORD64
    ensures MIN64 <= r <= MAX64 && r % WORD64 == u
  {
    if u > MAX64 then u - WORD64 else u
  }

  predicate IsInt64(x: int) { MIN64 <= x <= MAX64 }

  /** Division that truncates towards zero, as in C. */
  function Quot(a: int, b: int): int
    requires b != 0
  {
    if a >= 0 then a / b else -((-a) / b)
  }

  function Rem(a: int, b: int): int
    requires b != 0
  {
    a - b * Quot(a, b)
  }

  /** The remainder is smaller than the divisor and has the sign of the dividend. */
  lemma QuotRem(a: int, b: int)
    requires b != 0
    ensures Abs(Rem(a, b)) < Abs(b) && (a >= 0 ==> Rem(a, b) >= 0) && (a <= 0 ==> Rem(a, b) <= 0)
  {
    if a >= 0 {
      assert a == b * (a / b) + a % b;
    } else {
      assert -a == b * (-a / b) + -a % b;
      MulNeg(b, -a / b);
    }
  }

  lemma MulNeg(b: int, q: int)
    ensures b * -q == -(b * q)
  {
  }

  function Abs(x: int): nat { if x < 0 then -x else x }

  /** lj_carith_divi64 */
  function DivI64(a: int, b: int): (r: int)
    requires IsInt64(a) && IsInt64(b)
  {
    if b == 0 || (a == MIN64 && b == -1) then MIN64 else Quot(a, b)
  }

  /** lj_carith_modi64 */
  function ModI64(a: int, b: int): (r: int)
    requires IsInt64(a) && IsInt64(b)
  {
    if b == 0 then MIN64 else if a == MIN64 && b == -1 then 0 else Rem(a, b)
  }

  /** Quotient and remainder belong together, modulo 2^64 even for the one quotient that overflows. */
  lemma DivMod(a: int, b: int)
    requires IsInt64(a) && IsInt64(b) && b != 0
    ensures IsInt64(DivI64(a, b)) && IsInt64(ModI64(a, b)) && Same(DivI64(a, b) * b + ModI64(a, b), a)
    ensures Abs(ModI64(a, b)) < Abs(b) && (a >= 0 ==> ModI64(a, b) >= 0) && (a <= 0 ==> ModI64(a, b) <= 0)
  {
    QuotRem(a, b);
    if !(a == MIN64 && b == -1) {
      QuotBound(a, b);
      Together(a, b, Quot(a, b));
    }
  }

  lemma Together(a: int, b: int, q: int)
    ensures q * b + (a - b * q) == a
  {
  }

  lemma QuotBound(a: int, b: int)
    requires IsInt64(a) && IsInt64(b) && b != 0 && !(a == MIN64 && b == -1)
    ensures IsInt64(Quot(a, b))
  {
    var n, q := Abs(a), Abs(a) / b;
    assert n == b * q + n % b;
    if b > 1 { SmallQuot(n, b); } else if b < -1 { SmallQuot(n, -b); NegQuot(n, -b); }
    if b == 1 { assert q == n; }
    if b == -1 { NegQuot(n, 1); }
  }

  lemma SmallQuot(n: nat, b: int)
    requires b > 1
    ensures 0 <= n / b <= n / 2
  {
    var q := n / b;
    DivParts(n, b);
    MulAtLeast(b, q);
  }

  lemma DivParts(n: nat, b: int)
    requires b > 0
    ensures n == b * (n / b) + n % b && 0 <= n % b < b && n / b >= 0
  {
  }

  lemma MulAtLeast(b: int, q: nat)
    requires b >= 2
    ensures b * q >= 2 * q
  {
    assert (b - 2) * q >= 0;
  }

  lemma NegQuot(n: nat, b: int)
    requires b > 0
    ensures n / -b == -(n / b)
  {
  }

  /** lj_carith_powi64 */
  method PowI64(x: int, k: int) returns (r: int)
    requires IsInt64(x) && IsInt64(k)
    ensures IsInt64(r)
    ensures k >= 0 ==> Same(r, Pow(x, k))
    ensures k < 0 && x != 0 ==> Pow(x, -k) != 0 && r == Quot(1, Pow(x, -k))
    ensures k < 0 && x == 0 ==> r == MAX64
  {
    if k == 0 {
      return 1;
    }
    if k < 0 {
      if x == 0 {
        return MAX64;
      }
      Reciprocal(x, -k);
      if x == 1 {
        return 1;
      } else if x == -1 {
        return if k % 2 == 1 then -1 else 1;
      } else {
        return 0;
      }
    }
    var u := PowU64(x % WORD64, k);
    SamePow(x % WORD64, x, k);
    r := ToSigned(u);
  }

  /** Powers of numbers beyond one are beyond one, those of one and minus one are not. */
  lemma {:induction false} Reciprocal(x: int, n: nat)
    requires x != 0 && n > 0
    ensures x == 1 ==> Pow(x, n) == 1
    ensures x == -1 ==> Pow(x, n) == if n % 2 == 1 then -1 else 1
    ensures Abs(x) > 1 ==> Abs(Pow(x, n)) > 1 && Quot(1, Pow(x, n)) == 0
  {
    if n == 1 {
      assert Pow(x, 1) == x * Pow(x, 0);
    } else {
      Reciprocal(x, n - 1);
      var p := Pow(x, n - 1);
      if x > 1 { AbsMul(x, p); } else if x < -1 { AbsMul(-x, p); MulNeg2(x, p); }
    }
    if Abs(x) > 1 { OneOver(Pow(x, n)); }
  }

  lemma AbsMul(x: int, p: int)
    requires x > 1 && Abs(p) > 1
    ensures Abs(x * p) > 1
  {
    if p > 1 { assert x * p >= 2 * p; } else { assert x * -p >= 2 * -p; MulNeg(x, p); }
  }

  lemma MulNeg2(x: int, p: int)
    ensures Abs(-x * p) == Abs(x * p)
  {
    assert -x * p == -(x * p);
  }

  lemma OneOver(p: int)
    requires Abs(p) > 1
    ensures Quot(1, p) == 0
  {
  }
}
