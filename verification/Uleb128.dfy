/**
 * The ULEB128 numbers of bytecode dumps (lj_bcwrite.c, lj_bcread.c), as plain
 * functions: the encoding, its length, and the 33-bit form whose fifth byte the
 * writer patches by hand.
 */
module Uleb128 {
  import opened Words

  const U32: nat := 0x1_0000_0000
  const SIGN: nat := 0x8000_0000

  function Uleb(v: nat): (r: seq<int>)
    ensures |r| > 0 && forall i :: 0 <= i < |r| ==> 0 <= r[i] < 256
    ensures forall i :: 0 <= i < |r| - 1 ==> r[i] >= 0x80
    ensures r[|r| - 1] < 0x80
  {
    if v < 0x80 then [v] else [v % 0x80 + 0x80] + Uleb(v / 0x80)
  }

  /** At most five bytes for 32 bits, and for 33. */
  lemma UlebLength(v: nat)
    requires v < 2 * U32
    ensures |Uleb(v)| <= 5
    ensures v >= 0x1000_0000 ==> |Uleb(v)| == 5
  {
    var a, b, c := v / 0x80, v / 0x4000, v / 0x20_0000;
    assert a / 0x80 == b && b / 0x80 == c;
    assert |Uleb(c / 0x80)| == 1;
    assert c >= 0x80 ==> |Uleb(c)| == 2;
    assert b >= 0x80 ==> |Uleb(b)| == 1 + |Uleb(c)|;
    assert a >= 0x80 ==> |Uleb(a)| == 1 + |Uleb(b)|;
  }

  /** The value of a number read byte by byte, from bit sh on. */
  function Unuleb(s: seq<int>): nat
    requires forall i :: 0 <= i < |s| ==> s[i] >= 0
  {
    if s == [] then 0 else s[0] % 0x80 + 0x80 * Unuleb(s[1..])
  }

  lemma {:induction false} UlebRoundTrip(v: nat)
    ensures Unuleb(Uleb(v)) == v
  {
    if v >= 0x80 {
      UlebRoundTrip(v / 0x80);
      assert Uleb(v)[1..] == Uleb(v / 0x80);
    }
  }

  // ---- The length of a number from its highest bit ----

  lemma FlsShift(v: nat)
    requires v >= 0x80
    ensures Fls(v) == 7 + Fls(v / 0x80)
  {
    var a, b, c := v / 2, v / 4, v / 8;
    var d, e, f := v / 16, v / 32, v / 64;
    assert a / 2 == b && b / 2 == c && c / 2 == d && d / 2 == e && e / 2 == f && f / 2 == v / 0x80;
    assert Fls(v) == 1 + Fls(a) && Fls(a) == 1 + Fls(b) && Fls(b) == 1 + Fls(c);
    assert Fls(c) == 1 + Fls(d) && Fls(d) == 1 + Fls(e) && Fls(e) == 1 + Fls(f);
  }

  lemma {:induction false} UlebFls(v: nat)
    requires v > 0
    ensures |Uleb(v)| == Fls(v) / 7 + 1
  {
    if v >= 0x80 {
      UlebFls(v / 0x80);
      FlsShift(v);
    } else {
      Pow2Consts();
      if Fls(v) >= 7 { Pow2Monotone(7, Fls(v)); }
    }
  }

  /** The closed form that the writer uses for the length of a size prefix. */
  lemma PrefixLength(n: nat)
    requires 0 < n < U32
    ensures |Uleb(n)| == (Fls(n) + 8) * 9 / 64
  {
    UlebFls(n);
    Pow2Consts();
    if Fls(n) >= 32 { Pow2Monotone(32, Fls(n)); }
  }

  // ---- 33-bit numbers ----

  /** 2*u | (u & 0x80000000), plus the tag in the lowest bit, in 32-bit arithmetic. */
  function Low33(u: nat, tag: nat): nat {
    var d := 2 * u % U32;
    (if u >= SIGN && d < SIGN then d + SIGN else d) + tag
  }

  /** The last byte, with bits 30 and 31 of u patched in. */
  function PatchLast(last: int, u: nat): int {
    last % 8 + u / 0x4000_0000 % 4 * 8
  }

  /** v without its lowest n digits, up to four. */
  function Digits(v: nat, n: nat): nat {
    if n == 0 then v else if n == 1 then v / 0x80 else if n == 2 then v / 0x80 / 0x80
    else if n == 3 then v / 0x80 / 0x80 / 0x80 else v / 0x80 / 0x80 / 0x80 / 0x80
  }

  lemma Digit4(v: nat)
    requires 0x1000_0000 <= v < 0x8_0000_0000
    ensures Digits(v, 4) == v / 0x1000_0000 && 0 < Digits(v, 4) < 0x80
    ensures Digits(v, 1) >= 0x80 && Digits(v, 2) >= 0x80 && Digits(v, 3) >= 0x80
  {
    assert v / 0x80 / 0x80 == v / 0x4000 && v / 0x80 / 0x80 / 0x80 == v / 0x20_0000;
  }

  lemma UlebStep(v: nat)
    ensures v >= 0x80 ==> Uleb(v) == [v % 0x80 + 0x80] + Uleb(v / 0x80)
    ensures v < 0x80 ==> Uleb(v) == [v]
  {
  }

  lemma Uleb5(v: nat)
    requires 0x1000_0000 <= v < 0x8_0000_0000
    ensures Uleb(v) == [v % 0x80 + 0x80, Digits(v, 1) % 0x80 + 0x80, Digits(v, 2) % 0x80 + 0x80,
              Digits(v, 3) % 0x80 + 0x80, Digits(v, 4)]
    ensures Digits(v, 4) == v / 0x1000_0000
  {
    Digit4(v);
    UlebStep(Digits(v, 4));
    UlebStep(Digits(v, 3));
    UlebStep(Digits(v, 2));
    UlebStep(Digits(v, 1));
    UlebStep(v);
  }

  lemma Digit(w: nat, v: nat, k: nat)
    requires v == w + 0x80 * k
    ensures v % 0x80 == w % 0x80 && v / 0x80 == w / 0x80 + k
  {
  }

  /** Bits 31 and up only show in the fifth byte. */
  lemma LowDigits(w: nat, v: nat, k: nat)
    requires v == w + k * 0x8000_0000
    ensures v % 0x80 == w % 0x80 && forall i :: 1 <= i <= 3 ==> Digits(v, i) % 0x80 == Digits(w, i) % 0x80
    ensures Digits(v, 4) == Digits(w, 4) + 8 * k
  {
    Digit(w, v, k * 0x100_0000);
    Digit(w / 0x80, v / 0x80, k * 0x2_0000);
    Digit(w / 0x80 / 0x80, v / 0x80 / 0x80, k * 0x400);
    Digit(w / 0x80 / 0x80 / 0x80, v / 0x80 / 0x80 / 0x80, k * 8);
  }

  /** The 32-bit arithmetic loses bit 32, and bit 31 once it was set. */
  lemma Low33Value(u: nat, tag: nat) returns (k: nat)
    requires u < U32 && tag < 2
    ensures u < SIGN ==> Low33(u, tag) == 2 * u + tag
    ensures u >= SIGN ==> 2 * u + tag == Low33(u, tag) + k * 0x8000_0000 && 1 <= k <= 2
    ensures u >= SIGN ==> 0x8000_0000 <= Low33(u, tag) < 0x1_0000_0000 && 2 * u + tag < 0x2_0000_0000
  {
    k := if 2 * u % U32 < SIGN then 1 else 2;
    assert 2 * u % U32 == if u < SIGN then 2 * u else 2 * u - U32;
  }

  /** The patched fifth byte makes it the encoding of the 33-bit number 2*u+tag. */
  lemma Patched33(u: nat, tag: nat)
    requires u < U32 && tag < 2
    ensures u < SIGN ==> Low33(u, tag) == 2 * u + tag
    ensures u >= SIGN ==>
              var s := Uleb(Low33(u, tag));
              |s| == 5 && s[4 := PatchLast(s[4], u)] == Uleb(2 * u + tag)
  {
    var k := Low33Value(u, tag);
    if u >= SIGN { PatchedDigits(u, tag, Low33(u, tag), 2 * u + tag, k); }
  }

  lemma PatchedDigits(u: nat, tag: nat, w: nat, v: nat, k: nat)
    requires tag < 2 && v == 2 * u + tag == w + k * 0x8000_0000 && 1 <= k <= 2 && 0x8000_0000 <= w < 0x1_0000_0000
               && v < 0x2_0000_0000
    ensures |Uleb(w)| == 5 && Uleb(w)[4 := PatchLast(Uleb(w)[4], u)] == Uleb(v)
  {
    Uleb5(w);
    Uleb5(v);
    LowDigits(w, v, k);
    LastDigit(u, tag, w / 0x1000_0000, v);
  }

  /** Bits 28 to 30 are those of the number before the patch, the two above are bits 30 and 31 of u. */
  lemma LastDigit(u: nat, tag: nat, d: nat, v: nat)
    requires tag < 2 && v == 2 * u + tag && v < 0x2_0000_0000 && (v / 0x1000_0000 == d + 8 || v / 0x1000_0000 == d + 16)
    ensures PatchLast(d, u) == v / 0x1000_0000
  {
    var e := v / 0x1000_0000;
    assert u / 0x4000_0000 == v / 0x8000_0000 == e / 8 && e < 32;
    assert d % 8 == e % 8;
  }

  /** What the 33-bit reader makes of the encoding: the first byte gives the tag and six bits. */
  function Unuleb33(s: seq<int>): nat
    requires s != [] && forall i :: 0 <= i < |s| ==> s[i] >= 0
  {
    s[0] % 0x80 / 2 + 0x40 * Unuleb(s[1..])
  }

  lemma HalfDigits(u: nat, tag: nat)
    requires tag < 2
    ensures var v := 2 * u + tag; v % 0x80 / 2 + 0x40 * (v / 0x80) == u && v % 0x80 % 2 == tag && (v % 0x80 + 0x80) % 2 == tag
  {
    assert (2 * u + tag) / 0x80 == u / 0x40 && (2 * u + tag) % 0x80 == 2 * (u % 0x40) + tag;
  }

  lemma RoundTrip33(u: nat, tag: nat)
    requires tag < 2
    ensures Unuleb33(Uleb(2 * u + tag)) == u && Uleb(2 * u + tag)[0] % 2 == tag
  {
    var v := 2 * u + tag;
    var s := Uleb(v);
    if v >= 0x80 {
      assert s[0] == v % 0x80 + 0x80 && s[1..] == Uleb(v / 0x80);
      UlebRoundTrip(v / 0x80);
    } else {
      assert s == [v] && s[1..] == [] && v / 0x80 == 0;
    }
    assert s[0] % 0x80 == v % 0x80 && Unuleb(s[1..]) == v / 0x80;
    HalfDigits(u, tag);
  }
}
