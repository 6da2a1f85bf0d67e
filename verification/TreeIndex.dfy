/**
 * Bin indexing for the large free chunks of lj_alloc.c: 32 tree bins, two for
 * every power of two, and the bit of a size that steers the first trie level.
 */
module TreeIndex {
  import opened Words
  import opened BinMap

  const NTREEBINS: nat := 32
  /** Chunks live in the low 4 GB; every chunk size is below this bound. */
  const SIZE_LIMIT: nat := WORD32

  function ComputeTreeIndex(s: nat): (i: nat)
    ensures i < NTREEBINS
  {
    var x := (s / 256) % WORD32;
    if x == 0 then 0
    else if x > 0xFFFF then NTREEBINS - 1
    else
      var k := Fls(x);
      FlsBelow16(x);
      2 * k + (s / Pow2(k + 7)) % 2
  }

  lemma FlsBelow16(x: nat)
    requires 0 < x <= 0xFFFF
    ensures Fls(x) <= 15
  {
    Pow2Consts();
    if Fls(x) >= 16 {
      Pow2Monotone(16, Fls(x));
    }
  }

  function MinSizeForTreeIndex(i: nat): (s: nat)
    ensures s > 0
  {
    Pow2(i / 2 + 8) + if i % 2 == 1 then Pow2(i / 2 + 7) else 0
  }

  /** Where the trie of bin i starts and the exponent of its width. */
  function TrieLo(i: nat): nat {
    if i == NTREEBINS - 1 then 0 else MinSizeForTreeIndex(i)
  }

  function TrieExp(i: nat): (e: nat)
    requires i < NTREEBINS
    ensures 0 < e <= 64
  {
    if i == NTREEBINS - 1 then 64 else i / 2 + 7
  }

  function LeftShiftForTreeIndex(i: nat): nat
    requires i < NTREEBINS
  {
    if i == NTREEBINS - 1 then 0 else 63 - (i / 2 + 8 - 2)
  }

  lemma {:induction false} MinSizeMonotone(i: nat, j: nat)
    requires i <= j
    ensures MinSizeForTreeIndex(i) <= MinSizeForTreeIndex(j)
    decreases j - i
  {
    if i < j {
      MinSizeMonotone(i, j - 1);
      if j % 2 == 0 {
        assert (j - 1) / 2 == j / 2 - 1;
      }
    }
  }

  /**
   * The index macro and the minimum-size macro agree: a large size lands in
   * bin i exactly when it lies between the minimum sizes of bins i and i + 1
   * (the last bin has no upper end).
   */
  lemma TreeIndexInterval(s: nat, i: nat)
    requires MIN_LARGE_SIZE <= s < SIZE_LIMIT && i < NTREEBINS
    ensures ComputeTreeIndex(s) == i <==>
            MinSizeForTreeIndex(i) <= s && (i < NTREEBINS - 1 ==> s < MinSizeForTreeIndex(i + 1))
  {
    var c := ComputeTreeIndex(s);
    TreeIndexBounds(s);
    if i < c {
      MinSizeMonotone(i + 1, c);
    } else if c < i {
      MinSizeMonotone(c + 1, i);
    }
  }

  lemma TreeIndexBounds(s: nat)
    requires MIN_LARGE_SIZE <= s < SIZE_LIMIT
    ensures var c := ComputeTreeIndex(s);
            MinSizeForTreeIndex(c) <= s && (c < NTREEBINS - 1 ==> s < MinSizeForTreeIndex(c + 1))
  {
    var x := s / 256;
    assert 0 < x < WORD32 && x % WORD32 == x;
    if x > 0xFFFF {
      LastMinSize();
    } else {
      FlsBelow16(x);
      IndexInOctave(s, Fls(x));
    }
  }

  lemma LastMinSize()
    ensures MinSizeForTreeIndex(NTREEBINS - 1) == 0xC0_0000
  {
    Pow2Consts();
    MinSizes(15, Pow2(22));
  }

  lemma IndexInOctave(s: nat, k: nat)
    requires s >= 256 && Pow2(k) <= s / 256 < Pow2(k + 1)
    ensures var c := 2 * k + (s / Pow2(k + 7)) % 2;
            MinSizeForTreeIndex(c) <= s < MinSizeForTreeIndex(c + 1)
  {
    var q := Pow2(k + 7);
    OctaveBounds(s, k);
    assert Pow2(k + 8) == 2 * q && Pow2(k + 9) == 4 * q;
    MinSizes(k, q);
    HalfOctave(s, q);
  }

  lemma HalfOctave(s: nat, q: nat)
    requires q > 0 && 2 * q <= s < 4 * q
    ensures (s / q) % 2 == if s < 3 * q then 0 else 1
  {
    if s < 3 * q {
      DivModUnique(s, q, 2, s - 2 * q);
    } else {
      DivModUnique(s, q, 3, s - 3 * q);
    }
  }

  lemma OctaveBounds(s: nat, k: nat)
    requires s >= 256 && Pow2(k) <= s / 256 < Pow2(k + 1)
    ensures 2 * Pow2(k + 7) <= s < 4 * Pow2(k + 7)
  {
    Pow2Add(8, k);
    Pow2Consts();
    assert Pow2(k + 8) == 2 * Pow2(k + 7) && Pow2(k + 1) == 2 * Pow2(k);
  }

  lemma MinSizes(k: nat, q: nat)
    requires q == Pow2(k + 7)
    ensures MinSizeForTreeIndex(2 * k) == 2 * q
    ensures MinSizeForTreeIndex(2 * k + 1) == 3 * q
    ensures MinSizeForTreeIndex(2 * k + 2) == 4 * q
  {
    assert (2 * k) / 2 == k && (2 * k + 1) / 2 == k && (2 * k + 2) / 2 == k + 1;
    assert Pow2(k + 8) == 2 * q && Pow2(k + 9) == 4 * q;
  }

  /** Larger sizes never go to lower bins. */
  lemma TreeIndexMonotone(s: nat, s': nat)
    requires MIN_LARGE_SIZE <= s <= s' < SIZE_LIMIT
    ensures ComputeTreeIndex(s) <= ComputeTreeIndex(s')
  {
    TreeIndexBounds(s);
    TreeIndexBounds(s');
    if ComputeTreeIndex(s') < ComputeTreeIndex(s) {
      MinSizeMonotone(ComputeTreeIndex(s') + 1, ComputeTreeIndex(s));
    }
  }

  /** A size of bin i lies in the interval of the bin's trie. */
  lemma TreeIndexInTrie(s: nat)
    requires MIN_LARGE_SIZE <= s < SIZE_LIMIT
    ensures var i := ComputeTreeIndex(s);
            TrieLo(i) <= s < TrieLo(i) + Pow2(TrieExp(i))
  {
    TreeIndexBounds(s);
    Pow2Consts();
    TrieCoversBin(ComputeTreeIndex(s));
  }

  /** The trie interval of a bin ends where the next bin begins and is aligned to its width. */
  lemma TrieCoversBin(i: nat)
    requires i < NTREEBINS
    ensures i < NTREEBINS - 1 ==> TrieLo(i) + Pow2(TrieExp(i)) == MinSizeForTreeIndex(i + 1)
    ensures TrieLo(i) % Pow2(TrieExp(i)) == 0
  {
    var k := i / 2;
    var q := Pow2(k + 7);
    MinSizes(k, q);
    ModMultiple(2, q);
    ModMultiple(3, q);
  }

  // ---- The running key of the trie walks ----

  /** The 64-bit key after the top 64 - e bits of size s were shifted out. */
  function Key(s: nat, e: nat): nat
    requires e <= 64
  {
    (s * Pow2(64 - e)) % WORD64
  }

  /** The key's sign bit says which half of an interval of width 2^e the size is in. */
  lemma KeyBit(s: nat, e: nat, lo: nat)
    requires 0 < e <= 64 && lo % Pow2(e) == 0 && lo <= s < lo + Pow2(e)
    ensures Key(s, e) / Pow2(63) == (if s < lo + Pow2(e - 1) then 0 else 1)
    ensures lo % Pow2(e - 1) == 0 && (lo + Pow2(e - 1)) % Pow2(e - 1) == 0
  {
    var h := Pow2(e - 1);
    var q := lo / Pow2(e);
    HalvesAligned(lo, h, q);
    Pow2Consts();
    var c := Pow2(64 - e);
    Pow2Add(e - 1, 64 - e);
    assert h * c == Pow2(63);
    KeyTop(s, c, h, q);
  }

  lemma HalvesAligned(lo: nat, h: nat, q: nat)
    requires h > 0 && lo % (2 * h) == 0 && q == lo / (2 * h)
    ensures lo == q * (2 * h)
    ensures lo % h == 0 && (lo + h) % h == 0
  {
    assert q * (2 * h) == (2 * q) * h;
    ModMultiple(2 * q, h);
    ModMultiple(2 * q + 1, h);
    assert (2 * q + 1) * h == (2 * q) * h + h;
  }

  lemma KeyTop(s: nat, c: nat, h: nat, q: nat)
    requires h > 0 && c > 0 && q * (2 * h) <= s < q * (2 * h) + 2 * h
    requires h * c == Pow2(63) && WORD64 == 2 * Pow2(63)
    ensures ((s * c) % WORD64) / Pow2(63) == (if s < q * (2 * h) + h then 0 else 1)
  {
    var lo := q * (2 * h);
    var d := s - lo;
    MulDist(lo, d, c);
    MulAssoc(q, 2 * h, c);
    MulAssoc(2, h, c);
    MulLess(d, 2 * h, c);
    DivModUnique(s * c, WORD64, q, d * c);
    KeyHalf(d, c, h);
  }

  lemma KeyHalf(d: nat, c: nat, h: nat)
    requires h > 0 && c > 0 && d < 2 * h
    ensures h * c > 0
    ensures (d * c) / (h * c) == (if d < h then 0 else 1)
  {
    MulLess(0, h, c);
    if d < h {
      MulLess(d, h, c);
      DivModUnique(d * c, h * c, 0, d * c);
    } else {
      MulDist(h, d - h, c);
      MulLess(d - h, h, c);
      DivModUnique(d * c, h * c, 1, d * c - h * c);
    }
  }

  /** Shifting the key left by one moves on to the next lower size bit. */
  lemma KeyShift(s: nat, e: nat)
    requires 0 < e <= 64
    ensures (2 * Key(s, e)) % WORD64 == Key(s, e - 1)
  {
    var x := s * Pow2(64 - e);
    assert Pow2(64 - (e - 1)) == 2 * Pow2(64 - e);
    assert s * Pow2(64 - (e - 1)) == 2 * x;
    var q := x / WORD64;
    var r := x % WORD64;
    assert 2 * x == (2 * q) * WORD64 + 2 * r;
    if 2 * r < WORD64 {
      DivModUnique(2 * x, WORD64, 2 * q, 2 * r);
    } else {
      DivModUnique(2 * x, WORD64, 2 * q + 1, 2 * r - WORD64);
    }
  }

  lemma ShiftIsKey(i: nat)
    requires i < NTREEBINS
    ensures LeftShiftForTreeIndex(i) == 64 - TrieExp(i)
  {
  }

  /** (k >> 63) & 1: the child to visit next. */
  predicate TopBit(k: nat) {
    (k / Pow2(63)) % 2 == 1
  }

  /** k <<= 1 */
  function ShiftKey(k: nat): nat {
    (2 * k) % WORD64
  }

  /** One step of a trie walk: which half the size is in, and the key for the half. */
  lemma Steer(s: nat, e: nat, lo: nat)
    requires 0 < e <= 64 && lo % Pow2(e) == 0 && lo <= s < lo + Pow2(e)
    ensures TopBit(Key(s, e)) <==> s >= lo + Pow2(e - 1)
    ensures ShiftKey(Key(s, e)) == Key(s, e - 1)
    ensures lo % Pow2(e - 1) == 0 && (lo + Pow2(e - 1)) % Pow2(e - 1) == 0
  {
    KeyBit(s, e, lo);
    KeyShift(s, e);
  }
}
