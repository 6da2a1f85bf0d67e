/**
 * Bin maps: the 32-bit words of lj_alloc.c with one bit for each bin, as
 * natural numbers. Bit i of the word is Marked(w, i).
 */
module BinMap {
  /** Smaller chunks are in small bins, the others in tree bins. */
  const MIN_LARGE_SIZE: nat := 256

  predicate Marked(w: nat, i: nat) {
    if i == 0 then w % 2 == 1 else Marked(w / 2, i - 1)
  }

  /** w | (1 << i) */
  function Mark(w: nat, i: nat): (r: nat)
    ensures forall j: nat :: Marked(r, j) <==> Marked(w, j) || j == i
  {
    var r := if i == 0 then w - w % 2 + 1 else 2 * Mark(w / 2, i - 1) + w % 2;
    assert forall j: nat :: j > 0 ==> (Marked(r, j) <==> Marked(r / 2, j - 1));
    r
  }

  /** w & ~(1 << i) */
  function Clear(w: nat, i: nat): (r: nat)
    ensures forall j: nat :: Marked(r, j) <==> Marked(w, j) && j != i
  {
    var r := if i == 0 then w - w % 2 else 2 * Clear(w / 2, i - 1) + w % 2;
    assert forall j: nat :: j > 0 ==> (Marked(r, j) <==> Marked(r / 2, j - 1));
    r
  }

  /** w & left_bits(1 << i) */
  function LeftOf(w: nat, i: nat): (r: nat)
    ensures forall j: nat :: Marked(r, j) <==> Marked(w, j) && j > i
  {
    var r := if i == 0 then w - w % 2 else 2 * LeftOf(w / 2, i - 1);
    assert forall j: nat :: j > 0 ==> (Marked(r, j) <==> Marked(r / 2, j - 1));
    r
  }

  /** w >> k */
  function ShiftRight(w: nat, k: nat): (r: nat)
    ensures forall j: nat :: Marked(r, j) <==> Marked(w, k + j)
  {
    if k == 0 then w else ShiftRight(w / 2, k - 1)
  }

  lemma {:induction false} ZeroUnmarked(i: nat)
    ensures !Marked(0, i)
  {
    if i > 0 {
      ZeroUnmarked(i - 1);
    }
  }

  /** Find first set: the lowest marked bit. */
  function Ffs(w: nat): (r: nat)
    requires w != 0
    ensures Marked(w, r)
    ensures forall j: nat :: Marked(w, j) ==> r <= j
  {
    if w % 2 == 1 then 0
    else
      var r := 1 + Ffs(w / 2);
      assert forall j: nat :: Marked(w, j) ==> j > 0 && Marked(w / 2, j - 1);
      r
  }

  /** The two-bit test of the small path: bit 0 or bit 1 of a word is marked. */
  lemma LowTwoBits(w: nat)
    ensures w % 4 != 0 <==> Marked(w, 0) || Marked(w, 1)
  {
    assert Marked(w, 1) <==> Marked(w / 2, 0);
  }

  lemma {:induction false} MarkedNonzero(i: nat, w: nat)
    requires Marked(w, i)
    ensures w != 0
  {
    if w == 0 {
      ZeroUnmarked(i);
    }
  }
}
