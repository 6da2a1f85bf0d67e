/**
 * Boundary tags of lj_alloc.c: chunk headers in memory, the tiling of memory
 * by chunks, and what the writes of malloc, free and realloc do to it.
 */
module Chunks {

  const MIN_CHUNK_SIZE: nat := 32
  const TOP_FOOT_SIZE: nat := 64
  /** Chunks live below this address. */
  const ADDRESS_LIMIT: nat := 0x1_0000_0000

  /** A malloc_chunk: prev_foot, and the size, CINUSE and PINUSE parts of head. */
  datatype Head = Head(foot: int, size: int, c: bool, p: bool)
  type Memory = map<int, Head>

  /**
   * Memory with the addresses of all chunks, of the last chunk and of the first
   * chunk of each segment, the top chunk and the designated victim (0 if none).
   * The last chunk of the top segment is the fake chunk behind top, that of
   * any other segment its last fencepost.
   */
  datatype State = State(m: Memory, cs: set<int>, ls: set<int>, fs: set<int>, top: int, dv: int)

  /** The chunks that have a successor in their segment. */
  ghost predicate Inner(s: State, a: int) {
    a in s.cs && a !in s.ls
  }

  ghost predicate Used(s: State, a: int) {
    Inner(s, a) && a in s.m && s.m[a].c
  }

  ghost predicate Free(s: State, a: int) {
    Inner(s, a) && a in s.m && !s.m[a].c && a != s.top
  }

  function Next(m: Memory, a: int): int
    requires a in m
  {
    a + m[a].size
  }

  ghost predicate ChunkOk(s: State, a: int) {
    && a in s.m && a > 0 && a % 8 == 0
    && s.m[a].size > 0 && s.m[a].size % 8 == 0 && Next(s.m, a) <= ADDRESS_LIMIT
  }

  /** The successor knows whether a is in use, and a free chunk's size. */
  ghost predicate NextOk(s: State, a: int)
    requires a in s.m
  {
    var n := Next(s.m, a);
    && n in s.cs && n !in s.fs && n in s.m
    && s.m[n].p == s.m[a].c
    && (!s.m[a].c && a != s.top ==>
          && s.m[n].foot == s.m[a].size
          && s.m[n].c
          && s.m[a].size >= MIN_CHUNK_SIZE)
  }

  /** A clear PINUSE bit means that the foot leads to a free chunk right before a. */
  ghost predicate PrevOk(s: State, a: int)
    requires a in s.m
  {
    !s.m[a].p ==>
      var b := a - s.m[a].foot;
      b in s.cs && b !in s.ls && b in s.m && !s.m[b].c && b != s.top && Next(s.m, b) == a && b < a
  }

  ghost predicate Apart(s: State, a: int, b: int) {
    a in s.cs && b in s.cs && a < b ==> a in s.m && Next(s.m, a) <= b
  }

  ghost predicate Linked(s: State, a: int) {
    Inner(s, a) ==> a in s.m && NextOk(s, a) && PrevOk(s, a)
  }

  /** The only last chunk that is not in use is the one behind top. */
  ghost predicate LastOk(s: State, a: int) {
    a in s.ls && s.top in s.m ==> a in s.m && (s.m[a].c || a == Next(s.m, s.top))
  }

  ghost predicate TopOk(s: State) {
    && Inner(s, s.top) && s.top in s.m && !s.m[s.top].c
    && Next(s.m, s.top) in s.ls && Next(s.m, s.top) in s.m
    && !s.m[Next(s.m, s.top)].c && s.m[Next(s.m, s.top)].size == TOP_FOOT_SIZE
  }

  ghost predicate DvOk(s: State) {
    s.dv == 0 || Free(s, s.dv)
  }

  /** The invariant of the boundary tags. */
  ghost predicate WellFormed(s: State) {
    && s.ls <= s.cs && s.fs <= s.cs
    && (forall a {:trigger ChunkOk(s, a)} :: a in s.cs ==> ChunkOk(s, a))
    && (forall a, b {:trigger Apart(s, a, b)} :: Apart(s, a, b))
    && (forall a {:trigger Linked(s, a)} :: Linked(s, a))
    && (forall a :: a in s.fs ==> a in s.m && s.m[a].p)
    && (forall a {:trigger LastOk(s, a)} :: LastOk(s, a))
    && TopOk(s)
    && DvOk(s)
  }

  // ---- Writes to chunk headers ----

  /** A header that was never written, or is stale, has an arbitrary foot. */
  function FootAt(m: Memory, a: int): int {
    if a in m then m[a].foot else 0
  }

  /** set_size_and_pinuse_of_inuse_chunk */
  function SetInuse(m: Memory, a: int, size: int): Memory {
    m[a := Head(FootAt(m, a), size, true, true)]
  }

  /** p->head = size | PINUSE_BIT */
  function SetTop(m: Memory, a: int, size: int): Memory {
    m[a := Head(FootAt(m, a), size, false, true)]
  }

  /** set_size_and_pinuse_of_free_chunk */
  function SetFree(m: Memory, a: int, size: int): Memory
    requires a + size in m && size > 0
  {
    var m := SetTop(m, a, size);
    m[a + size := m[a + size].(foot := size)]
  }

  function SetPinuse(m: Memory, a: int, p: bool): Memory
    requires a in m
  {
    m[a := m[a].(p := p)]
  }

  /** set_inuse_and_pinuse */
  function TakeWhole(m: Memory, a: int, size: int): Memory
    requires a + size in m && size > 0
  {
    SetPinuse(SetInuse(m, a, size), a + size, true)
  }

  /** Facts about single chunks that the proofs below start from. */
  lemma At(s: State, a: int)
    requires WellFormed(s) && a in s.cs
    ensures ChunkOk(s, a) && Linked(s, a)
    ensures Inner(s, a) ==> ChunkOk(s, Next(s.m, a)) && Next(s.m, a) in s.cs && Apart(s, a, Next(s.m, a))
  {
    assert ChunkOk(s, a) && Linked(s, a);
    if Inner(s, a) {
      assert ChunkOk(s, Next(s.m, a)) && Apart(s, a, Next(s.m, a));
    }
  }

  /** Chunks other than a lie before a or behind its end. */
  lemma Elsewhere(s: State, a: int, b: int)
    requires WellFormed(s) && a in s.cs && b in s.cs && a != b
    ensures a in s.m && b in s.m
    ensures b < a ==> Next(s.m, b) <= a
    ensures a < b ==> Next(s.m, a) <= b
  {
    assert Apart(s, a, b) && Apart(s, b, a) && ChunkOk(s, a) && ChunkOk(s, b);
  }

  // ---- Taking a free chunk ----

  lemma TakeWholeOk(s: State, a: int)
    requires WellFormed(s) && Free(s, a)
    ensures Next(s.m, a) in s.m && s.m[a].size > 0
    ensures var s' := s.(m := TakeWhole(s.m, a, s.m[a].size), dv := if s.dv == a then 0 else s.dv);
            WellFormed(s')
  {
    At(s, a);
    var s' := s.(m := TakeWhole(s.m, a, s.m[a].size), dv := if s.dv == a then 0 else s.dv);
    forall b | b in s'.cs ensures ChunkOk(s', b) { assert ChunkOk(s, b); }
    forall b, c ensures Apart(s', b, c) { assert Apart(s, b, c); assert b in s.cs ==> ChunkOk(s, b); }
    forall b ensures LastOk(s', b) { assert LastOk(s, b); assert b in s.ls ==> ChunkOk(s, b); }
    forall b ensures Linked(s', b) {
      if Inner(s', b) {
        assert Linked(s, b);
        if b != a { Elsewhere(s, a, b); }
      }
    }
  }

  /** A free chunk split at nb: the front in use, the remainder free. */
  function SplitFree(m: Memory, a: int, nb: int, size: int): Memory
    requires 0 < nb < size && a + size in m
  {
    SetFree(SetInuse(m, a, nb), a + nb, size - nb)
  }

  /** The remainder becomes the designated victim or is binned: dv is a parameter. */
  lemma SplitFreeOk(s: State, a: int, nb: int, dv: int)
    requires WellFormed(s) && Free(s, a) && nb > 0 && nb % 8 == 0 && nb + MIN_CHUNK_SIZE <= s.m[a].size
    requires dv == a + nb || (dv == s.dv && dv != a)
    ensures Next(s.m, a) in s.m
    ensures a + nb !in s.cs
    ensures WellFormed(s.(m := SplitFree(s.m, a, nb, s.m[a].size), cs := s.cs + {a + nb}, dv := dv))
  {
    At(s, a);
    var r := a + nb;
    var s' := s.(m := SplitFree(s.m, a, nb, s.m[a].size), cs := s.cs + {r}, dv := dv);
    if r in s.cs { Elsewhere(s, a, r); }
    forall b | b in s'.cs ensures ChunkOk(s', b) {
      if b != r { assert ChunkOk(s, b); }
    }
    forall b, c ensures Apart(s', b, c) {
      if b in s.cs && b != a { Elsewhere(s, a, b); }
      if c in s.cs && c != a { Elsewhere(s, a, c); }
      assert Apart(s, b, c);
    }
    forall b ensures LastOk(s', b) { assert LastOk(s, b); assert b in s.ls ==> ChunkOk(s, b); }
    forall b ensures Linked(s', b) { SplitFreeLinked(s, a, nb, dv, b); }
  }

  lemma SplitFreeLinked(s: State, a: int, nb: int, dv: int, b: int)
    requires WellFormed(s) && Free(s, a) && nb > 0 && nb % 8 == 0 && nb + MIN_CHUNK_SIZE <= s.m[a].size
    requires Next(s.m, a) in s.m && a + nb !in s.cs
    ensures Linked(s.(m := SplitFree(s.m, a, nb, s.m[a].size), cs := s.cs + {a + nb}, dv := dv), b)
  {
    At(s, a);
    assert Linked(s, b);
    if b in s.cs && b != a { Elsewhere(s, a, b); }
  }

  // ---- The top chunk ----

  function SplitTop(m: Memory, a: int, nb: int, size: int): Memory {
    SetInuse(SetTop(m, a + nb, size - nb), a, nb)
  }

  lemma SplitTopOk(s: State, nb: int)
    requires WellFormed(s) && nb > 0 && nb % 8 == 0 && nb < s.m[s.top].size
    ensures s.top + nb !in s.cs
    ensures WellFormed(s.(m := SplitTop(s.m, s.top, nb, s.m[s.top].size), cs := s.cs + {s.top + nb}, top := s.top + nb))
  {
    var a := s.top;
    At(s, a);
    var r := a + nb;
    var s' := s.(m := SplitTop(s.m, a, nb, s.m[a].size), cs := s.cs + {r}, top := r);
    if r in s.cs { Elsewhere(s, a, r); }
    forall b | b in s'.cs ensures ChunkOk(s', b) {
      if b != r { assert ChunkOk(s, b); }
    }
    forall b, c ensures Apart(s', b, c) {
      if b in s.cs && b != a { Elsewhere(s, a, b); }
      if c in s.cs && c != a { Elsewhere(s, a, c); }
      assert Apart(s, b, c);
    }
    forall b ensures LastOk(s', b) { assert LastOk(s, b); assert b in s.ls ==> ChunkOk(s, b); }
    forall b ensures Linked(s', b) {
      if Inner(s', b) && b != r {
        assert Linked(s, b);
        if b != a { Elsewhere(s, a, b); }
      }
    }
  }

  /** No chunk in front of a free one, or of top, is free: it would have been merged. */
  lemma FreePinuse(s: State, a: int)
    requires WellFormed(s) && Inner(s, a) && a in s.m && !s.m[a].c
    ensures s.m[a].p
  {
    At(s, a);
    assert Linked(s, a - s.m[a].foot);
  }

  /** Extension of the used chunk in front of top. */
  function Expand(m: Memory, a: int, nb: int, size: int): Memory
    requires a in m
  {
    SetTop(m[a := m[a].(size := nb, c := true)], a + nb, size - nb)
  }

  lemma ExpandOk(s: State, a: int, nb: int)
    requires WellFormed(s) && Used(s, a) && Next(s.m, a) == s.top
    requires nb > s.m[a].size && nb % 8 == 0 && nb < s.m[a].size + s.m[s.top].size
    ensures WellFormed(s.(m := Expand(s.m, a, nb, s.m[a].size + s.m[s.top].size), cs := s.cs - {s.top} + {a + nb},
              top := a + nb))
  {
    At(s, a);
    At(s, s.top);
    var r := a + nb;
    var s' := s.(m := Expand(s.m, a, nb, s.m[a].size + s.m[s.top].size), cs := s.cs - {s.top} + {r}, top := r);
    assert r !in s.cs by { if r in s.cs { Elsewhere(s, s.top, r); } }
    forall b | b in s'.cs ensures ChunkOk(s', b) {
      if b != r { assert ChunkOk(s, b); }
    }
    forall b, c ensures Apart(s', b, c) {
      if b in s.cs && b != a { Elsewhere(s, a, b); }
      if b in s.cs && b != s.top { Elsewhere(s, s.top, b); }
      if c in s.cs && c != a { Elsewhere(s, a, c); }
      if c in s.cs && c != s.top { Elsewhere(s, s.top, c); }
      assert Apart(s, b, c);
    }
    forall b ensures LastOk(s', b) { assert LastOk(s, b); assert b in s.ls ==> ChunkOk(s, b); }
    forall b ensures Linked(s', b) {
      if Inner(s', b) && b != r {
        assert Linked(s, b);
        if b != a { Elsewhere(s, a, b); Elsewhere(s, s.top, b); }
      }
    }
  }

  // ---- Giving chunks back ----

  /** A used chunk split at nb into two used ones. */
  function SplitUsed(m: Memory, a: int, nb: int, size: int): Memory
    requires a in m && a + size in m
  {
    var m := SetInuse(m[a := m[a].(size := nb, c := true)], a + nb, size - nb);
    m[a + size := m[a + size].(p := true)]
  }

  lemma SplitUsedOk(s: State, a: int, nb: int)
    requires WellFormed(s) && Used(s, a) && nb > 0 && nb % 8 == 0 && nb + MIN_CHUNK_SIZE <= s.m[a].size
    ensures Next(s.m, a) in s.m
    ensures a + nb !in s.cs
    ensures var s' := s.(m := SplitUsed(s.m, a, nb, s.m[a].size), cs := s.cs + {a + nb});
            WellFormed(s') && Used(s', a) && Used(s', a + nb)
  {
    At(s, a);
    var r := a + nb;
    var s' := s.(m := SplitUsed(s.m, a, nb, s.m[a].size), cs := s.cs + {r});
    if r in s.cs { Elsewhere(s, a, r); }
    forall b | b in s'.cs ensures ChunkOk(s', b) {
      if b != r { assert ChunkOk(s, b); }
    }
    forall b, c ensures Apart(s', b, c) { SplitUsedApart(s, a, nb, b, c); }
    forall b ensures LastOk(s', b) { assert LastOk(s, b); assert b in s.ls ==> ChunkOk(s, b); }
    forall b ensures Linked(s', b) {
      if Inner(s', b) && b != r {
        assert Linked(s, b);
        if b != a { Elsewhere(s, a, b); }
      }
    }
  }

  lemma SplitUsedApart(s: State, a: int, nb: int, b: int, c: int)
    requires WellFormed(s) && Used(s, a) && a in s.m && Next(s.m, a) in s.m
    requires nb > 0 && nb % 8 == 0 && nb + MIN_CHUNK_SIZE <= s.m[a].size
    ensures Apart(s.(m := SplitUsed(s.m, a, nb, s.m[a].size), cs := s.cs + {a + nb}), b, c)
  {
    At(s, a);
    if b in s.cs && b != a { Elsewhere(s, a, b); }
    if c in s.cs && c != a { Elsewhere(s, a, c); }
    assert Apart(s, b, c);
  }

  /** The chunks strictly between a and z. */
  ghost predicate Between(s: State, a: int, z: int, gone: set<int>) {
    && a < z
    && (forall x :: x in gone <==> x in s.cs && a < x < z)
    && (forall x :: x in gone ==> x !in s.ls && x !in s.fs && x != s.top)
    && (exists y :: Inner(s, y) && a <= y < z && y in s.m && Next(s.m, y) == z)
  }

  /** Everything from a up to the used chunk z becomes one free chunk. */
  function Merge(m: Memory, a: int, z: int): Memory
    requires a < z && z in m
  {
    SetFree(SetPinuse(m, z, false), a, z - a)
  }

  lemma BetweenEnds(s: State, a: int, z: int, gone: set<int>, b: int)
    requires WellFormed(s) && a in s.cs && z in s.cs && Between(s, a, z, gone)
    requires Inner(s, b) && b !in gone && b != a
    ensures b in s.m && Next(s.m, b) !in gone && Next(s.m, b) in s.cs
    ensures Next(s.m, b) != z
    ensures z !in gone && a !in gone
    ensures !s.m[b].p && b != z ==> b - s.m[b].foot !in gone && b - s.m[b].foot != a
  {
    At(s, b);
    var y :| Inner(s, y) && a <= y < z && y in s.m && Next(s.m, y) == z;
    At(s, y);
    Elsewhere(s, b, y);
    if b < a {
      Elsewhere(s, a, b);
    } else if b != z {
      Elsewhere(s, z, b);
      if !s.m[b].p {
        var q := b - s.m[b].foot;
        if q < z {
          Elsewhere(s, q, z);
        }
      }
    }
  }

  lemma MergeLinked(s: State, a: int, z: int, gone: set<int>, dv: int, b: int)
    requires WellFormed(s) && Inner(s, a) && z in s.cs && Between(s, a, z, gone)
    requires a in s.m && s.m[a].p && z in s.m && s.m[z].c && a != s.top && z !in s.fs
    requires z - a >= MIN_CHUNK_SIZE
    ensures Linked(s.(m := Merge(s.m, a, z), cs := s.cs - gone, dv := dv), b)
  {
    At(s, a);
    assert Linked(s, b) && Linked(s, z);
    if Inner(s, b) && b !in gone && b != a {
      BetweenEnds(s, a, z, gone, b);
    }
  }

  /** Chunks stay apart if only a changes its size, and reaches no other one. */
  lemma ApartAfter(s: State, s': State, a: int, b: int, c: int)
    requires WellFormed(s) && a in s.cs && a in s'.m && s'.cs <= s.cs
    requires forall x :: x in s'.cs && x != a ==> x in s.m && x in s'.m && s'.m[x].size == s.m[x].size
    requires forall x :: x in s'.cs && x > a ==> Next(s'.m, a) <= x
    ensures Apart(s', b, c)
  {
    if b in s.cs && b != a { Elsewhere(s, a, b); }
    if c in s.cs && c != a { Elsewhere(s, a, c); }
    assert Apart(s, b, c);
  }

  lemma MergeOk(s: State, a: int, z: int, gone: set<int>, dv: int)
    requires WellFormed(s) && Inner(s, a) && z in s.cs && Between(s, a, z, gone)
    requires a in s.m && s.m[a].p && z in s.m && s.m[z].c && a != s.top && z !in s.fs
    requires z - a >= MIN_CHUNK_SIZE
    requires dv == 0 || dv == a || (dv == s.dv && dv !in gone && dv != a)
    ensures WellFormed(s.(m := Merge(s.m, a, z), cs := s.cs - gone, dv := dv))
  {
    At(s, a);
    At(s, z);
    var s' := s.(m := Merge(s.m, a, z), cs := s.cs - gone, dv := dv);
    assert forall x :: x in s.ls || x in s.fs ==> x !in gone;
    MergeTopOf(s, a, z, gone);
    forall b | b in s'.cs ensures ChunkOk(s', b) { assert ChunkOk(s, b); }
    forall b, c ensures Apart(s', b, c) { ApartAfter(s, s', a, b, c); }
    forall b ensures LastOk(s', b) { assert LastOk(s, b); assert b in s.ls ==> ChunkOk(s, b); }
    forall b ensures Linked(s', b) { MergeLinked(s, a, z, gone, dv, b); }
  }

  /** The chunk behind top is not the end of a merge. */
  lemma MergeTopOf(s: State, a: int, z: int, gone: set<int>)
    requires WellFormed(s) && Inner(s, a) && z in s.cs && Between(s, a, z, gone)
    requires a != s.top
    ensures Next(s.m, s.top) != z
  {
    if Next(s.m, s.top) == z {
      BetweenEnds(s, a, z, gone, s.top);
    }
  }

  /** Everything from a up to the end of top becomes top. */
  lemma MergeTopOk(s: State, a: int, gone: set<int>, dv: int)
    requires WellFormed(s) && Inner(s, a) && a < s.top && gone == (set x | x in s.cs && a < x <= s.top)
    requires forall x :: x in gone ==> x !in s.fs && x !in s.ls
    requires a in s.m && s.m[a].p
    requires dv == 0 || (dv == s.dv && dv !in gone && dv != a)
    ensures WellFormed(s.(m := SetTop(s.m, a, Next(s.m, s.top) - a), cs := s.cs - gone, top := a, dv := dv))
  {
    At(s, a);
    At(s, s.top);
    var z := Next(s.m, s.top);
    At(s, z);
    var s' := s.(m := SetTop(s.m, a, z - a), cs := s.cs - gone, top := a, dv := dv);
    forall x | x in s.cs && a < x < z ensures x in gone {
      if x > s.top { Elsewhere(s, s.top, x); }
    }
    assert Between(s.(top := 0), a, z, gone) by { assert Inner(s, s.top) && Next(s.m, s.top) == z; }
    forall b | b in s'.cs ensures ChunkOk(s', b) { assert ChunkOk(s, b); }
    forall b, c ensures Apart(s', b, c) { ApartAfter(s, s', a, b, c); }
    forall b ensures LastOk(s', b) { assert LastOk(s, b); assert b in s.ls ==> ChunkOk(s, b); }
    forall b ensures Linked(s', b) { MergeTopLinked(s, a, gone, dv, b); }
  }

  lemma MergeTopLinked(s: State, a: int, gone: set<int>, dv: int, b: int)
    requires WellFormed(s) && Inner(s, a) && a < s.top
    requires forall x :: x in gone <==> x in s.cs && a < x < Next(s.m, s.top)
    requires forall x :: x in gone ==> x !in s.fs && x !in s.ls
    requires a in s.m && s.m[a].p
    ensures Linked(s.(m := SetTop(s.m, a, Next(s.m, s.top) - a), cs := s.cs - gone, top := a, dv := dv), b)
  {
    At(s, a);
    At(s, s.top);
    var z := Next(s.m, s.top);
    assert Linked(s, b) && z in s.ls && z !in gone;
    if Inner(s, b) && b !in gone && b != a {
      TopBetween(s, a, z, gone, b);
    }
  }

  lemma TopBetween(s: State, a: int, z: int, gone: set<int>, b: int)
    requires WellFormed(s) && a in s.cs && z == Next(s.m, s.top)
    requires forall x :: x in gone <==> x in s.cs && a < x < z
    requires a < z && Inner(s, b) && b !in gone && b != a && a <= s.top
    ensures b in s.m && Next(s.m, b) !in gone && Next(s.m, b) in s.cs && Next(s.m, b) != z
    ensures z !in gone
    ensures !s.m[b].p && b != z ==> b - s.m[b].foot !in gone && b - s.m[b].foot != a
  {
    At(s, b);
    At(s, s.top);
    if b != s.top { Elsewhere(s, b, s.top); }
    if b < a {
      Elsewhere(s, a, b);
    } else if b != z {
      Elsewhere(s, z, b);
      if !s.m[b].p {
        var q := b - s.m[b].foot;
        if q < z {
          Elsewhere(s, q, z);
        }
      }
    }
  }
}
