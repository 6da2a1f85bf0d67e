/**
 * The invariant of the heap of lj_alloc.c: boundary tags, segments, the place
 * of every free chunk, and the blocks handed out; and what each way of taking
 * a free chunk does to it.
 */
module HeapInv {
  import BinMap
  import opened Chunks
  import opened Segments

  /** A free chunk other than dv is in a small bin or in a tree bin, by its size. */
  ghost predicate BinnedAt(s: State, sbc: map<int, nat>, tbc: map<int, nat>, a: int) {
    && (a in sbc <==> Free(s, a) && a != s.dv && s.m[a].size < BinMap.MIN_LARGE_SIZE)
    && (a in tbc <==> Free(s, a) && a != s.dv && s.m[a].size >= BinMap.MIN_LARGE_SIZE)
    && (a in sbc ==> sbc[a] == s.m[a].size)
    && (a in tbc ==> tbc[a] == s.m[a].size)
  }

  ghost predicate BinnedIn(p: int, s: int, sbc: map<int, nat>, tbc: map<int, nat>) {
    if s < BinMap.MIN_LARGE_SIZE then p in sbc && sbc[p] == s && p !in tbc
    else p in tbc && tbc[p] == s && p !in sbc
  }

  /** A live block is a used chunk with room for the bytes that were requested. */
  ghost predicate LiveAt(s: State, live: map<int, nat>, a: int) {
    a in live ==> Used(s, a) && live[a] + 8 <= s.m[a].size && s.m[a].size >= MIN_CHUNK_SIZE
  }

  datatype Part = Heads | Tiles | Bins | Blocks

  ghost predicate Holds(s: State, sbc: map<int, nat>, tbc: map<int, nat>, segs: seq<Segment>, live: map<int, nat>,
                        part: Part) {
    match part
    case Heads => WellFormed(s)
    case Tiles => Segmented(s, segs)
    case Bins => forall a {:trigger BinnedAt(s, sbc, tbc, a)} :: BinnedAt(s, sbc, tbc, a)
    case Blocks =>
      && (forall a {:trigger LiveAt(s, live, a)} :: LiveAt(s, live, a))
      && (forall a :: a in live ==> NoRecord(segs, a))
  }

  ghost predicate Inv(s: State, sbc: map<int, nat>, tbc: map<int, nat>, segs: seq<Segment>, live: map<int, nat>) {
    forall part {:trigger Holds(s, sbc, tbc, segs, live, part)} :: Holds(s, sbc, tbc, segs, live, part)
  }

  lemma InvOpened(s: State, sbc: map<int, nat>, tbc: map<int, nat>, segs: seq<Segment>, live: map<int, nat>)
    requires Inv(s, sbc, tbc, segs, live)
    ensures WellFormed(s) && Segmented(s, segs)
    ensures forall a {:trigger BinnedAt(s, sbc, tbc, a)} :: BinnedAt(s, sbc, tbc, a)
    ensures forall a {:trigger LiveAt(s, live, a)} :: LiveAt(s, live, a)
    ensures forall a :: a in live ==> NoRecord(segs, a)
  {
    assert Holds(s, sbc, tbc, segs, live, Heads) && Holds(s, sbc, tbc, segs, live, Tiles);
    assert Holds(s, sbc, tbc, segs, live, Bins) && Holds(s, sbc, tbc, segs, live, Blocks);
  }

  /** p is a chunk newly in use that is large enough for nb. */
  ghost predicate Got(s: State, s': State, nb: int, p: int) {
    && Kept(s, s', 0)
    && !Used(s, p) && Used(s', p) && s'.m[p].size >= nb
  }

  /** p is a new block for the caller: no live block, no segment record. */
  ghost predicate GotBlock(s: State, s': State, segs': seq<Segment>, live: map<int, nat>, nb: int, p: int) {
    && Kept(s, s', 0)
    && p > 0 && Used(s', p) && s'.m[p].size >= nb
    && p !in live && NoRecord(segs', p)
  }

  lemma NewBlock(s: State, s': State, segs: seq<Segment>, segs': seq<Segment>, live: map<int, nat>, nb: int, p: int)
    requires Segmented(s, segs) && WellFormed(s') && Got(s, s', nb, p)
    requires forall a {:trigger LiveAt(s, live, a)} :: LiveAt(s, live, a)
    requires |segs'| == |segs| && forall k :: 0 <= k < |segs| ==> segs'[k].rec == segs[k].rec
    ensures GotBlock(s, s', segs', live, nb, p)
  {
    assert LiveAt(s, live, p);
    UnusedNoRecord(s, segs, p);
    At(s', p);
  }

  /** The cached sizes of dv and of top. */
  ghost predicate Sized(s: State, dvsize: int, topsize: int) {
    && s.top in s.m && s.m[s.top].size == topsize
    && (if s.dv == 0 then dvsize == 0 else s.dv in s.m && s.m[s.dv].size == dvsize)
  }

  lemma LiveKept(s: State, s': State, live: map<int, nat>, x: int)
    requires Kept(s, s', x) && x !in live
    requires forall a {:trigger LiveAt(s, live, a)} :: LiveAt(s, live, a)
    ensures forall a {:trigger LiveAt(s', live, a)} :: LiveAt(s', live, a)
  {
    forall a ensures LiveAt(s', live, a) { assert LiveAt(s, live, a); assert Used(s, a) || !Used(s, a); }
  }

  /** Chunk zero does not exist. */
  lemma NotZero(s: State, segs: seq<Segment>, live: map<int, nat>)
    requires WellFormed(s) && Segmented(s, segs) && forall a {:trigger LiveAt(s, live, a)} :: LiveAt(s, live, a)
    ensures 0 !in s.cs && 0 !in live && NoRecord(segs, 0)
  {
    assert ChunkOk(s, 0) || 0 !in s.cs;
    assert LiveAt(s, live, 0);
    forall k | 0 < k < |segs| ensures segs[k].rec != 0 { assert Recorded(s, segs, k); }
  }

  /** Segment records lie in used chunks. */
  lemma UnusedNoRecord(s: State, segs: seq<Segment>, a: int)
    requires Segmented(s, segs) && !Used(s, a)
    ensures NoRecord(segs, a)
  {
    forall k | 0 < k < |segs| ensures segs[k].rec != a { assert Recorded(s, segs, k); }
  }

  /** Facts about a binned chunk, and about dv. */
  lemma BinnedChunk(s: State, sbc: map<int, nat>, tbc: map<int, nat>, segs: seq<Segment>, live: map<int, nat>, p: int)
    requires Inv(s, sbc, tbc, segs, live) && (p in sbc || p in tbc)
    ensures p > 0 && p != s.dv && Free(s, p) && ChunkOk(s, p) && Next(s.m, p) in s.m
    ensures p in sbc ==> p !in tbc && s.m[p].size == sbc[p] < BinMap.MIN_LARGE_SIZE
    ensures p in tbc ==> p !in sbc && s.m[p].size == tbc[p] >= BinMap.MIN_LARGE_SIZE
  {
    InvOpened(s, sbc, tbc, segs, live);
    assert BinnedAt(s, sbc, tbc, p);
    At(s, p);
  }

  lemma DvChunk(s: State, sbc: map<int, nat>, tbc: map<int, nat>, segs: seq<Segment>, live: map<int, nat>)
    requires Inv(s, sbc, tbc, segs, live)
    ensures s.dv !in sbc && s.dv !in tbc
    ensures s.dv != 0 ==> Free(s, s.dv) && ChunkOk(s, s.dv) && Next(s.m, s.dv) in s.m
  {
    InvOpened(s, sbc, tbc, segs, live);
    assert BinnedAt(s, sbc, tbc, s.dv);
    if s.dv != 0 { At(s, s.dv); }
  }

  // ---- Taking free chunks ----

  lemma TookWhole(s: State, sbc: map<int, nat>, tbc: map<int, nat>, segs: seq<Segment>, live: map<int, nat>, a: int,
                  nb: int)
    requires Inv(s, sbc, tbc, segs, live) && Free(s, a) && nb <= s.m[a].size
    ensures Next(s.m, a) in s.m && s.m[a].size > 0
    ensures var s' := s.(m := TakeWhole(s.m, a, s.m[a].size), dv := if s.dv == a then 0 else s.dv);
            Inv(s', sbc - {a}, tbc - {a}, segs, live) && GotBlock(s, s', segs, live, nb, a)
  {
    InvOpened(s, sbc, tbc, segs, live);
    At(s, a);
    var s' := s.(m := TakeWhole(s.m, a, s.m[a].size), dv := if s.dv == a then 0 else s.dv);
    TakeWholeOk(s, a);
    forall b | b in s.cs ensures SameSize(s, s', b) { assert ChunkOk(s, b); }
    assert Kept(s, s', 0);
    NotZero(s, segs, live);
    RecordsKept(s, s', segs, 0);
    KeepSegments(s, s', segs);
    LiveKept(s, s', live, 0);
    NewBlock(s, s', segs, segs, live, nb, a);
    forall b ensures BinnedAt(s', sbc - {a}, tbc - {a}, b) {
      assert BinnedAt(s, sbc, tbc, b);
    }
  }

  function SplitState(s: State, a: int, nb: int, dv: int): State
    requires a in s.m && 0 < nb < s.m[a].size && Next(s.m, a) in s.m
  {
    s.(m := SplitFree(s.m, a, nb, s.m[a].size), cs := s.cs + {a + nb}, dv := dv)
  }

  /** Splitting a free chunk, apart from the bins. */
  lemma SplitCore(s: State, segs: seq<Segment>, live: map<int, nat>, a: int, nb: int, dv: int)
    requires WellFormed(s) && Segmented(s, segs) && forall b {:trigger LiveAt(s, live, b)} :: LiveAt(s, live, b)
    requires Free(s, a) && nb > 0 && nb % 8 == 0 && nb + MIN_CHUNK_SIZE <= s.m[a].size
    requires dv == a + nb || (dv == s.dv && dv != a)
    ensures Next(s.m, a) in s.m && a + nb !in s.cs && a + nb > 0
    ensures var s' := SplitState(s, a, nb, dv);
            && WellFormed(s') && Segmented(s', segs) && GotBlock(s, s', segs, live, nb, a)
            && forall b {:trigger LiveAt(s', live, b)} :: LiveAt(s', live, b)
    ensures var s' := SplitState(s, a, nb, dv);
            && Free(s', a + nb) && s'.m[a + nb].size == s.m[a].size - nb && !Free(s', a)
            && forall b ::
                b != a && b != a + nb ==> (Free(s', b) <==> Free(s, b)) && (Free(s, b) ==> SameSize(s, s', b))
  {
    At(s, a);
    SplitFreeOk(s, a, nb, dv);
    var s' := SplitState(s, a, nb, dv);
    forall b | b in s.cs && b != a ensures SameSize(s, s', b) { assert ChunkOk(s, b); }
    assert Kept(s, s', 0);
    NotZero(s, segs, live);
    RecordsKept(s, s', segs, 0);
    UnusedNoRecord(s, segs, a);
    SplitSegments(s, s', segs, a, nb);
    LiveKept(s, s', live, 0);
    NewBlock(s, s', segs, segs, live, nb, a);
  }

  lemma SplitSized(s: State, sbc: map<int, nat>, tbc: map<int, nat>, segs: seq<Segment>, live: map<int, nat>,
                   a: int, nb: int, dv: int, dvsize: int, topsize: int)
    requires Inv(s, sbc, tbc, segs, live) && Free(s, a) && a in s.m && 0 < nb < s.m[a].size
    requires Next(s.m, a) in s.m && a + nb !in s.cs && a + nb > 0
    requires dv == a + nb || (dv == s.dv && dv != a)
    requires Sized(s, dvsize, topsize)
    ensures Sized(SplitState(s, a, nb, dv), if dv == s.dv then dvsize else s.m[a].size - nb, topsize) && s.dv != a + nb
  {
    InvOpened(s, sbc, tbc, segs, live);
  }

  /** A binned chunk is split and the remainder becomes dv; the old dv is binned. */
  lemma SplitToDv(s: State, sbc: map<int, nat>, tbc: map<int, nat>, segs: seq<Segment>, live: map<int, nat>, a: int,
                  nb: int, d: nat)
    requires Inv(s, sbc, tbc, segs, live) && Free(s, a) && a != s.dv
    requires nb > 0 && nb % 8 == 0 && nb + MIN_CHUNK_SIZE <= s.m[a].size
    requires s.dv == 0 || (s.dv in s.m && d == s.m[s.dv].size < BinMap.MIN_LARGE_SIZE)
    ensures Next(s.m, a) in s.m && s.dv !in sbc && a + nb !in s.cs && a + nb > 0
    ensures var s' := SplitState(s, a, nb, a + nb);
            && Inv(s', if s.dv == 0 then sbc - {a} else (sbc - {a})[s.dv := d], tbc - {a}, segs, live)
            && GotBlock(s, s', segs, live, nb, a)
  {
    InvOpened(s, sbc, tbc, segs, live);
    SplitCore(s, segs, live, a, nb, a + nb);
    var s' := SplitState(s, a, nb, a + nb);
    NotZero(s, segs, live);
    assert BinnedAt(s, sbc, tbc, s.dv);
    var sbc' := if s.dv == 0 then sbc - {a} else (sbc - {a})[s.dv := d];
    forall b ensures BinnedAt(s', sbc', tbc - {a}, b) {
      assert BinnedAt(s, sbc, tbc, b) && BinnedAt(s, sbc, tbc, a);
    }
  }

  function AddSmall(sbc: map<int, nat>, a: int, size: nat): map<int, nat> {
    if size < BinMap.MIN_LARGE_SIZE then sbc[a := size] else sbc
  }

  function AddLarge(tbc: map<int, nat>, a: int, size: nat): map<int, nat> {
    if size < BinMap.MIN_LARGE_SIZE then tbc else tbc[a := size]
  }

  /** A binned chunk is split and the remainder is binned. */
  lemma SplitToBin(s: State, sbc: map<int, nat>, tbc: map<int, nat>, segs: seq<Segment>, live: map<int, nat>, a: int,
                   nb: int)
    requires Inv(s, sbc, tbc, segs, live) && Free(s, a) && a != s.dv
    requires nb > 0 && nb % 8 == 0 && nb + MIN_CHUNK_SIZE <= s.m[a].size
    ensures Next(s.m, a) in s.m && a + nb !in sbc && a + nb !in tbc && a + nb !in s.cs && a + nb > 0
    ensures var s' := SplitState(s, a, nb, s.dv);
            var rs := s.m[a].size - nb;
            && Inv(s', AddSmall(sbc - {a}, a + nb, rs), AddLarge(tbc - {a}, a + nb, rs), segs, live)
            && GotBlock(s, s', segs, live, nb, a)
  {
    InvOpened(s, sbc, tbc, segs, live);
    SplitCore(s, segs, live, a, nb, s.dv);
    var s' := SplitState(s, a, nb, s.dv);
    var rs := s.m[a].size - nb;
    assert BinnedAt(s, sbc, tbc, a + nb);
    var sbc', tbc' := AddSmall(sbc - {a}, a + nb, rs), AddLarge(tbc - {a}, a + nb, rs);
    forall b ensures BinnedAt(s', sbc', tbc', b) {
      assert BinnedAt(s, sbc, tbc, b);
    }
  }

  lemma SplitOfDv(s: State, sbc: map<int, nat>, tbc: map<int, nat>, segs: seq<Segment>, live: map<int, nat>, nb: int)
    requires Inv(s, sbc, tbc, segs, live) && s.dv != 0
    requires nb > 0 && nb % 8 == 0 && s.dv in s.m && nb + MIN_CHUNK_SIZE <= s.m[s.dv].size
    ensures Next(s.m, s.dv) in s.m && s.dv + nb !in s.cs && s.dv + nb > 0
    ensures var s' := SplitState(s, s.dv, nb, s.dv + nb);
            Inv(s', sbc, tbc, segs, live) && GotBlock(s, s', segs, live, nb, s.dv)
  {
    InvOpened(s, sbc, tbc, segs, live);
    SplitCore(s, segs, live, s.dv, nb, s.dv + nb);
    var s' := SplitState(s, s.dv, nb, s.dv + nb);
    forall b ensures BinnedAt(s', sbc, tbc, b) {
      assert BinnedAt(s, sbc, tbc, b) && BinnedAt(s, sbc, tbc, s.dv);
    }
  }

  lemma SplitOfTop(s: State, sbc: map<int, nat>, tbc: map<int, nat>, segs: seq<Segment>, live: map<int, nat>, nb: int)
    requires Inv(s, sbc, tbc, segs, live)
    requires nb > 0 && nb % 8 == 0 && s.top in s.m && nb < s.m[s.top].size
    ensures var s' := s.(m := SplitTop(s.m, s.top, nb, s.m[s.top].size), cs := s.cs + {s.top + nb}, top := s.top + nb);
            Inv(s', sbc, tbc, segs, live) && GotBlock(s, s', segs, live, nb, s.top)
  {
    InvOpened(s, sbc, tbc, segs, live);
    var s' := s.(m := SplitTop(s.m, s.top, nb, s.m[s.top].size), cs := s.cs + {s.top + nb}, top := s.top + nb);
    SplitTopOk(s, nb);
    forall b | b in s.cs && b != s.top ensures SameSize(s, s', b) { assert ChunkOk(s, b); }
    assert Kept(s, s', 0);
    NotZero(s, segs, live);
    RecordsKept(s, s', segs, 0);
    UnusedNoRecord(s, segs, s.top);
    SplitSegments(s, s', segs, s.top, nb);
    LiveKept(s, s', live, 0);
    NewBlock(s, s', segs, segs, live, nb, s.top);
    forall b ensures BinnedAt(s', sbc, tbc, b) {
      assert BinnedAt(s, sbc, tbc, b);
    }
  }

  // ---- Freeing ----

  /** What is known about the neighbours of a used chunk. */
  lemma Neighbours(s: State, p: int)
    requires WellFormed(s) && Used(s, p)
    ensures Next(s.m, p) in s.cs && Next(s.m, p) in s.m && Next(s.m, p) !in s.fs
    ensures var n := Next(s.m, p);
            !s.m[n].c ==>
                n == s.top || (Free(s, n) && Next(s.m, n) in s.cs && Next(s.m, n) in s.m && s.m[Next(s.m, n)].c
                && Next(s.m, n) !in s.fs)
    ensures !s.m[p].p ==>
              var b := p - s.m[p].foot;
              Free(s, b) && Next(s.m, b) == p && b < p && s.m[b].p && p !in s.fs
  {
    At(s, p);
    var n := Next(s.m, p);
    if !s.m[n].c && n != s.top {
      if n in s.ls {
        assert LastOk(s, n);
        At(s, s.top);
        Elsewhere(s, p, s.top);
      }
      At(s, n);
    }
    if !s.m[p].p {
      var b := p - s.m[p].foot;
      FreePinuse(s, b);
    }
  }

  /** From a on, used chunk p and free neighbours up to the chunk z. */
  ghost predicate Absorbs(s: State, p: int, a: int, z: int, gone: set<int>) {
    && Used(s, p) && Inner(s, a) && a in s.m && s.m[a].p && Between(s, a, z, gone)
    && (p == a || p in gone)
    && (forall x :: x in gone || x == a ==> x == p || Free(s, x))
  }

  function MergeState(s: State, a: int, z: int, gone: set<int>, dv: int): State
    requires a < z && z in s.m
  {
    s.(m := Merge(s.m, a, z), cs := s.cs - gone, dv := dv)
  }

  /** Freeing p makes one free chunk from a to the used chunk z. */
  lemma FreedInto(s: State, sbc: map<int, nat>, tbc: map<int, nat>, segs: seq<Segment>, live: map<int, nat>,
                  p: int, a: int, z: int, gone: set<int>, dv: int)
    requires Inv(s, sbc, tbc, segs, live) && Absorbs(s, p, a, z, gone)
    requires z in s.cs && z in s.m && s.m[z].c && z !in s.fs && s.m[p].size >= MIN_CHUNK_SIZE && NoRecord(segs, p)
    requires dv == if s.dv in gone || s.dv == a then a else s.dv
    ensures a < z
    ensures var s' := MergeState(s, a, z, gone, dv);
            var sbc', tbc' := sbc - gone - {a}, tbc - gone - {a};
            && Inv(s', if a == dv then sbc' else AddSmall(sbc', a, z - a), if a == dv then tbc'
                else AddLarge(tbc', a, z - a), segs, live - {p})
            && Kept(s, s', p)
  {
    InvOpened(s, sbc, tbc, segs, live);
    var s' := MergeState(s, a, z, gone, dv);
    MergeLong(s, p, a, z, gone);
    NotZero(s, segs, live);
    MergeOk(s, a, z, gone, dv);
    forall b | b in s.cs && b != a ensures SameSize(s, s', b) { assert ChunkOk(s, b); }
    assert Kept(s, s', p);
    RecordsKept(s, s', segs, p);
    if a != p {
      assert Free(s, a);
      UnusedNoRecord(s, segs, a);
      At(s, a);
    }
    MergedSegments(s, s', segs, a, z, gone);
    LiveLess(s, s', live, p);
    MergedBins(s, sbc, tbc, p, a, z, gone, dv);
  }

  lemma MergeLong(s: State, p: int, a: int, z: int, gone: set<int>)
    requires WellFormed(s) && Absorbs(s, p, a, z, gone) && z in s.cs && s.m[p].size >= MIN_CHUNK_SIZE
    ensures z - a >= MIN_CHUNK_SIZE && a != s.top
  {
    At(s, p);
    Elsewhere(s, p, z);
  }

  lemma MergedSegments(s: State, s': State, segs: seq<Segment>, a: int, z: int, gone: set<int>)
    requires WellFormed(s) && Segmented(s, segs) && Inner(s, a) && z in s.cs && Between(s, a, z, gone)
    requires s'.cs == s.cs - gone && s'.ls == s.ls && s'.fs == s.fs && s'.top == s.top
    requires forall b :: b in s.cs && b != a ==> SameSize(s, s', b)
    requires a in s'.m && s'.m[a].size == z - a
    requires forall k {:trigger Recorded(s', segs, k)} :: Recorded(s', segs, k)
    requires NoRecord(segs, a) && a in s.m && s.m[a].size != 8
    ensures Segmented(s', segs)
  {
    var y :| Inner(s, y) && a <= y < z && y in s.m && Next(s.m, y) == z;
    forall x | x in s.cs && a < x < z
      ensures x <= y
    {
      if x > y { Elsewhere(s, y, x); }
    }
    MergeSegments(s, s', segs, a, y, gone);
  }

  /** The blocks other than p stay live. */
  lemma LiveLess(s: State, s': State, live: map<int, nat>, p: int)
    requires Kept(s, s', p)
    requires forall b {:trigger LiveAt(s, live, b)} :: LiveAt(s, live, b)
    ensures forall b {:trigger LiveAt(s', live - {p}, b)} :: LiveAt(s', live - {p}, b)
  {
    forall b ensures LiveAt(s', live - {p}, b) { assert LiveAt(s, live, b); assert Used(s, b) || !Used(s, b); }
  }

  lemma MergedBins(s: State, sbc: map<int, nat>, tbc: map<int, nat>, p: int, a: int, z: int, gone: set<int>, dv: int)
    requires WellFormed(s) && Absorbs(s, p, a, z, gone) && z in s.m && s.m[z].c && z in s.cs && a < z && a != s.top
    requires forall b {:trigger BinnedAt(s, sbc, tbc, b)} :: BinnedAt(s, sbc, tbc, b)
    requires dv == if s.dv in gone || s.dv == a then a else s.dv
    ensures var s' := MergeState(s, a, z, gone, dv);
            var sbc', tbc' := sbc - gone - {a}, tbc - gone - {a};
            var sbc'', tbc'' := if a == dv then sbc' else AddSmall(sbc', a, z - a), if a == dv then tbc'
                else AddLarge(tbc', a, z - a);
            forall b {:trigger BinnedAt(s', sbc'', tbc'', b)} :: BinnedAt(s', sbc'', tbc'', b)
  {
    var s' := MergeState(s, a, z, gone, dv);
    var sbc', tbc' := sbc - gone - {a}, tbc - gone - {a};
    var sbc'', tbc'' := if a == dv then sbc' else AddSmall(sbc', a, z - a), if a == dv then tbc'
        else AddLarge(tbc', a, z - a);
    forall b ensures BinnedAt(s', sbc'', tbc'', b) {
      assert BinnedAt(s, sbc, tbc, b);
    }
  }

  function MergeTopState(s: State, a: int, gone: set<int>, dv: int): State
    requires s.top in s.m
  {
    s.(m := SetTop(s.m, a, Next(s.m, s.top) - a), cs := s.cs - gone, top := a, dv := dv)
  }

  /** Freeing p extends top down to a. */
  lemma FreedIntoTop(s: State, sbc: map<int, nat>, tbc: map<int, nat>, segs: seq<Segment>, live: map<int, nat>,
                     p: int, a: int, gone: set<int>, dv: int)
    requires Inv(s, sbc, tbc, segs, live) && Used(s, p) && Inner(s, a) && a in s.m && s.m[a].p && a < s.top
    requires s.m[p].size >= MIN_CHUNK_SIZE && NoRecord(segs, p)
    requires gone == (set x | x in s.cs && a < x <= s.top) && (p == a || p in gone)
    requires forall x :: x in gone ==> x !in s.fs && x !in s.ls
    requires forall x :: (x in gone || x == a) && x != s.top ==> x == p || Free(s, x)
    requires dv == if s.dv in gone || s.dv == a then 0 else s.dv
    ensures s.top in s.m
    ensures var s' := MergeTopState(s, a, gone, dv);
            Inv(s', sbc - gone - {a}, tbc - gone - {a}, segs, live - {p}) && Kept(s, s', p)
  {
    InvOpened(s, sbc, tbc, segs, live);
    var s' := MergeTopState(s, a, gone, dv);
    NotZero(s, segs, live);
    MergeTopOk(s, a, gone, dv);
    forall b | b in s.cs && b != a ensures SameSize(s, s', b) { assert ChunkOk(s, b); }
    assert Kept(s, s', p);
    RecordsKept(s, s', segs, p);
    if a != p {
      assert Free(s, a);
      UnusedNoRecord(s, segs, a);
      At(s, a);
    }
    MergeSegments(s, s', segs, a, s.top, gone);
    LiveLess(s, s', live, p);
    forall b ensures BinnedAt(s', sbc - gone - {a}, tbc - gone - {a}, b) {
      assert BinnedAt(s, sbc, tbc, b);
      if b in s.cs && b !in gone && b > a { Elsewhere(s, s.top, b); }
    }
  }

  // ---- realloc ----

  lemma SplitOfUsed(s: State, sbc: map<int, nat>, tbc: map<int, nat>, segs: seq<Segment>, live: map<int, nat>, a: int,
                    nb: int)
    requires Inv(s, sbc, tbc, segs, live) && Used(s, a) && nb > 0 && nb % 8 == 0 && nb + MIN_CHUNK_SIZE <= s.m[a].size
    requires NoRecord(segs, a)
    ensures Next(s.m, a) in s.m
    ensures var s' := s.(m := SplitUsed(s.m, a, nb, s.m[a].size), cs := s.cs + {a + nb});
            && Inv(s', sbc, tbc, segs, live - {a}) && Kept(s, s', a)
            && Used(s', a) && s'.m[a].size == nb && Used(s', a + nb) && s'.m[a + nb].size == s.m[a].size - nb
            && !Used(s, a + nb) && NoRecord(segs, a + nb)
  {
    InvOpened(s, sbc, tbc, segs, live);
    At(s, a);
    var s' := s.(m := SplitUsed(s.m, a, nb, s.m[a].size), cs := s.cs + {a + nb});
    SplitUsedOk(s, a, nb);
    forall b | b in s.cs && b != a ensures SameSize(s, s', b) { assert ChunkOk(s, b); }
    assert Kept(s, s', a);
    RecordsKept(s, s', segs, a);
    SplitSegments(s, s', segs, a, nb);
    LiveLess(s, s', live, a);
    UnusedNoRecord(s, segs, a + nb);
    forall b ensures BinnedAt(s', sbc, tbc, b) {
      assert BinnedAt(s, sbc, tbc, b);
    }
  }

  lemma ExpandedIntoTop(s: State, sbc: map<int, nat>, tbc: map<int, nat>, segs: seq<Segment>, live: map<int, nat>,
                        a: int, nb: int)
    requires Inv(s, sbc, tbc, segs, live) && Used(s, a) && Next(s.m, a) == s.top && s.top in s.m
    requires nb > s.m[a].size && nb % 8 == 0 && nb < s.m[a].size + s.m[s.top].size && NoRecord(segs, a)
    ensures var s' := s.(m := Expand(s.m, a, nb, s.m[a].size + s.m[s.top].size), cs := s.cs - {s.top} + {a + nb},
              top := a + nb);
            && Inv(s', sbc, tbc, segs, live) && Kept(s, s', a)
            && Used(s', a) && s'.m[a].size == nb
  {
    InvOpened(s, sbc, tbc, segs, live);
    var s' := s.(m := Expand(s.m, a, nb, s.m[a].size + s.m[s.top].size), cs := s.cs - {s.top} + {a + nb},
        top := a + nb);
    At(s, a);
    At(s, s.top);
    if a + nb in s.cs { Elsewhere(s, s.top, a + nb); }
    ExpandOk(s, a, nb);
    forall b | b in s.cs && b != a && b != s.top ensures SameSize(s, s', b) { assert ChunkOk(s, b); }
    assert Kept(s, s', a);
    RecordsKept(s, s', segs, a);
    ExpandSegments(s, s', segs, a, nb);
    forall b ensures LiveAt(s', live, b) { assert LiveAt(s, live, b); assert Used(s, b) || !Used(s, b); }
    forall b ensures BinnedAt(s', sbc, tbc, b) {
      assert BinnedAt(s, sbc, tbc, b);
    }
  }

  // ---- The blocks involved in freeing p ----

  /** a is p itself, or the free chunk right before it. */
  ghost predicate StartsAt(s: State, p: int, a: int) {
    && Used(s, p) && a in s.m && s.m[a].p && Inner(s, a)
    && (a == p || (Free(s, a) && Next(s.m, a) == p && p !in s.fs))
  }

  lemma Front(s: State, p: int) returns (a: int)
    requires WellFormed(s) && Used(s, p)
    ensures a == (if s.m[p].p then p else p - s.m[p].foot)
    ensures StartsAt(s, p, a) && a <= p
    ensures !s.m[p].p ==> s.m[p].foot == s.m[a].size && s.m[p].foot > 0
  {
    Neighbours(s, p);
    At(s, p);
    a := if s.m[p].p then p else p - s.m[p].foot;
    At(s, a);
  }

  /** From a over p up to the next chunk. */
  lemma UpToNext(s: State, p: int, a: int)
    requires WellFormed(s) && StartsAt(s, p, a)
    ensures Next(s.m, p) in s.cs && Next(s.m, p) in s.m && a < Next(s.m, p)
    ensures s.m[Next(s.m, p)].c ==> Next(s.m, p) !in s.fs && Absorbs(s, p, a, Next(s.m, p), {p} - {a})
  {
    Neighbours(s, p);
    At(s, p);
    At(s, a);
    forall x | x in s.cs && a < x < Next(s.m, p)
      ensures x == p
    {
      if x != p { Elsewhere(s, p, x); Elsewhere(s, a, x); }
    }
  }

  /** From a over p and the free chunk behind it. */
  lemma OverNext(s: State, p: int, a: int)
    requires WellFormed(s) && StartsAt(s, p, a)
    requires Next(s.m, p) in s.m && !s.m[Next(s.m, p)].c && Next(s.m, p) != s.top
    ensures var n := Next(s.m, p);
            && Free(s, n) && a < Next(s.m, n)
            && Next(s.m, n) in s.cs && Next(s.m, n) in s.m && s.m[Next(s.m, n)].c && Next(s.m, n) !in s.fs
                && !s.m[Next(s.m, n)].p
            && Absorbs(s, p, a, Next(s.m, n), {p, n} - {a}) && n != a
  {
    Neighbours(s, p);
    At(s, p);
    At(s, a);
    var n := Next(s.m, p);
    At(s, n);
    forall x | x in s.cs && a < x < Next(s.m, n)
      ensures x == p || x == n
    {
      if x != p && x != n { Elsewhere(s, p, x); Elsewhere(s, a, x); Elsewhere(s, n, x); }
    }
  }

  /** From a over p up to the end of top. */
  lemma UpToTop(s: State, p: int, a: int)
    requires WellFormed(s) && StartsAt(s, p, a) && Next(s.m, p) == s.top
    ensures a < s.top
    ensures {p, s.top} - {a} == set x | x in s.cs && a < x <= s.top
    ensures forall x :: x in {p, s.top} - {a} ==> x !in s.fs && x !in s.ls
  {
    Neighbours(s, p);
    At(s, p);
    At(s, a);
    forall x | x in s.cs && a < x <= s.top
      ensures x == p || x == s.top
    {
      if x != p && x != s.top { Elsewhere(s, p, x); Elsewhere(s, a, x); }
    }
  }

  lemma KeptTrans(s: State, s': State, s'': State, x: int)
    requires Kept(s, s', x) && Kept(s', s'', x)
    ensures Kept(s, s'', x)
  {
    forall a | Used(s, a) && a != x
      ensures Used(s'', a) && s''.m[a].size == s.m[a].size
    {
      assert Used(s', a);
    }
  }

  /** A block handed out becomes live. */
  lemma LiveAdded(s: State, sbc: map<int, nat>, tbc: map<int, nat>, segs: seq<Segment>, live: map<int, nat>, p: int,
                  size: nat)
    requires Inv(s, sbc, tbc, segs, live) && Used(s, p) && size + 8 <= s.m[p].size && s.m[p].size >= MIN_CHUNK_SIZE
    requires NoRecord(segs, p)
    ensures Inv(s, sbc, tbc, segs, live[p := size])
  {
    InvOpened(s, sbc, tbc, segs, live);
    var live' := live[p := size];
    forall a ensures LiveAt(s, live', a) { assert LiveAt(s, live, a); }
  }

  lemma LiveDropped(s: State, sbc: map<int, nat>, tbc: map<int, nat>, segs: seq<Segment>, live: map<int, nat>, p: int)
    requires Inv(s, sbc, tbc, segs, live)
    ensures Inv(s, sbc, tbc, segs, live - {p})
    ensures p in live ==> Used(s, p) && p !in sbc && s.m[p].size >= MIN_CHUNK_SIZE && NoRecord(segs, p)
  {
    InvOpened(s, sbc, tbc, segs, live);
    assert LiveAt(s, live, p) && BinnedAt(s, sbc, tbc, p);
    var live' := live - {p};
    forall a ensures LiveAt(s, live', a) { assert LiveAt(s, live, a); }
  }

  /** The live blocks keep their sizes. */
  ghost predicate LiveSame(s: State, s': State, live: map<int, nat>) {
    forall a :: a in live ==> a in s.m && a in s'.m && s'.m[a].size == s.m[a].size
  }

  lemma LiveSameRefl(s: State, sbc: map<int, nat>, tbc: map<int, nat>, segs: seq<Segment>, live: map<int, nat>)
    requires Inv(s, sbc, tbc, segs, live)
    ensures LiveSame(s, s, live)
  {
    InvOpened(s, sbc, tbc, segs, live);
    forall a | a in live ensures a in s.m { assert LiveAt(s, live, a); }
  }

  lemma LiveSameTrans(s: State, s': State, s'': State, live: map<int, nat>)
    requires LiveSame(s, s', live) && LiveSame(s', s'', live)
    ensures LiveSame(s, s'', live)
  {
  }

  lemma LiveSameKept(s: State, s': State, sbc: map<int, nat>, tbc: map<int, nat>, segs: seq<Segment>,
                     live: map<int, nat>, x: int)
    requires Inv(s, sbc, tbc, segs, live) && Kept(s, s', x) && x !in live
    ensures LiveSame(s, s', live)
  {
    InvOpened(s, sbc, tbc, segs, live);
    forall a | a in live ensures a in s.m && a in s'.m && s'.m[a].size == s.m[a].size { assert LiveAt(s, live, a); }
  }

  // ---- realloc, given the writes ----

  lemma SplitUsedDone(s: State, sbc: map<int, nat>, tbc: map<int, nat>, segs: seq<Segment>, live: map<int, nat>,
                      a: int, nb: int, size: nat, dvsize: nat, topsize: nat)
    requires Inv(s, sbc, tbc, segs, live) && Used(s, a) && a in live && Sized(s, dvsize, topsize)
    requires MIN_CHUNK_SIZE <= nb && nb % 8 == 0 && nb + MIN_CHUNK_SIZE <= s.m[a].size && size + 8 <= nb
    ensures Next(s.m, a) in s.m
    ensures var s' := s.(m := SplitUsed(s.m, a, nb, s.m[a].size), cs := s.cs + {a + nb});
            && Inv(s', sbc, tbc, segs, live[a := size]) && Sized(s', dvsize, topsize)
            && Used(s', a + nb) && s'.m[a + nb].size == s.m[a].size - nb
            && NoRecord(segs, a + nb) && a + nb !in live && LiveSame(s, s', live - {a})
  {
    InvOpened(s, sbc, tbc, segs, live);
    SplitOfUsed(s, sbc, tbc, segs, live, a, nb);
    var s' := s.(m := SplitUsed(s.m, a, nb, s.m[a].size), cs := s.cs + {a + nb});
    assert LiveAt(s, live, a + nb) && BinnedAt(s, sbc, tbc, a);
    UsedSized(s, a, nb);
    LiveAdded(s', sbc, tbc, segs, live - {a}, a, size);
    assert (live - {a})[a := size] == live[a := size];
    LiveDropped(s, sbc, tbc, segs, live, a);
    LiveSameKept(s, s', sbc, tbc, segs, live - {a}, a);
  }

  lemma UsedSized(s: State, a: int, nb: int)
    requires WellFormed(s) && Used(s, a) && 0 < nb < s.m[a].size
    ensures a != s.top && a != s.dv && a + nb != s.top && a + nb != s.dv
    ensures s.dv == 0 || s.dv in s.m
  {
    At(s, a);
    Elsewhere(s, a, s.top);
    if s.dv != 0 { Elsewhere(s, a, s.dv); }
  }

  lemma ExpandDone(s: State, sbc: map<int, nat>, tbc: map<int, nat>, segs: seq<Segment>, live: map<int, nat>,
                   a: int, nb: int, size: nat, dvsize: nat, topsize: nat)
    requires Inv(s, sbc, tbc, segs, live) && Used(s, a) && a in live && Next(s.m, a) == s.top
               && Sized(s, dvsize, topsize)
    requires MIN_CHUNK_SIZE <= nb && nb > s.m[a].size && nb % 8 == 0 && nb < s.m[a].size + topsize && size + 8 <= nb
    ensures var s' := s.(m := Expand(s.m, a, nb, s.m[a].size + topsize), cs := s.cs - {s.top} + {a + nb},
              top := a + nb);
            && Inv(s', sbc, tbc, segs, live[a := size]) && Sized(s', dvsize, s.m[a].size + topsize - nb)
            && LiveSame(s, s', live - {a})
  {
    InvOpened(s, sbc, tbc, segs, live);
    var s' := s.(m := Expand(s.m, a, nb, s.m[a].size + topsize), cs := s.cs - {s.top} + {a + nb}, top := a + nb);
    LiveDropped(s, sbc, tbc, segs, live, a);
    ExpandedIntoTop(s, sbc, tbc, segs, live, a, nb);
    LiveAdded(s', sbc, tbc, segs, live, a, size);
    LiveSameKept(s, s', sbc, tbc, segs, live - {a}, a);
    At(s, a);
    At(s, s.top);
    if s.dv != 0 { Elsewhere(s, s.top, s.dv); Elsewhere(s, a, s.dv); }
  }

  // ---- What the invariant means for the user ----

  /** Bytes from a chunk to the memory it hands out. */
  const CHUNK2MEM: nat := 16

  /** The bytes that the block in chunk a promises to its user. */
  ghost predicate InPayload(live: map<int, nat>, a: int, x: int) {
    a in live && a + CHUNK2MEM <= x < a + CHUNK2MEM + live[a]
  }

  /**
   * The bytes that the allocator uses for chunk c: its head, the foot before it if that is valid,
   * and all of a free chunk.
   */
  ghost predicate InBookkeeping(s: State, c: int, x: int) {
    && c in s.cs && c in s.m
    && (c + 8 <= x < c + 16
        || (!s.m[c].p && c <= x < c + 8)
        || ((Free(s, c) || c == s.top) && c + 8 <= x < Next(s.m, c) + 8))
  }

  /** Live blocks are aligned, and no two of them share a byte. */
  lemma LiveBlocksApart(s: State, sbc: map<int, nat>, tbc: map<int, nat>, segs: seq<Segment>, live: map<int, nat>,
                        a: int, b: int, x: int)
    requires Inv(s, sbc, tbc, segs, live) && InPayload(live, a, x)
    ensures (a + CHUNK2MEM) % 8 == 0
    ensures InSome(segs, a) && x < ADDRESS_LIMIT + 8
    ensures InPayload(live, b, x) ==> a == b
  {
    InvOpened(s, sbc, tbc, segs, live);
    assert LiveAt(s, live, a) && LiveAt(s, live, b) && InSome(segs, a);
    At(s, a);
    if b in live && a != b { Elsewhere(s, a, b); }
  }

  /** The allocator keeps its own data out of the live blocks. */
  lemma BookkeepingApart(s: State, sbc: map<int, nat>, tbc: map<int, nat>, segs: seq<Segment>, live: map<int, nat>,
                         a: int, c: int, x: int)
    requires Inv(s, sbc, tbc, segs, live) && InPayload(live, a, x)
    ensures !InBookkeeping(s, c, x)
  {
    InvOpened(s, sbc, tbc, segs, live);
    assert LiveAt(s, live, a);
    At(s, a);
    if c in s.cs && c != a {
      Elsewhere(s, a, c);
      At(s, c);
      if c == Next(s.m, a) { PrevOfFree(s, a, c); }
    }
  }

  /** Right behind a used chunk the foot is not valid. */
  lemma PrevOfFree(s: State, a: int, c: int)
    requires WellFormed(s) && Used(s, a) && c == Next(s.m, a)
    ensures c in s.m && s.m[c].p
  {
    At(s, a);
  }
}
