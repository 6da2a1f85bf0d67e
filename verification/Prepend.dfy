/**
 * prepend_alloc of lj_alloc.c: a region right below a segment extends it
 * downwards; its front is handed out, the rest joins the segment's first chunk
 * unless that one is in use.
 */
module Prepend {
  import BinMap
  import opened Chunks
  import opened Segments
  import opened HeapInv
  import opened Regions

  /** Where the free remainder of the new region ends. */
  function RestEnd(s: State, first: int): int
    requires first in s.m
  {
    if s.m[first].c then first else Next(s.m, first)
  }

  function Joined(s: State, first: int): set<int>
    requires first in s.m
  {
    if s.m[first].c then {} else {first}
  }

  function ExtendDown(segs: seq<Segment>, k: nat, base: int, size: int): seq<Segment>
    requires k < |segs|
  {
    segs[k := Segment(base, segs[k].size + size, segs[k].rec)]
  }

  /** The new region of the given size at base ends where segment k begins. */
  ghost predicate Below(s: State, segs: seq<Segment>, k: nat, base: int, size: int, nb: int) {
    && WellFormed(s) && Segmented(s, segs) && k < |segs|
    && FreshRegion(segs, base, size) && base + size == segs[k].base
    && nb > 0 && nb % 8 == 0 && nb + MIN_CHUNK_SIZE <= size
  }

  ghost predicate Prepended(s: State, s': State, segs: seq<Segment>, k: nat, base: int, size: int, nb: int) {
    && Below(s, segs, k, base, size, nb)
    && var first, q := segs[k].base, base + nb;
    && first in s.m
    && var z := RestEnd(s, first);
    && s'.cs == s.cs - Joined(s, first) + {base, q}
    && s'.ls == s.ls && s'.fs == s.fs - {first} + {base}
    && s'.top == (if first == s.top then q else s.top)
    && s'.dv == (if first == s.dv then q else s.dv)
    && base in s'.m && s'.m[base].size == nb && s'.m[base].c && s'.m[base].p
    && q in s'.m && s'.m[q].size == z - q && !s'.m[q].c && s'.m[q].p
    && z in s.m && z in s'.m
    && (first != s.top ==> s'.m[z] == s.m[z].(foot := z - q, p := false))
    && (first == s.top ==> s'.m[z] == s.m[z])
    && (forall b :: b in s.cs && b !in Joined(s, first) && b != z ==> b in s.m && b in s'.m && s'.m[b] == s.m[b])
  }

  /** The first chunk of a segment, and the end of the remainder. */
  lemma FirstChunk(s: State, segs: seq<Segment>, k: nat)
    requires WellFormed(s) && Segmented(s, segs) && k < |segs|
    ensures var first := segs[k].base;
            && first in s.fs && first in s.cs && first in s.m && s.m[first].p && ChunkOk(s, first)
            && (!s.m[first].c ==> Inner(s, first) && Next(s.m, first) !in s.fs)
            && RestEnd(s, first) in s.cs && RestEnd(s, first) in s.m && RestEnd(s, first) >= first
            && (first != s.top ==> s.m[RestEnd(s, first)].c)
            && ChunkOk(s, RestEnd(s, first))
            && segs[k].Holds(RestEnd(s, first))
  {
    var first := segs[k].base;
    At(s, first);
    if !s.m[first].c {
      if first in s.ls {
        assert LastOk(s, first);
        At(s, s.top);
        assert false;
      }
      NextHeld(s, segs, k, first);
    }
  }

  /** The writes of prepend_alloc. */
  function PrependMem(s: State, first: int, base: int, nb: int): Memory
    requires first in s.m && RestEnd(s, first) in s.m && base + nb < first <= RestEnd(s, first)
  {
    var m := SetInuse(s.m, base, nb);
    var q, z := base + nb, RestEnd(s, first);
    if first == s.top then SetTop(m, q, z - q)
    else if first == s.dv then SetFree(m, q, z - q)
    else SetFree(SetPinuse(m, z, false), q, z - q)
  }

  function PrependState(s: State, first: int, base: int, nb: int): State
    requires first in s.m && RestEnd(s, first) in s.m && base + nb < first <= RestEnd(s, first)
  {
    var q := base + nb;
    State(PrependMem(s, first, base, nb), s.cs - Joined(s, first) + {base, q}, s.ls, s.fs - {first} + {base},
          if first == s.top then q else s.top, if first == s.dv then q else s.dv)
  }

  lemma PrependedBy(s: State, segs: seq<Segment>, k: nat, base: int, size: int, nb: int)
    requires Below(s, segs, k, base, size, nb)
    ensures var first := segs[k].base;
            && first in s.m && RestEnd(s, first) in s.m && base + nb < first <= RestEnd(s, first)
            && Prepended(s, PrependState(s, first, base, nb), segs, k, base, size, nb)
  {
    var first, q := segs[k].base, base + nb;
    FirstChunk(s, segs, k);
    At(s, first);
    var z := RestEnd(s, first);
    var s' := PrependState(s, first, base, nb);
    forall b | b in s.cs && b !in Joined(s, first) && b != z
      ensures b in s.m && b in s'.m && s'.m[b] == s.m[b]
    {
      BelowChunk(s, segs, k, base, size, nb, b);
    }
  }

  lemma PrependedSized(s: State, s': State, segs: seq<Segment>, k: nat, base: int, size: int, nb: int, dvsize: nat,
                       topsize: nat)
    requires Prepended(s, s', segs, k, base, size, nb) && Sized(s, dvsize, topsize)
    ensures var first, qsize := segs[k].base, size - nb;
            Sized(s', if first == s.dv then dvsize + qsize else dvsize, if first == s.top then topsize + qsize
                else topsize)
  {
    var first := segs[k].base;
    FirstChunk(s, segs, k);
    At(s, s.top);
    if s.dv != 0 { At(s, s.dv); }
    if first != s.top { Elsewhere(s, first, s.top); }
    if s.dv != 0 && first != s.dv { Elsewhere(s, first, s.dv); }
  }

  lemma BelowChunk(s: State, segs: seq<Segment>, k: nat, base: int, size: int, nb: int, b: int)
    requires Below(s, segs, k, base, size, nb) && b in s.cs
    ensures ChunkOk(s, b)
    ensures Next(s.m, b) <= base || b >= base + size
    ensures b >= base + size && b != segs[k].base ==> segs[k].base in s.m && b >= Next(s.m, segs[k].base)
  {
    assert ChunkOk(s, b) && InSome(segs, b);
    var j :| 0 <= j < |segs| && segs[j].Holds(b);
    assert Placed(s, segs, j, b);
    if b >= base + size && b != segs[k].base { Elsewhere(s, segs[k].base, b); }
  }

  lemma PrependLinked(s: State, s': State, segs: seq<Segment>, k: nat, base: int, size: int, nb: int, b: int)
    requires Prepended(s, s', segs, k, base, size, nb)
    ensures Linked(s', b)
  {
    var first, q := segs[k].base, base + nb;
    FirstChunk(s, segs, k);
    At(s, first);
    var z := RestEnd(s, first);
    if Inner(s', b) && b in s.cs && b !in Joined(s, first) && b != base && b != q {
      BelowChunk(s, segs, k, base, size, nb, b);
      At(s, b);
      PrependOld(s, s', segs, k, base, size, nb, b);
    } else {
      if base in s.ls { BelowChunk(s, segs, k, base, size, nb, base); }
      if q in s.fs { BelowChunk(s, segs, k, base, size, nb, q); }
    }
  }

  lemma PrependOld(s: State, s': State, segs: seq<Segment>, k: nat, base: int, size: int, nb: int, b: int)
    requires Prepended(s, s', segs, k, base, size, nb)
    requires Inner(s, b) && b !in Joined(s, segs[k].base)
    ensures Linked(s', b)
  {
    var first, q := segs[k].base, base + nb;
    FirstChunk(s, segs, k);
    At(s, first);
    var z := RestEnd(s, first);
    At(s, b);
    var n := Next(s.m, b);
    BelowChunk(s, segs, k, base, size, nb, n);
    assert n != first;
    if n == z { Elsewhere(s, first, b); }
    if q in s.ls { BelowChunk(s, segs, k, base, size, nb, q); }
  }

  lemma PrependApart(s: State, s': State, segs: seq<Segment>, k: nat, base: int, size: int, nb: int, b: int, c: int)
    requires Prepended(s, s', segs, k, base, size, nb)
    ensures Apart(s', b, c)
  {
    FirstChunk(s, segs, k);
    At(s, segs[k].base);
    if b in s.cs { BelowChunk(s, segs, k, base, size, nb, b); }
    if c in s.cs { BelowChunk(s, segs, k, base, size, nb, c); }
    assert Apart(s, b, c);
  }

  lemma PrependWellFormed(s: State, s': State, segs: seq<Segment>, k: nat, base: int, size: int, nb: int)
    requires Prepended(s, s', segs, k, base, size, nb)
    ensures WellFormed(s')
  {
    var first, q := segs[k].base, base + nb;
    FirstChunk(s, segs, k);
    At(s, first);
    var z := RestEnd(s, first);
    forall b | b in s'.cs ensures ChunkOk(s', b) {
      if b in s.cs { BelowChunk(s, segs, k, base, size, nb, b); }
    }
    forall b, c ensures Apart(s', b, c) { PrependApart(s, s', segs, k, base, size, nb, b, c); }
    forall b ensures LastOk(s', b) {
      assert LastOk(s, b);
      if b in s.ls { assert b !in Joined(s, first); }
    }
    forall b ensures Linked(s', b) { PrependLinked(s, s', segs, k, base, size, nb, b); }
    forall b | b in s'.fs ensures b in s'.m && s'.m[b].p {
      if b != base { assert b in s.cs && b != z; }
    }
    PrependTop(s, s', segs, k, base, size, nb);
  }

  lemma PrependTop(s: State, s': State, segs: seq<Segment>, k: nat, base: int, size: int, nb: int)
    requires Prepended(s, s', segs, k, base, size, nb)
    ensures TopOk(s') && DvOk(s')
  {
    var first, q := segs[k].base, base + nb;
    FirstChunk(s, segs, k);
    At(s, first);
    At(s, s.top);
    var z := RestEnd(s, first);
    var f := Next(s.m, s.top);
    if q in s.ls { BelowChunk(s, segs, k, base, size, nb, q); }
    if first != s.top {
      Elsewhere(s, first, s.top);
      assert f != first && f != z;
      assert f !in Joined(s, first);
    }
    if s.dv != 0 {
      BelowChunk(s, segs, k, base, size, nb, s.dv);
      assert s.dv != first ==> s.dv != z;
    }
  }

  lemma PrependKept(s: State, s': State, segs: seq<Segment>, k: nat, base: int, size: int, nb: int)
    requires Prepended(s, s', segs, k, base, size, nb)
    ensures Kept(s, s', 0) && !Used(s, base) && Used(s', base) && base != 0
  {
    var first := segs[k].base;
    FirstChunk(s, segs, k);
    if base in s.cs { BelowChunk(s, segs, k, base, size, nb, base); }
    forall b | Used(s, b) ensures Used(s', b) && s'.m[b].size == s.m[b].size {
      assert b !in Joined(s, first);
    }
  }

  lemma PrependPlaced(s: State, s': State, segs: seq<Segment>, k: nat, base: int, size: int, nb: int, j: nat, b: int)
    requires Prepended(s, s', segs, k, base, size, nb)
    ensures Placed(s', ExtendDown(segs, k, base, size), j, b)
  {
    var first, q := segs[k].base, base + nb;
    var segs' := ExtendDown(segs, k, base, size);
    FirstChunk(s, segs, k);
    At(s, first);
    var z := RestEnd(s, first);
    assert Placed(s, segs, j, b) && Separate(segs, j, k) && Placed(s, segs, k, first) && Placed(s, segs, k, z);
    assert Recorded(s, segs, k);
    if b in s'.cs && j < |segs'| && segs'[j].Holds(b) {
      assert j != k ==> segs[j].End() <= base || base + size <= segs[j].base;
      if b in s.cs {
        BelowChunk(s, segs, k, base, size, nb, b);
      } else {
        if base in s.ls { BelowChunk(s, segs, k, base, size, nb, base); }
        if q in s.ls { BelowChunk(s, segs, k, base, size, nb, q); }
      }
    }
  }

  lemma PrependInSome(s: State, s': State, segs: seq<Segment>, k: nat, base: int, size: int, nb: int, b: int)
    requires Prepended(s, s', segs, k, base, size, nb) && b in s'.cs
    ensures InSome(ExtendDown(segs, k, base, size), b)
  {
    var segs' := ExtendDown(segs, k, base, size);
    FirstChunk(s, segs, k);
    if b in s.cs {
      assert InSome(segs, b);
      var j :| 0 <= j < |segs| && segs[j].Holds(b);
      assert segs'[j].Holds(b);
    } else {
      assert segs'[k].Holds(b);
    }
  }

  lemma PrependSegmented(s: State, s': State, segs: seq<Segment>, k: nat, base: int, size: int, nb: int)
    requires Prepended(s, s', segs, k, base, size, nb) && NoRecord(segs, 0)
    ensures Segmented(s', ExtendDown(segs, k, base, size))
  {
    var first, q := segs[k].base, base + nb;
    var segs' := ExtendDown(segs, k, base, size);
    FirstChunk(s, segs, k);
    PrependKept(s, s', segs, k, base, size, nb);
    RecordsKept(s, s', segs, 0);
    forall i, j ensures Separate(segs', i, j) { assert Separate(segs, i, j); }
    forall b | b in s'.cs ensures InSome(segs', b) { PrependInSome(s, s', segs, k, base, size, nb, b); }
    forall j: nat ensures Recorded(s', segs', j) { assert Recorded(s', segs, j); }
    forall j: nat, b ensures Placed(s', segs', j, b) { PrependPlaced(s, s', segs, k, base, size, nb, j, b); }
    forall j | 0 <= j < |segs'| ensures SegmentOk(segs'[j]) && segs'[j].base in s'.fs {
      assert Separate(segs, j, k);
    }
    assert Separate(segs, 0, k);
    if first == s.top { assert k == 0; }
  }

  /** prepend_alloc */
  lemma RegionPrepended(s: State, s': State, sbc: map<int, nat>, tbc: map<int, nat>, segs: seq<Segment>,
                        live: map<int, nat>,
                        k: nat, base: int, size: int, nb: int, rest: nat)
    requires Inv(s, sbc, tbc, segs, live) && Prepended(s, s', segs, k, base, size, nb)
    requires rest == RestEnd(s, segs[k].base) - (base + nb)
    ensures base + nb !in sbc && base + nb !in tbc
    ensures var first, q := segs[k].base, base + nb;
            var binned := first != s.top && first != s.dv;
            Inv(s', if binned then AddSmall(sbc - {first}, q, rest) else sbc, if binned
                then AddLarge(tbc - {first}, q, rest) else tbc,
                ExtendDown(segs, k, base, size), live)
            && GotBlock(s, s', ExtendDown(segs, k, base, size), live, nb, base)
  {
    InvOpened(s, sbc, tbc, segs, live);
    var first, q := segs[k].base, base + nb;
    var binned := first != s.top && first != s.dv;
    var sbc', tbc' := if binned then AddSmall(sbc - {first}, q, rest) else sbc, if binned
        then AddLarge(tbc - {first}, q, rest) else tbc;
    FirstChunk(s, segs, k);
    PrependWellFormed(s, s', segs, k, base, size, nb);
    NotZero(s, segs, live);
    PrependSegmented(s, s', segs, k, base, size, nb);
    PrependKept(s, s', segs, k, base, size, nb);
    LiveKept(s, s', live, 0);
    assert BinnedAt(s, sbc, tbc, q);
    if q in s.cs { BelowChunk(s, segs, k, base, size, nb, q); }
    PrependBins(s, s', sbc, tbc, segs, k, base, size, nb, rest);
    NewBlock(s, s', segs, ExtendDown(segs, k, base, size), live, nb, base);
    forall a | a in live ensures NoRecord(ExtendDown(segs, k, base, size), a) { assert NoRecord(segs, a); }
  }

  lemma PrependBins(s: State, s': State, sbc: map<int, nat>, tbc: map<int, nat>, segs: seq<Segment>,
                    k: nat, base: int, size: int, nb: int, rest: nat)
    requires Prepended(s, s', segs, k, base, size, nb)
    requires forall b {:trigger BinnedAt(s, sbc, tbc, b)} :: BinnedAt(s, sbc, tbc, b)
    requires rest == RestEnd(s, segs[k].base) - (base + nb)
    ensures var first, q := segs[k].base, base + nb;
            var binned := first != s.top && first != s.dv;
            var sbc', tbc' := if binned then AddSmall(sbc - {first}, q, rest) else sbc, if binned
                then AddLarge(tbc - {first}, q, rest) else tbc;
            forall b {:trigger BinnedAt(s', sbc', tbc', b)} :: BinnedAt(s', sbc', tbc', b)
  {
    var first, q := segs[k].base, base + nb;
    var binned := first != s.top && first != s.dv;
    var sbc', tbc' := if binned then AddSmall(sbc - {first}, q, rest) else sbc, if binned
        then AddLarge(tbc - {first}, q, rest) else tbc;
    FirstChunk(s, segs, k);
    PrependTop(s, s', segs, k, base, size, nb);
    forall b ensures BinnedAt(s', sbc', tbc', b) {
      assert BinnedAt(s, sbc, tbc, b);
      if b in s.cs { BelowChunk(s, segs, k, base, size, nb, b); }
      PrependFree(s, s', segs, k, base, size, nb, b);
    }
  }

  /** Which chunks are free after prepend_alloc. */
  lemma PrependFree(s: State, s': State, segs: seq<Segment>, k: nat, base: int, size: int, nb: int, b: int)
    requires Prepended(s, s', segs, k, base, size, nb)
    ensures var first, q := segs[k].base, base + nb;
            && (b != q && b != first ==> (Free(s', b) <==> Free(s, b)) && (Free(s, b) ==> b in s'.m && s'.m[b].size == s.m[b].size))
            && (b == q ==> !Free(s, b) && (Free(s', b) <==> first != s.top))
            && (b == first ==> !Free(s', b) && (Free(s, b) <==> !s.m[first].c && first != s.top))
  {
    var first, q := segs[k].base, base + nb;
    FirstChunk(s, segs, k);
    if b in s.cs { BelowChunk(s, segs, k, base, size, nb, b); }
    if q in s.ls { BelowChunk(s, segs, k, base, size, nb, q); }
  }

  /** What prepend_alloc finds out about the first chunk of segment k. */
  lemma PrependReady(s: State, sbc: map<int, nat>, tbc: map<int, nat>, segs: seq<Segment>, live: map<int, nat>,
                     k: nat, base: int, size: int, nb: int, dvsize: nat, topsize: nat)
    requires Inv(s, sbc, tbc, segs, live) && Below(s, segs, k, base, size, nb) && Sized(s, dvsize, topsize)
    ensures var first := segs[k].base;
            && first in s.m && first % 8 == 0 && RestEnd(s, first) in s.m
            && (first == s.top ==> s.m[s.top].size == topsize && !s.m[s.top].c)
            && (first == s.dv ==> s.m[s.dv].size == dvsize && !s.m[s.dv].c && first != s.top)
            && (!s.m[first].c && first != s.top && first != s.dv ==> BinnedIn(first, s.m[first].size, sbc, tbc))
            && (s.m[first].c ==> first !in sbc && first !in tbc)
            && base + nb < first <= RestEnd(s, first) && base + nb !in sbc && base + nb !in tbc
            && RestEnd(s, first) % 8 == 0 && RestEnd(s, first) < ADDRESS_LIMIT
  {
    InvOpened(s, sbc, tbc, segs, live);
    FirstChunk(s, segs, k);
    if base + nb in s.cs { BelowChunk(s, segs, k, base, size, nb, base + nb); }
    assert BinnedAt(s, sbc, tbc, base + nb);
    assert BinnedAt(s, sbc, tbc, segs[k].base);
    At(s, s.top);
    At(s, RestEnd(s, segs[k].base));
  }

  /** prepend_alloc, given the writes. */
  lemma PrependDone(s: State, sbc: map<int, nat>, tbc: map<int, nat>, segs: seq<Segment>, live: map<int, nat>,
                    k: nat, base: int, size: int, nb: int, dvsize: nat, topsize: nat)
    requires Inv(s, sbc, tbc, segs, live) && Below(s, segs, k, base, size, nb) && Sized(s, dvsize, topsize)
    ensures var first, q, qsize := segs[k].base, base + nb, size - nb;
            && first in s.m && RestEnd(s, first) in s.m && base + nb < first <= RestEnd(s, first)
            && var s', rest := PrependState(s, first, base, nb), RestEnd(s, first) - q;
            && var binned := first != s.top && first != s.dv;
            && Inv(s', if binned then AddSmall(sbc - {first}, q, rest) else sbc, if binned
                then AddLarge(tbc - {first}, q, rest) else tbc,
                   ExtendDown(segs, k, base, size), live)
            && Sized(s', if first == s.dv then dvsize + qsize else dvsize, if first == s.top then topsize + qsize
                else topsize)
            && GotBlock(s, s', ExtendDown(segs, k, base, size), live, nb, base)
  {
    InvOpened(s, sbc, tbc, segs, live);
    PrependedBy(s, segs, k, base, size, nb);
    var s' := PrependState(s, segs[k].base, base, nb);
    PrependedSized(s, s', segs, k, base, size, nb, dvsize, topsize);
    RegionPrepended(s, s', sbc, tbc, segs, live, k, base, size, nb, RestEnd(s, segs[k].base) - (base + nb));
  }

  // ---- Releasing a segment ----

  /** The chunks of segment k. */
  function Inside(s: State, segs: seq<Segment>, k: nat): set<int>
    requires k < |segs|
  {
    set a | a in s.cs && segs[k].Holds(a)
  }

  function Remaining(segs: seq<Segment>, k: nat): seq<Segment>
    requires k < |segs|
  {
    segs[..k] + segs[k + 1..]
  }

  function ReleaseState(s: State, segs: seq<Segment>, k: nat): State
    requires k < |segs|
  {
    var gone := Inside(s, segs, k);
    s.(cs := s.cs - gone, ls := s.ls - gone, fs := s.fs - gone, dv := if s.dv in gone then 0 else s.dv)
  }

  /** The first chunk of segment k is free and reaches to the record. */
  ghost predicate Unused(s: State, segs: seq<Segment>, k: nat) {
    && WellFormed(s) && Segmented(s, segs) && 0 < k < |segs|
    && segs[k].base in s.m && !s.m[segs[k].base].c && Next(s.m, segs[k].base) >= segs[k].End() - TOP_FOOT_SIZE
  }

  lemma ReleaseWellFormed(s: State, segs: seq<Segment>, k: nat)
    requires WellFormed(s) && Segmented(s, segs) && 0 < k < |segs|
    ensures WellFormed(ReleaseState(s, segs, k))
  {
    var s' := ReleaseState(s, segs, k);
    assert Separate(segs, 0, k);
    NextHeld(s, segs, 0, s.top);
    forall b | b in s'.cs ensures ChunkOk(s', b) { assert ChunkOk(s, b); }
    forall b, c ensures Apart(s', b, c) { assert Apart(s, b, c); }
    forall b ensures LastOk(s', b) { assert LastOk(s, b); }
    forall b ensures Linked(s', b) {
      assert Linked(s, b);
      if Inner(s', b) { StaysOut(s, segs, k, b); }
    }
  }

  /** Neighbours of chunks outside segment k are outside it. */
  lemma StaysOut(s: State, segs: seq<Segment>, k: nat, b: int)
    requires WellFormed(s) && Segmented(s, segs) && k < |segs| && Inner(s, b) && !segs[k].Holds(b)
    ensures b in s.m && !segs[k].Holds(Next(s.m, b))
    ensures !s.m[b].p ==> !segs[k].Holds(b - s.m[b].foot)
  {
    assert InSome(segs, b);
    var j :| 0 <= j < |segs| && segs[j].Holds(b);
    NextHeld(s, segs, j, b);
    assert Separate(segs, j, k);
    At(s, b);
    if !s.m[b].p && segs[k].Holds(b - s.m[b].foot) {
      NextHeld(s, segs, k, b - s.m[b].foot);
    }
  }

  lemma ReleaseSegmented(s: State, segs: seq<Segment>, k: nat)
    requires WellFormed(s) && Segmented(s, segs) && 0 < k < |segs|
    ensures Segmented(ReleaseState(s, segs, k), Remaining(segs, k))
  {
    var s', segs' := ReleaseState(s, segs, k), Remaining(segs, k);
    assert forall j :: 0 <= j < |segs'| ==> segs'[j] == segs[if j < k then j else j + 1];
    forall i, j ensures Separate(segs', i, j) {
      assert Separate(segs, if i < k then i else i + 1, if j < k then j else j + 1);
    }
    forall b | b in s'.cs ensures InSome(segs', b) {
      assert InSome(segs, b);
      var j :| 0 <= j < |segs| && segs[j].Holds(b);
      assert segs'[if j < k then j else j - 1].Holds(b);
    }
    forall j: nat ensures Recorded(s', segs', j) {
      var j' := if j < k then j else j + 1;
      assert Recorded(s, segs, j') && Separate(segs, j', k);
    }
    forall j: nat, b ensures Placed(s', segs', j, b) {
      assert Placed(s, segs, if j < k then j else j + 1, b);
    }
    forall j | 0 <= j < |segs'| ensures SegmentOk(segs'[j]) && segs'[j].base in s'.fs {
      var j' := if j < k then j else j + 1;
      assert Separate(segs, j', k) && SegmentOk(segs[j']) && segs[j'].base in s.fs;
    }
    assert Separate(segs, 0, k);
  }

  /** A segment whose first chunk is free up to the record has no live block. */
  lemma UnusedChunks(s: State, segs: seq<Segment>, live: map<int, nat>, k: nat, a: int)
    requires Unused(s, segs, k) && a in s.cs && segs[k].Holds(a)
    requires (forall b {:trigger LiveAt(s, live, b)} :: LiveAt(s, live, b))
               && (forall b :: b in live ==> NoRecord(segs, b))
    ensures a !in live && (a == segs[k].base || !Free(s, a))
  {
    FirstChunk(s, segs, k);
    assert Placed(s, segs, k, a) && LiveAt(s, live, a) && Recorded(s, segs, k);
    var first := segs[k].base;
    if a != first { Elsewhere(s, first, a); }
    At(s, segs[k].rec);
    if a < segs[k].rec { Elsewhere(s, a, segs[k].rec); }
    if Free(s, a) { At(s, a); }
  }

  /** release_unused_segments: one segment is given back to the system. */
  lemma SegmentReleased(s: State, sbc: map<int, nat>, tbc: map<int, nat>, segs: seq<Segment>, live: map<int, nat>,
                        k: nat)
    requires Inv(s, sbc, tbc, segs, live) && Unused(s, segs, k)
    ensures Free(s, segs[k].base)
    ensures Inv(ReleaseState(s, segs, k), sbc - {segs[k].base}, tbc - {segs[k].base}, Remaining(segs, k), live)
    ensures forall a :: a in live ==> Used(ReleaseState(s, segs, k), a)
  {
    InvOpened(s, sbc, tbc, segs, live);
    var s', segs' := ReleaseState(s, segs, k), Remaining(segs, k);
    var first := segs[k].base;
    FirstChunk(s, segs, k);
    assert Separate(segs, 0, k);
    ReleaseWellFormed(s, segs, k);
    ReleaseSegmented(s, segs, k);
    NotZero(s, segs, live);
    forall b ensures BinnedAt(s', sbc - {first}, tbc - {first}, b) {
      assert BinnedAt(s, sbc, tbc, b);
      if b in s.cs && segs[k].Holds(b) { UnusedChunks(s, segs, live, k, b); }
    }
    forall b ensures LiveAt(s', live, b) {
      assert LiveAt(s, live, b);
      if b in s.cs && segs[k].Holds(b) { UnusedChunks(s, segs, live, k, b); }
    }
    forall a | a in live ensures NoRecord(segs', a) && Used(s', a) {
      assert NoRecord(segs, a) && LiveAt(s', live, a);
      assert forall j :: 0 <= j < |segs'| ==> segs'[j] == segs[if j < k then j else j + 1];
    }
  }

  /** What release_unused_segments relies on, and both its outcomes. */
  lemma ReleaseReady(s: State, sbc: map<int, nat>, tbc: map<int, nat>, segs: seq<Segment>, live: map<int, nat>, k: nat,
                     dvsize: nat, topsize: nat)
    requires Inv(s, sbc, tbc, segs, live) && Unused(s, segs, k) && segs[k].size >= BinMap.MIN_LARGE_SIZE + TOP_FOOT_SIZE
               && Sized(s, dvsize, topsize)
    ensures var first := segs[k].base;
            && Free(s, first) && first > 0 && BinMap.MIN_LARGE_SIZE <= s.m[first].size < ADDRESS_LIMIT && first !in sbc
            && (first == s.dv ==> first !in tbc) && (first != s.dv ==> first in tbc && tbc[first] == s.m[first].size)
            && sbc - {first} == sbc && (first == s.dv ==> tbc - {first} == tbc)
            && ReleaseState(s, segs, k).m == s.m && ReleaseState(s, segs, k).top == s.top
            && ReleaseState(s, segs, k).dv == (if s.dv == first then 0 else s.dv)
            && Inv(ReleaseState(s, segs, k), sbc, tbc - {first}, Remaining(segs, k), live)
            && LiveSame(s, ReleaseState(s, segs, k), live)
            && Sized(ReleaseState(s, segs, k), if s.dv == first then 0 else dvsize, topsize)
            && Inv(s.(dv := if s.dv == first then 0 else s.dv), sbc, (tbc - {first})[first := s.m[first].size], segs,
                live)
            && LiveSame(s, s, live)
            && Sized(s.(dv := if s.dv == first then 0 else s.dv), if s.dv == first then 0 else dvsize, topsize)
  {
    InvOpened(s, sbc, tbc, segs, live);
    var first := segs[k].base;
    SegmentReleased(s, sbc, tbc, segs, live, k);
    assert BinnedAt(s, sbc, tbc, first);
    At(s, first);
    assert sbc - {first} == sbc && (first == s.dv ==> tbc - {first} == tbc);
    LiveSameRefl(s, sbc, tbc, segs, live);
    ReleasedDv(s, sbc, tbc, segs, live, k);
    BackedOut(s, sbc, tbc, segs, live, first);
  }

  lemma ReleasedDv(s: State, sbc: map<int, nat>, tbc: map<int, nat>, segs: seq<Segment>, live: map<int, nat>, k: nat)
    requires Inv(s, sbc, tbc, segs, live) && Unused(s, segs, k)
    ensures s.dv in Inside(s, segs, k) <==> s.dv == segs[k].base
  {
    InvOpened(s, sbc, tbc, segs, live);
    FirstChunk(s, segs, k);
    if s.dv in s.cs && segs[k].Holds(s.dv) { UnusedChunks(s, segs, live, k, s.dv); }
  }

  /** The unmapping failed: the chunk goes to a tree bin, also if it was dv. */
  lemma BackedOut(s: State, sbc: map<int, nat>, tbc: map<int, nat>, segs: seq<Segment>, live: map<int, nat>, first: int)
    requires Inv(s, sbc, tbc, segs, live) && Free(s, first) && s.m[first].size >= BinMap.MIN_LARGE_SIZE
    ensures Inv(s.(dv := if s.dv == first then 0 else s.dv), sbc, (tbc - {first})[first := s.m[first].size], segs, live)
  {
    InvOpened(s, sbc, tbc, segs, live);
    var s' := s.(dv := if s.dv == first then 0 else s.dv);
    var tbc' := (tbc - {first})[first := s.m[first].size];
    forall b | b in s'.cs ensures ChunkOk(s', b) { assert ChunkOk(s, b); }
    forall b, c ensures Apart(s', b, c) { assert Apart(s, b, c); }
    forall b ensures LastOk(s', b) { assert LastOk(s, b); }
    forall b ensures Linked(s', b) { assert Linked(s, b); }
    forall b ensures BinnedAt(s', sbc, tbc', b) { assert BinnedAt(s, sbc, tbc, b); }
    forall b ensures LiveAt(s', live, b) { assert LiveAt(s, live, b); }
    forall k: nat, b ensures Placed(s', segs, k, b) { assert Placed(s, segs, k, b); }
    forall k: nat ensures Recorded(s', segs, k) { assert Recorded(s, segs, k); }
  }
}
