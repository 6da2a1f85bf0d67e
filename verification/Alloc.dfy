/**
 * The allocator of lj_alloc.c: malloc, free and realloc over boundary tags,
 * small bins, tree bins, the designated victim, top and segments. Chunk
 * addresses stand for the pointers handed out, which lie 16 bytes further on.
 * System calls are parameters: a region that was mapped, or failure.
 */
module Alloc {
  import opened Words
  import BinMap
  import opened Chunks
  import opened Segments
  import opened HeapInv
  import opened Regions
  import opened Prepend
  import opened Freeing
  import opened Leaks
  import SmallBins
  import TreeBins
  import TreeSearch

  const MAX_SIZE_T: nat := WORD64 - 1
  const MAX_REQUEST: nat := WORD64 - 128
  const MIN_REQUEST: nat := 23
  const MAX_SMALL_REQUEST: nat := 240
  const GRANULARITY: nat := 0x2_0000
  const TRIM_THRESHOLD: nat := 0x20_0000
  const MAX_RELEASE_CHECK_RATE: nat := 255

  /** Where the segment record lies in the allocator state. */
  const MSEG_OFFSET: nat := 840

  function PadRequest(req: nat): (nb: nat)
    ensures nb % 8 == 0 && req + 8 <= nb <= req + 15
  {
    (req + 15) / 8 * 8
  }

  function Request2Size(req: nat): (nb: nat)
    ensures nb % 8 == 0 && req + 8 <= nb && nb >= MIN_CHUNK_SIZE
  {
    if req < MIN_REQUEST then MIN_CHUNK_SIZE else PadRequest(req)
  }

  /** A chunk with room for the bytes is as large as the padded request. */
  lemma Rounded(req: nat, size: nat)
    requires size % 8 == 0 && req + 8 <= size && MIN_CHUNK_SIZE <= size <= ADDRESS_LIMIT
    ensures Request2Size(req) <= size && req < MAX_REQUEST
  {
  }

  /** The size that malloc asks for; too large requests become the largest one. */
  function MallocSize(req: nat): nat {
    if req >= MAX_REQUEST then MAX_SIZE_T else Request2Size(req)
  }

  function GranularityAlign(s: nat): nat {
    (s + (GRANULARITY - 1)) / GRANULARITY * GRANULARITY
  }

  /** The size of the region that alloc_sys maps, in wrapping 64-bit arithmetic. */
  function SysSize(nb: nat): nat {
    GranularityAlign((nb + TOP_FOOT_SIZE + 1) % WORD64) % WORD64
  }

  lemma SysSizeRoom(nb: nat)
    requires nb % 8 == 0 && nb < SysSize(nb) <= ADDRESS_LIMIT
    ensures SysSize(nb) % GRANULARITY == 0 && SysSize(nb) >= nb + TOP_FOOT_SIZE + 8
  {
    var s: nat := nb + TOP_FOOT_SIZE + 1;
    Unwrapped(s);
    GranularityAligned(s);
    Unwrapped(GranularityAlign(s));
    NextMultiple(GranularityAlign(s), nb + TOP_FOOT_SIZE);
  }

  lemma NextMultiple(a: nat, b: nat)
    requires a % 8 == 0 && b % 8 == 0 && a > b
    ensures a >= b + 8
  {
    assert a == 8 * (a / 8) && b == 8 * (b / 8);
  }

  lemma Unwrapped(x: nat)
    requires x < WORD64
    ensures x % WORD64 == x
  {
  }

  lemma GranulesAligned(s: nat)
    requires s % GRANULARITY == 0
    ensures s % 8 == 0
  {
    var q := s / 0x2_0000;
    assert s == q * 0x2_0000 == 8 * (q * 0x4000);
  }

  lemma GranularityAligned(s: nat)
    ensures GranularityAlign(s) % GRANULARITY == 0 && GranularityAlign(s) % 8 == 0
              && s <= GranularityAlign(s) < s + 0x2_0000
  {
    var q := (s + 0x1_ffff) / 0x2_0000;
    assert GranularityAlign(s) == q * 0x2_0000 == 8 * (q * 0x4000);
  }

  /** align_offset: the distance to the next multiple of 8. */
  function AlignOffset(a: int): nat {
    if a % 8 == 0 then 0 else 8 - a % 8
  }

  /** What the system answers to a request for memory. */
  datatype Mapping = Failed | Mapped(base: int)

  /** Memory that was never written holds anything, say zero. */
  function ByteAt(bytes: map<int, int>, x: int): int {
    if x in bytes then bytes[x] else 0
  }

  /** What a block holds, up to the smaller of two sizes. */
  function Prefix(bytes: map<int, int>, a: int, n: nat, n': nat): seq<int> {
    seq(if n < n' then n else n', i => ByteAt(bytes, a + CHUNK2MEM + i))
  }

  /** set_inuse: the chunk keeps its PINUSE bit, and the head behind it gets one. */
  function SetInuseKeep(m: Memory, p: int, s: int): Memory
    requires p in m
  {
    var m := m[p := m[p].(size := s, c := true)];
    m[p + s := if p + s in m then m[p + s].(p := true) else Head(0, 0, false, true)]
  }

  /** Segments are made of regions of a multiple of the granularity. */
  ghost predicate Granular(segs: seq<Segment>) {
    forall k :: 0 <= k < |segs| ==> segs[k].size % GRANULARITY == 0 && segs[k].size >= GRANULARITY
  }

  class Heap {
    var mem: Memory
    var dv: int
    var dvsize: nat
    var top: int
    var topsize: nat
    var segs: seq<Segment>
    var trimCheck: nat
    var releaseChecks: int
    /** The address of the record of the first segment, which is part of the allocator state. */
    const mseg: int
    /** The user's bytes. */
    var bytes: map<int, int>
    const sb: SmallBins.SmallBins
    const tb: TreeBins.TreeBins
    ghost var chunks: set<int>
    ghost var lasts: set<int>
    ghost var firsts: set<int>
    /** The blocks handed out and not freed, with the sizes requested; no decision depends on it. */
    var live: map<int, nat>

    /** lj_alloc_create, with the region that the system mapped. */
    constructor (base: int)
      requires FreshRegion([], base, GRANULARITY)
      ensures Valid() && Accounted() && live == map[] && fresh(sb) && fresh(tb)
    {
      var mn := base + MSTATE_SIZE;
      mem := InitTop(SetInuse(map[], base, MSTATE_SIZE), mn, base + GRANULARITY - mn - TOP_FOOT_SIZE);
      dv, dvsize := 0, 0;
      top, topsize := mn, base + GRANULARITY - mn - TOP_FOOT_SIZE;
      segs := [Segment(base, GRANULARITY, 0)];
      trimCheck, releaseChecks := TRIM_THRESHOLD, MAX_RELEASE_CHECK_RATE;
      mseg := base + CHUNK2MEM + MSEG_OFFSET;
      bytes := map[];
      sb := new SmallBins.SmallBins();
      tb := new TreeBins.TreeBins();
      chunks, lasts, firsts := {base, mn, base + GRANULARITY - TOP_FOOT_SIZE}, {base + GRANULARITY - TOP_FOOT_SIZE},
          {base};
      live := map[];
      new;
      Created(base, GRANULARITY);
      CreatedBlocks(base, GRANULARITY);
    }

    ghost function Snap(): State
      reads this
    {
      State(mem, chunks, lasts, firsts, top, dv)
    }

    ghost predicate Valid()
      reads this, sb, tb
    {
      && sb.Valid() && tb.Valid() && Sized(Snap(), dvsize, topsize)
      && Inv(Snap(), sb.content, tb.content, segs, live) && Granular(segs)
    }

    /** The chunks in use that are neither segment records nor fenceposts. */
    ghost function InUse(): set<int>
      reads this
    {
      Occupied(Snap(), segs)
    }

    /** No chunk is lost: what is in use is a live block or the allocator state. */
    ghost predicate Accounted()
      reads this
    {
      InUse() <= live.Keys + {mseg - CHUNK2MEM - MSEG_OFFSET}
    }

    /** Nothing changed that matters. */
    twostate predicate Same()
      reads this, sb, tb
    {
      && Snap() == old(Snap()) && live == old(live) && segs == old(segs)
      && dvsize == old(dvsize) && topsize == old(topsize)
      && sb.content == old(sb.content) && tb.content == old(tb.content)
    }

    // ---- Taking chunks ----

    /** insert_chunk */
    method InsertChunk(p: int, s: nat)
      requires sb.Valid() && tb.Valid() && p > 0 && p !in sb.content && p !in tb.content
      requires s % 8 == 0 && s < ADDRESS_LIMIT
      modifies sb, tb
      ensures sb.Valid() && tb.Valid()
      ensures sb.content == AddSmall(old(sb.content), p, s) && tb.content == AddLarge(old(tb.content), p, s)
    {
      if s / 8 < SmallBins.NSMALLBINS {
        sb.Insert(p, s);
      } else {
        tb.Insert(p, s);
      }
    }

    /** unlink_chunk */
    method UnlinkChunk(p: int, s: nat)
      requires sb.Valid() && tb.Valid()
      requires BinnedIn(p, s, sb.content, tb.content)
      modifies sb, tb
      ensures sb.Valid() && tb.Valid()
      ensures sb.content == old(sb.content) - {p} && tb.content == old(tb.content) - {p}
    {
      if s / 8 < SmallBins.NSMALLBINS {
        sb.Unlink(p, s);
      } else {
        tb.Unlink(p);
      }
    }

    /** replace_dv: r becomes dv and the old one, known to be small, is binned. */
    method ReplaceDv(r: int, rs: nat)
      requires sb.Valid() && dvsize % 8 == 0 && dvsize < BinMap.MIN_LARGE_SIZE
      requires dvsize != 0 ==> dv > 0 && dv !in sb.content
      modifies this`dv, this`dvsize, sb
      ensures sb.Valid() && dv == r && dvsize == rs
      ensures sb.content == if old(dvsize) == 0 then old(sb.content) else old(sb.content)[old(dv) := old(dvsize)]
    {
      if dvsize != 0 {
        sb.Insert(dv, dvsize);
      }
      dvsize := rs;
      dv := r;
    }

    /** What the result of taking a chunk promises. */
    ghost predicate Handed(s0: State, live0: map<int, nat>, used0: set<int>, nb: int, p: int)
      reads this, sb, tb
    {
      && Valid() && live == live0 && GotBlock(s0, Snap(), segs, live, nb, p)
      && InUse() <= used0 + {p} && p in mem && mem[p].size < nb + MIN_CHUNK_SIZE
    }

    /** Remainderless fit: the first chunk of small bin idx. */
    method TakeExact(idx: nat) returns (p: int)
      requires Valid() && BinMap.Marked(sb.smallmap, idx)
      modifies this, sb
      ensures Handed(old(Snap()), old(live), old(InUse()), 8 * idx, p) && bytes == old(bytes)
      ensures mem[p].size == 8 * idx && old(p in sb.content && sb.content[p] == 8 * idx)
    {
      ghost var s0, sbc0 := Snap(), sb.content;
      p := sb.UnlinkFirst(idx);
      BinnedChunk(s0, sbc0, tb.content, segs, live, p);
      TookWhole(s0, sbc0, tb.content, segs, live, p, 8 * idx);
      TookBlocks(s0, sbc0, tb.content, segs, live, p);
      mem := TakeWhole(mem, p, 8 * idx);
      assert tb.content - {p} == tb.content;
    }

    /** Chunk p, just unlinked from its bin; all else is as the invariant says. */
    ghost predicate Unlinked(p: int, size: nat, sbc0: map<int, nat>, tbc0: map<int, nat>)
      reads this, sb, tb
    {
      && Inv(Snap(), sbc0, tbc0, segs, live) && Granular(segs) && Sized(Snap(), dvsize, topsize)
      && sb.Valid() && sb.content == sbc0 - {p}
      && tb.Valid() && tb.content == tbc0 - {p}
      && (p in sbc0 || p in tbc0) && p in mem && mem[p].size == size
    }

    method TakeAll(p: int, size: nat, ghost nb: nat, ghost sbc0: map<int, nat>, ghost tbc0: map<int, nat>)
      requires Unlinked(p, size, sbc0, tbc0) && nb <= size < nb + MIN_CHUNK_SIZE
      modifies this
      ensures Handed(old(Snap()), old(live), old(InUse()), nb, p) && bytes == old(bytes)
    {
      ghost var s0 := Snap();
      BinnedChunk(s0, sbc0, tbc0, segs, live, p);
      TookWhole(s0, sbc0, tbc0, segs, live, p, nb);
      TookBlocks(s0, sbc0, tbc0, segs, live, p);
      mem := TakeWhole(mem, p, size);
    }

    /** Split off the front of p; the remainder becomes dv. */
    method SplitIntoDv(p: int, size: nat, nb: nat, ghost sbc0: map<int, nat>, ghost tbc0: map<int, nat>)
      requires Unlinked(p, size, sbc0, tbc0)
      requires 0 < nb && nb % 8 == 0 && nb + MIN_CHUNK_SIZE <= size && dvsize < BinMap.MIN_LARGE_SIZE
      modifies this, sb
      ensures Handed(old(Snap()), old(live), old(InUse()), nb, p) && bytes == old(bytes)
    {
      ghost var s0 := Snap();
      BinnedChunk(s0, sbc0, tbc0, segs, live, p);
      DvChunk(s0, sbc0, tbc0, segs, live);
      SplitToDv(s0, sbc0, tbc0, segs, live, p, nb, dvsize);
      SplitSized(s0, sbc0, tbc0, segs, live, p, nb, p + nb, dvsize, topsize);
      SplitBlocks(s0, sbc0, tbc0, segs, live, p, nb, p + nb);
      mem := SetInuse(mem, p, nb);
      var r := p + nb;
      mem := SetFree(mem, r, size - nb);
      chunks := chunks + {r};
      ReplaceDv(r, size - nb);
      assert Snap() == SplitState(s0, p, nb, p + nb);
    }

    /** Split off the front of p; the remainder is binned. */
    method SplitIntoBin(p: int, size: nat, nb: nat, ghost sbc0: map<int, nat>, ghost tbc0: map<int, nat>)
      requires Unlinked(p, size, sbc0, tbc0)
      requires 0 < nb && nb % 8 == 0 && nb + MIN_CHUNK_SIZE <= size
      modifies this, sb, tb
      ensures Handed(old(Snap()), old(live), old(InUse()), nb, p) && bytes == old(bytes)
    {
      ghost var s0 := Snap();
      BinnedChunk(s0, sbc0, tbc0, segs, live, p);
      SplitToBin(s0, sbc0, tbc0, segs, live, p, nb);
      SplitSized(s0, sbc0, tbc0, segs, live, p, nb, dv, dvsize, topsize);
      SplitBlocks(s0, sbc0, tbc0, segs, live, p, nb, dv);
      mem := SetInuse(mem, p, nb);
      var r := p + nb;
      mem := SetFree(mem, r, size - nb);
      chunks := chunks + {r};
      InsertChunk(r, size - nb);
    }

    /** The first chunk of small bin i, split if the remainder is a chunk. */
    method TakeFromSmall(i: nat, nb: nat) returns (p: int)
      requires Valid() && BinMap.Marked(sb.smallmap, i)
      requires 0 < nb <= 8 * i && nb % 8 == 0 && dvsize < BinMap.MIN_LARGE_SIZE
      modifies this, sb
      ensures Handed(old(Snap()), old(live), old(InUse()), nb, p) && bytes == old(bytes)
      ensures old(p in sb.content && sb.content[p] == 8 * i)
    {
      ghost var sbc0 := sb.content;
      p := sb.UnlinkFirst(i);
      BinnedChunk(Snap(), sbc0, tb.content, segs, live, p);
      assert tb.content - {p} == tb.content;
      var rsize := 8 * i - nb;
      if rsize < MIN_CHUNK_SIZE {
        TakeAll(p, 8 * i, nb, sbc0, tb.content);
      } else {
        SplitIntoDv(p, 8 * i, nb, sbc0, tb.content);
      }
    }

    /** tmalloc_large: the best fit of the tree bins, unless dv fits no worse. */
    method TmallocLarge(nb: nat) returns (p: int)
      requires Valid() && BinMap.MIN_LARGE_SIZE <= nb < WORD64 && nb % 8 == 0
      modifies this, sb, tb
      ensures p == 0 ==> Valid() && Same()
      ensures p == 0 ==> old(TreeSearch.BestFit(tb.content, nb, 0)
                             || (nb <= dvsize && forall y ::
                                   y in tb.content && tb.content[y] >= nb ==> dvsize <= tb.content[y]))
      ensures p != 0 ==> Handed(old(Snap()), old(live), old(InUse()), nb, p)
      ensures p != 0 ==> old(TreeSearch.BestFit(tb.content, nb, p) && (dvsize < nb || tb.content[p] < dvsize))
      ensures bytes == old(bytes)
    {
      assert Valid();
      ghost var sbc0, tbc0 := sb.content, tb.content;
      var v, rsize := tb.FindBestFit(nb);
      SmallDv();
      if v != 0 && rsize < Sub64(dvsize, nb) {
        p := v;
        BinnedChunk(Snap(), sbc0, tbc0, segs, live, p);
        tb.Unlink(p);
        assert sb.content - {p} == sbc0;
        if rsize < MIN_CHUNK_SIZE {
          TakeAll(p, rsize + nb, nb, sbc0, tbc0);
        } else {
          SplitIntoBin(p, rsize + nb, nb, sbc0, tbc0);
        }
      } else {
        p := 0;
      }
    }

    lemma SmallDv()
      requires Valid()
      ensures dvsize < WORD64 && dvsize % 8 == 0
      ensures dv == 0 <==> dvsize == 0
    {
      DvChunk(Snap(), sb.content, tb.content, segs, live);
    }

    /** tmalloc_small: a smallest chunk of the tree bins, the remainder becoming dv. */
    method TmallocSmall(nb: nat) returns (p: int)
      requires Valid() && tb.treemap != 0 && 0 < nb < BinMap.MIN_LARGE_SIZE && nb % 8 == 0
                 && dvsize < BinMap.MIN_LARGE_SIZE
      modifies this, sb, tb
      ensures Handed(old(Snap()), old(live), old(InUse()), nb, p) && bytes == old(bytes)
      ensures old(p in tb.content && forall y :: y in tb.content ==> tb.content[p] <= tb.content[y])
    {
      ghost var sbc0, tbc0 := sb.content, tb.content;
      var v, rsize := tb.FindSmallest(nb);
      p := v;
      BinnedChunk(Snap(), sbc0, tbc0, segs, live, p);
      tb.Unlink(p);
      assert sb.content - {p} == sbc0;
      if rsize < MIN_CHUNK_SIZE {
        TakeAll(p, rsize + nb, nb, sbc0, tbc0);
      } else {
        SplitIntoDv(p, rsize + nb, nb, sbc0, tbc0);
      }
    }

    /** From dv: split it, or use all of it. */
    method TakeDv(nb: nat) returns (p: int)
      requires Valid() && 0 < nb <= dvsize && nb % 8 == 0
      modifies this
      ensures Handed(old(Snap()), old(live), old(InUse()), nb, p) && bytes == old(bytes)
      ensures p == old(dv)
    {
      SmallDv();
      p := dv;
      var rsize := dvsize - nb;
      if rsize >= MIN_CHUNK_SIZE {
        SplitDv(nb, p, rsize);
      } else {
        ExhaustDv(nb, p);
      }
    }

    method SplitDv(nb: nat, p: int, rsize: nat)
      requires Valid() && 0 < nb && nb % 8 == 0 && p == dv && dv != 0 && rsize == dvsize - nb >= MIN_CHUNK_SIZE
      modifies this
      ensures Handed(old(Snap()), old(live), old(InUse()), nb, p) && bytes == old(bytes)
    {
      ghost var s0 := Snap();
      DvChunk(s0, sb.content, tb.content, segs, live);
      SplitOfDv(s0, sb.content, tb.content, segs, live, nb);
      SplitSized(s0, sb.content, tb.content, segs, live, p, nb, p + nb, dvsize, topsize);
      SplitBlocks(s0, sb.content, tb.content, segs, live, p, nb, p + nb);
      var r := p + nb;
      assert SetInuse(SetFree(mem, r, rsize), p, nb) == SetFree(SetInuse(mem, p, nb), r, rsize);
      dv := r;
      dvsize := rsize;
      mem := SetFree(mem, r, rsize);
      mem := SetInuse(mem, p, nb);
      chunks := chunks + {r};
      assert Snap() == SplitState(s0, p, nb, p + nb);
    }

    method ExhaustDv(nb: nat, p: int)
      requires Valid() && nb <= dvsize < nb + MIN_CHUNK_SIZE && p == dv && dv != 0
      modifies this
      ensures Handed(old(Snap()), old(live), old(InUse()), nb, p) && bytes == old(bytes)
    {
      ghost var s0 := Snap();
      DvChunk(s0, sb.content, tb.content, segs, live);
      TookWhole(s0, sb.content, tb.content, segs, live, p, nb);
      TookBlocks(s0, sb.content, tb.content, segs, live, p);
      assert sb.content - {p} == sb.content && tb.content - {p} == tb.content;
      var dvs := dvsize;
      dvsize := 0;
      dv := 0;
      mem := TakeWhole(mem, p, dvs);
    }

    /** From top, which keeps at least a remainder. */
    method TakeTop(nb: nat) returns (p: int)
      requires Valid() && 0 < nb < topsize && nb % 8 == 0
      modifies this
      ensures Handed(old(Snap()), old(live), old(InUse()), nb, p) && bytes == old(bytes)
      ensures p == old(top)
    {
      ghost var s0 := Snap();
      SplitOfTop(s0, sb.content, tb.content, segs, live, nb);
      TopBlocks(s0, sb.content, tb.content, segs, live, nb);
      DvNotTop();
      topsize := topsize - nb;
      p := top;
      top := p + nb;
      mem := SetTop(mem, top, topsize);
      mem := SetInuse(mem, p, nb);
      chunks := chunks + {top};
    }

    lemma DvNotTop()
      requires Valid()
      ensures dv != top
      ensures dv != 0 ==> dv < top || dv >= top + topsize
    {
      InvOpened(Snap(), sb.content, tb.content, segs, live);
      At(Snap(), top);
      if dv != 0 { Elsewhere(Snap(), dv, top); }
    }

    // ---- Memory from the system ----

    /** The heap may have grown, but everything in use stays as it was. */
    ghost predicate Carried(s0: State, live0: map<int, nat>, used0: set<int>)
      reads this, sb, tb
    {
      Valid() && live == live0 && Kept(s0, Snap(), 0) && InUse() <= used0
    }

    /** init_top */
    method MakeTop(p: int, psize: nat)
      requires p % 8 == 0
      modifies this`mem, this`top, this`topsize, this`trimCheck
      ensures mem == InitTop(old(mem), p, psize) && top == p && topsize == psize
    {
      var offset := AlignOffset(p + CHUNK2MEM);
      top := p + offset;
      topsize := psize - offset;
      mem := InitTop(mem, top, topsize);
      trimCheck := TRIM_THRESHOLD;
    }

    /** segment_holding */
    method SegmentHolding(a: int) returns (k: nat)
      requires InSome(segs, a)
      ensures k < |segs| && segs[k].Holds(a) && forall j :: 0 <= j < k ==> !segs[j].Holds(a)
    {
      k := 0;
      while !segs[k].Holds(a)
        invariant k < |segs| && forall j :: 0 <= j < k ==> !segs[j].Holds(a)
        decreases |segs| - k
      {
        k := k + 1;
      }
    }

    /** A region that continues segment k, which holds top, extends top. */
    method AppendRegion(k: nat, tsize: nat)
      requires Valid() && k < |segs| && segs[k].Holds(top) && tsize > 0 && tsize % GRANULARITY == 0
                 && FreshRegion(segs, segs[k].End(), tsize)
      modifies this
      ensures Carried(old(Snap()), old(live), old(InUse())) && topsize == old(topsize) + tsize && bytes == old(bytes)
    {
      ghost var s0 := Snap();
      AppendDone(s0, sb.content, tb.content, segs, live, k, dvsize, topsize, tsize);
      ResizedBlocks(s0, sb.content, tb.content, segs, live, k, tsize);
      ResizeTop(k, tsize);
    }

    /** The end of top moves, and that of its segment. */
    method ResizeTop(k: nat, delta: int)
      requires k < |segs| && segs[k].size + delta >= 0 && top % 8 == 0
      requires top in mem && mem[top].size == topsize && topsize + delta > 0
      modifies this`segs, this`chunks, this`lasts, this`mem, this`top, this`topsize, this`trimCheck
      ensures Snap() == ResizeState(old(Snap()), delta) && topsize == old(topsize) + delta
      ensures segs == old(segs)[k := old(segs)[k].(size := old(segs)[k].size + delta)]
    {
      ghost var s' := ResizeState(Snap(), delta);
      segs := segs[k := segs[k].(size := segs[k].size + delta)];
      chunks, lasts := s'.cs, s'.ls;
      MakeTop(top, topsize + delta);
    }

    /** The fenceposts behind a segment record, up to the end of the segment. */
    method PlaceFenceposts(tnext: int, oldEnd: int)
      requires tnext % 8 == 0 && oldEnd % 8 == 0 && tnext + 32 <= oldEnd
      modifies this`mem
      ensures Posted(old(mem), mem, tnext, oldEnd - 16)
    {
      var p := tnext;
      while true
        invariant p % 8 == 0 && tnext <= p && p + 16 <= oldEnd
        invariant Posted(old(mem), mem, tnext, p - 8)
        decreases oldEnd - p
      {
        var nextp := p + 8;
        mem := SetInuse(mem, p, 8);
        if nextp + 8 < oldEnd {
          p := nextp;
        } else {
          break;
        }
      }
    }

    /** Where the record of the old segment goes, and where that segment ends. */
    method RecordPlace(ssize: nat) returns (sp: int, oldEnd: int)
      requires |segs| > 0 && segs[0].Holds(top) && ssize == PadRequest(24)
      requires top in mem && mem[top].size == topsize && topsize % 8 == 0
      requires top % 8 == 0 && top > 0 && segs[0].End() == top + topsize + TOP_FOOT_SIZE
      ensures sp == RecordAt(Snap()) && oldEnd == segs[0].End()
    {
      assert InSome(segs, top);
      var oldsp := SegmentHolding(top);
      oldEnd := segs[oldsp].End();
      var rawsp := oldEnd - (ssize + 32 + 7);
      var asp := rawsp + AlignOffset(rawsp + CHUNK2MEM);
      sp := if asp < top + MIN_CHUNK_SIZE then top else asp;
    }

    /** What is left of the old top before the record becomes a free chunk. */
    method FreeOldTop(sp: int, oldTop: int)
      requires sb.Valid() && tb.Valid() && oldTop > 0 && oldTop !in sb.content && oldTop !in tb.content
      requires oldTop <= sp < oldTop + ADDRESS_LIMIT && (sp - oldTop) % 8 == 0 && sp in mem
      modifies this`mem, sb, tb
      ensures sb.Valid() && tb.Valid()
      ensures sp == oldTop ==> mem == old(mem) && sb.content == old(sb.content) && tb.content == old(tb.content)
      ensures sp != oldTop ==>
                && mem == SetFree(SetPinuse(old(mem), sp, false), oldTop, sp - oldTop)
                && sb.content == AddSmall(old(sb.content), oldTop, sp - oldTop)
                && tb.content == AddLarge(old(tb.content), oldTop, sp - oldTop)
    {
      if sp != oldTop {
        var psize := sp - oldTop;
        mem := SetFree(SetPinuse(mem, sp, false), oldTop, psize);
        InsertChunk(oldTop, psize);
      }
    }

    /** The writes of add_segment; m is memory before the old top is dealt with. */
    method AddSegmentWrites(tbase: int, tsize: nat) returns (ghost m: Memory)
      requires sb.Valid() && tb.Valid() && |segs| > 0 && segs[0].Holds(top)
      requires top in mem && mem[top].size == topsize && topsize % 8 == 0 && 0 < topsize < ADDRESS_LIMIT
      requires top % 8 == 0 && top > 0 && segs[0].End() == top + topsize + TOP_FOOT_SIZE
      requires tbase % 8 == 0 && tsize > TOP_FOOT_SIZE && top !in sb.content && top !in tb.content
      modifies this`mem, this`top, this`topsize, this`trimCheck, this`segs, sb, tb
      ensures sb.Valid() && tb.Valid() && top == tbase && topsize == tsize - TOP_FOOT_SIZE
      ensures segs == PushSegment(old(Snap()), old(segs), tbase, tsize)
      ensures Posted(RecordMem(old(Snap()), tbase, tsize), m, RecordAt(old(Snap())) + 32, old(segs)[0].End() - 16)
      ensures RecordAt(old(Snap())) in m && mem == OldTopFreed(old(Snap()), m)
      ensures sb.content == if old(topsize) < MIN_CHUNK_SIZE then old(sb.content)
                else AddSmall(old(sb.content), old(top), old(topsize))
      ensures tb.content == if old(topsize) < MIN_CHUNK_SIZE then old(tb.content)
                else AddLarge(old(tb.content), old(top), old(topsize))
    {
      var oldTop, ssize := top, PadRequest(24);
      var sp, oldEnd := RecordPlace(ssize);
      MakeTop(tbase, tsize - TOP_FOOT_SIZE);
      mem := SetInuse(mem, sp, ssize);
      segs := [Segment(tbase, tsize, 0), segs[0].(rec := sp)] + segs[1..];
      PlaceFenceposts(sp + ssize, oldEnd);
      m := mem;
      FreeOldTop(sp, oldTop);
    }

    /** add_segment */
    method AddSegment(tbase: int, tsize: nat)
      requires Valid() && FreshRegion(segs, tbase, tsize) && tsize % GRANULARITY == 0
      modifies this, sb, tb
      ensures Carried(old(Snap()), old(live), old(InUse())) && topsize == tsize - TOP_FOOT_SIZE && bytes == old(bytes)
    {
      ghost var s0, segs0, sbc0, tbc0 := Snap(), segs, sb.content, tb.content;
      AddReady(s0, sbc0, tbc0, segs, live, tbase, tsize, topsize);
      ghost var m := AddSegmentWrites(tbase, tsize);
      AddDone(s0, sbc0, tbc0, segs0, live, tbase, tsize, dvsize, old(topsize), m);
      AddedBlocks(s0, sbc0, tbc0, segs0, live, tbase, tsize, m);
      ghost var s' := AddState(s0, segs0, tbase, tsize, mem);
      chunks, lasts, firsts := s'.cs, s'.ls, s'.fs;
      assert Snap() == s';
    }

    /** The writes of prepend_alloc. */
    method PrependWrites(newbase: int, oldbase: int, nb: nat) returns (p: int)
      requires sb.Valid() && tb.Valid() && newbase % 8 == 0 && oldbase % 8 == 0 && newbase > 0 && newbase + nb < oldbase
      requires oldbase in mem && RestEnd(Snap(), oldbase) in mem && RestEnd(Snap(), oldbase) >= oldbase
      requires oldbase == top ==> mem[top].size == topsize && !mem[top].c
      requires oldbase == dv ==> mem[dv].size == dvsize && !mem[dv].c
      requires !mem[oldbase].c && oldbase != top && oldbase != dv ==>
                 BinnedIn(oldbase, mem[oldbase].size, sb.content, tb.content)
      requires mem[oldbase].c ==> oldbase !in sb.content && oldbase !in tb.content
      requires newbase + nb !in sb.content && newbase + nb !in tb.content
      requires (RestEnd(Snap(), oldbase) - newbase - nb) % 8 == 0 && RestEnd(Snap(), oldbase) < ADDRESS_LIMIT
      requires oldbase == top ==> oldbase != dv
      modifies this`mem, this`top, this`topsize, this`dv, this`dvsize, this`chunks, this`firsts, sb, tb
      ensures sb.Valid() && tb.Valid() && p == newbase
      ensures Snap() == PrependState(old(Snap()), oldbase, newbase, nb)
      ensures topsize == if oldbase == old(top) then old(topsize) + (oldbase - newbase - nb) else old(topsize)
      ensures dvsize == if oldbase == old(dv) then old(dvsize) + (oldbase - newbase - nb) else old(dvsize)
      ensures var q := newbase + nb;
              var rest := RestEnd(old(Snap()), oldbase) - q;
              var binned := oldbase != old(top) && oldbase != old(dv);
              && sb.content == (if binned then AddSmall(old(sb.content) - {oldbase}, q, rest) else old(sb.content))
              && tb.content == (if binned then AddLarge(old(tb.content) - {oldbase}, q, rest) else old(tb.content))
    {
      ghost var s' := PrependState(Snap(), oldbase, newbase, nb);
      p := newbase + AlignOffset(newbase + CHUNK2MEM);
      var oldfirst := oldbase + AlignOffset(oldbase + CHUNK2MEM);
      var psize := oldfirst - p;
      var q := p + nb;
      var qsize := psize - nb;
      mem := SetInuse(mem, p, nb);
      if oldfirst == top {
        topsize := topsize + qsize;
        top := q;
        mem := SetTop(mem, q, topsize);
      } else if oldfirst == dv {
        dvsize := dvsize + qsize;
        dv := q;
        mem := SetFree(mem, q, dvsize);
      } else {
        assert mem[oldfirst].c ==> sb.content - {oldbase} == sb.content && tb.content - {oldbase} == tb.content;
        if !mem[oldfirst].c {
          var nsize := mem[oldfirst].size;
          UnlinkChunk(oldfirst, nsize);
          oldfirst := oldfirst + nsize;
          qsize := qsize + nsize;
        }
        mem := SetFree(SetPinuse(mem, oldfirst, false), q, qsize);
        InsertChunk(q, qsize);
      }
      chunks, firsts := s'.cs, s'.fs;
    }

    /** prepend_alloc, for segment k that was already extended downwards. */
    method PrependAlloc(newbase: int, oldbase: int, nb: nat, ghost k: nat, ghost segs0: seq<Segment>)
      returns (p: int)
      requires sb.Valid() && tb.Valid() && Sized(Snap(), dvsize, topsize)
                 && Inv(Snap(), sb.content, tb.content, segs0, live) && Granular(segs)
      requires Below(Snap(), segs0, k, newbase, oldbase - newbase, nb)
                 && segs == ExtendDown(segs0, k, newbase, oldbase - newbase)
      modifies this, sb, tb
      ensures Handed(old(Snap()), old(live), Occupied(old(Snap()), segs0), nb, p) && bytes == old(bytes)
    {
      ghost var s0, sbc0, tbc0 := Snap(), sb.content, tb.content;
      PrependReady(s0, sbc0, tbc0, segs0, live, k, newbase, oldbase - newbase, nb, dvsize, topsize);
      PrependDone(s0, sbc0, tbc0, segs0, live, k, newbase, oldbase - newbase, nb, dvsize, topsize);
      PrependedBlocks(s0, sbc0, tbc0, segs0, live, k, newbase, oldbase - newbase, nb);
      p := PrependWrites(newbase, oldbase, nb);
    }

    /** Where a new region goes: behind the segment of top, below a segment, or into a segment of its own. */
    method PlaceRegion(tbase: int, tsize: nat, nb: nat) returns (p: int)
      requires Valid() && FreshRegion(segs, tbase, tsize) && tsize % GRANULARITY == 0 && 0 < nb && nb % 8 == 0
                 && nb + TOP_FOOT_SIZE < tsize
      modifies this, sb, tb
      ensures p == 0 ==> Carried(old(Snap()), old(live), old(InUse())) && nb < topsize
      ensures p != 0 ==> Handed(old(Snap()), old(live), old(InUse()), nb, p)
      ensures bytes == old(bytes)
    {
      p := 0;
      var k := 0;
      while k < |segs| && tbase != segs[k].End()
        invariant k <= |segs|
      {
        k := k + 1;
      }
      if k < |segs| && segs[k].Holds(top) {
        AppendRegion(k, tsize);
      } else {
        k := 0;
        while k < |segs| && segs[k].base != tbase + tsize
          invariant k <= |segs|
        {
          k := k + 1;
        }
        if k < |segs| {
          ghost var segs0 := segs;
          InvOpened(Snap(), sb.content, tb.content, segs, live);
          var oldbase := segs[k].base;
          segs := segs[k := Segment(tbase, segs[k].size + tsize, segs[k].rec)];
          p := PrependAlloc(tbase, oldbase, nb, k, segs0);
        } else {
          AddSegment(tbase, tsize);
        }
      }
    }

    /** alloc_sys, where the direct mapping of a large block fails. */
    method AllocSys(nb: nat, os: Mapping) returns (p: int)
      requires Valid() && 0 < nb < WORD64 && (nb % 8 == 0 || nb == MAX_SIZE_T)
      requires os.Mapped? ==> FreshRegion(segs, os.base, SysSize(nb))
      modifies this, sb, tb
      ensures p == 0 <==> SysSize(nb) <= nb || os.Failed?
      ensures p == 0 ==> Valid() && Same()
      ensures p != 0 ==> Handed(old(Snap()), old(live), old(InUse()), nb, p)
      ensures bytes == old(bytes)
    {
      var rsize := SysSize(nb);
      if rsize <= nb || os.Failed? {
        return 0;
      }
      SysSizeRoom(nb);
      ghost var s0 := Snap();
      p := PlaceRegion(os.base, rsize, nb);
      if p == 0 {
        ghost var s1 := Snap();
        p := TakeTop(nb);
        KeptTrans(s0, s1, Snap(), 0);
      }
    }

    // ---- malloc ----

    /** What is below this size fits into the small bin of nb or the next one. */
    function CloseFit(nb: nat): nat {
      if nb + 16 < BinMap.MIN_LARGE_SIZE then nb + 16 else BinMap.MIN_LARGE_SIZE
    }

    /** The size of a chunk in a bin, or zero. */
    ghost function BinSize(y: int): nat
      reads sb, tb
    {
      if y in sb.content then sb.content[y] else if y in tb.content then tb.content[y] else 0
    }

    /** No chunk in a bin is large enough. */
    ghost predicate NoneBinned(nb: nat)
      reads sb, tb
    {
      forall y :: BinSize(y) < nb
    }

    /** Among the chunks in bins that are large enough, p is a smallest one. */
    ghost predicate BestBinned(nb: nat, p: int)
      reads sb, tb
    {
      BinSize(p) >= nb > 0 && forall y :: BinSize(y) >= nb ==> BinSize(p) <= BinSize(y)
    }

    /** Chunks in bins are preferred to a sufficient dv below this size: close fits in small bins, or any better fit. */
    ghost function Preferred(nb: nat): nat
      reads this
    {
      if nb < BinMap.MIN_LARGE_SIZE then CloseFit(nb) else dvsize
    }

    /** Chunk p, or its front, is what a request is served from: bins, dv, top and the system in turn. */
    ghost predicate Source(nb: nat, os: Mapping, p: int)
      reads this, sb, tb
    {
      || (BestBinned(nb, p) && (dvsize < nb || BinSize(p) < Preferred(nb)))
      || (nb <= dvsize && p == dv && forall y :: BinSize(y) >= nb ==> Preferred(nb) <= BinSize(y))
      || (NoneBinned(nb) && dvsize < nb < topsize && p == top)
      || (NoneBinned(nb) && dvsize < nb && topsize <= nb && os.Mapped? && nb < SysSize(nb))
    }

    /** No free chunk is large enough, and the system does not help. */
    ghost predicate Exhausted(nb: nat, os: Mapping)
      reads this, sb, tb
    {
      NoneBinned(nb) && dvsize < nb && topsize <= nb && (os.Failed? || SysSize(nb) <= nb)
    }

    /** What the map says about the chunks of at least that size. */
    lemma LeastMarked(nb: nat, i: nat)
      requires Valid() && 0 < nb < BinMap.MIN_LARGE_SIZE && nb % 8 == 0 && 8 * i <= BinMap.MIN_LARGE_SIZE
      requires forall j: nat :: nb / 8 <= j && BinMap.Marked(sb.smallmap, j) ==> i <= j
      ensures forall y :: BinSize(y) >= nb ==> 8 * i <= BinSize(y)
    {
      sb.AllMarked();
      forall y | BinSize(y) >= nb
        ensures 8 * i <= BinSize(y)
      {
        BinnedChunk(Snap(), sb.content, tb.content, segs, live, y);
        if y in sb.content { assert BinMap.Marked(sb.smallmap, sb.content[y] / 8); }
      }
    }

    /** Behind an empty part of the map there are only chunks of the tree bins. */
    lemma NoneShifted(nb: nat)
      requires Valid() && 0 < nb < BinMap.MIN_LARGE_SIZE && nb % 8 == 0
                 && BinMap.ShiftRight(sb.smallmap, nb / 8) == 0
      ensures forall y :: BinSize(y) >= nb ==> y in tb.content && BinSize(y) == tb.content[y]
    {
      forall j: nat | j >= nb / 8
        ensures !BinMap.Marked(sb.smallmap, j)
      {
        BinMap.ZeroUnmarked(j - nb / 8);
        assert BinMap.Marked(sb.smallmap, nb / 8 + (j - nb / 8)) <==> BinMap.Marked(0, j - nb / 8);
      }
      sb.AllMarked();
    }

    /** A tree chunk has its size in the tree bins alone. */
    lemma TreeSizes()
      requires Valid()
      ensures forall y :: y in tb.content ==> BinSize(y) == tb.content[y] >= BinMap.MIN_LARGE_SIZE
      ensures forall y :: y in sb.content ==> BinSize(y) == sb.content[y] < BinMap.MIN_LARGE_SIZE
    {
      forall y | y in tb.content || y in sb.content
        ensures y in tb.content ==> BinSize(y) == tb.content[y] >= BinMap.MIN_LARGE_SIZE
        ensures y in sb.content ==> BinSize(y) == sb.content[y] < BinMap.MIN_LARGE_SIZE
      {
        BinnedChunk(Snap(), sb.content, tb.content, segs, live, y);
      }
    }

    /** The first marked bin behind idx. */
    method NextSmallBin(smallbits: nat, idx: nat) returns (i: nat)
      requires smallbits == BinMap.ShiftRight(sb.smallmap, idx) && smallbits != 0 && smallbits % 4 == 0
      ensures idx + 2 <= i && BinMap.Marked(sb.smallmap, i)
      ensures forall j: nat :: idx <= j && BinMap.Marked(sb.smallmap, j) ==> i <= j
    {
      BinMap.LowTwoBits(smallbits);
      ghost var j := BinMap.Ffs(smallbits);
      assert BinMap.Marked(sb.smallmap, idx + j);
      var leftbits := BinMap.LeftOf(sb.smallmap, idx);
      BinMap.MarkedNonzero(idx + j, leftbits);
      i := BinMap.Ffs(leftbits);
      assert BinMap.Marked(smallbits, i - idx);
      forall j: nat | idx <= j && BinMap.Marked(sb.smallmap, j)
        ensures i <= j
      {
        assert BinMap.Marked(smallbits, j - idx);
      }
    }

    /** A request of at most MAX_SMALL_REQUEST bytes, from the bins. */
    method MallocSmall(nb: nat) returns (p: int)
      requires Valid() && MIN_CHUNK_SIZE <= nb < BinMap.MIN_LARGE_SIZE && nb % 8 == 0
      modifies this, sb, tb
      ensures p == 0 ==> Valid() && Same()
      ensures p == 0 ==> old(if nb <= dvsize then forall y :: BinSize(y) >= nb ==> CloseFit(nb) <= BinSize(y)
                               else NoneBinned(nb))
      ensures p != 0 ==> Handed(old(Snap()), old(live), old(InUse()), nb, p)
      ensures p != 0 ==> old(BestBinned(nb, p) && (dvsize < nb || BinSize(p) < CloseFit(nb)))
      ensures bytes == old(bytes)
    {
      p := 0;
      var idx := nb / 8;
      var smallbits := BinMap.ShiftRight(sb.smallmap, idx);
      BinMap.LowTwoBits(smallbits);
      TreeSizes();
      if smallbits % 4 != 0 {
        ghost var j := if smallbits % 2 == 0 then 1 else 0;
        assert BinMap.Marked(smallbits, j) && BinMap.Marked(sb.smallmap, idx + j);
        if smallbits % 2 == 0 {
          ExactBin(nb, 1);
          idx := idx + 1;
        } else {
          ExactBin(nb, 0);
        }
        p := TakeExact(idx);
      } else if nb > dvsize {
        if smallbits != 0 {
          var i := NextSmallBin(smallbits, idx);
          LeastMarked(nb, i);
          forall y | old(BinSize(y)) >= nb ensures 8 * i <= old(BinSize(y)) { assert BinSize(y) >= nb; }
          p := TakeFromSmall(i, nb);
        } else if tb.treemap != 0 {
          NoneShifted(nb);
          p := TmallocSmall(nb);
        } else {
          tb.NoneMarked();
          NoneShifted(nb);
        }
      } else {
        FarBins(nb);
      }
    }

    /** The bin of the size asked for, or the next one if that is empty, holds the smallest chunks that fit. */
    lemma ExactBin(nb: nat, j: nat)
      requires Valid() && MIN_CHUNK_SIZE <= nb < BinMap.MIN_LARGE_SIZE && nb % 8 == 0 && j <= 1
      requires j == 1 ==> BinMap.ShiftRight(sb.smallmap, nb / 8) % 2 == 0
      ensures forall y :: BinSize(y) >= nb ==> nb + 8 * j <= BinSize(y)
    {
      var smallbits := BinMap.ShiftRight(sb.smallmap, nb / 8);
      BinMap.LowTwoBits(smallbits);
      assert BinMap.Marked(smallbits, 0) <==> BinMap.Marked(sb.smallmap, nb / 8 + 0);
      LeastMarked(nb, nb / 8 + j);
    }

    /** Two empty bins. */
    lemma FarBins(nb: nat)
      requires Valid() && MIN_CHUNK_SIZE <= nb < BinMap.MIN_LARGE_SIZE && nb % 8 == 0
      requires BinMap.ShiftRight(sb.smallmap, nb / 8) % 4 == 0
      ensures forall y :: BinSize(y) >= nb ==> CloseFit(nb) <= BinSize(y)
    {
      var smallbits := BinMap.ShiftRight(sb.smallmap, nb / 8);
      BinMap.LowTwoBits(smallbits);
      assert BinMap.Marked(smallbits, 0) <==> BinMap.Marked(sb.smallmap, nb / 8 + 0);
      assert BinMap.Marked(smallbits, 1) <==> BinMap.Marked(sb.smallmap, nb / 8 + 1);
      LeastMarked(nb, CloseFit(nb) / 8);
    }

    /** A larger request, from the tree bins. */
    method MallocLarge(nb: nat) returns (p: int)
      requires Valid() && BinMap.MIN_LARGE_SIZE <= nb < WORD64 && nb % 8 == 0
      modifies this, sb, tb
      ensures p == 0 ==> Valid() && Same()
      ensures p == 0 ==> old(if nb <= dvsize then forall y :: BinSize(y) >= nb ==> dvsize <= BinSize(y)
                               else NoneBinned(nb))
      ensures p != 0 ==> Handed(old(Snap()), old(live), old(InUse()), nb, p)
      ensures p != 0 ==> old(BestBinned(nb, p) && (dvsize < nb || BinSize(p) < dvsize))
      ensures bytes == old(bytes)
    {
      p := 0;
      TreeSizes();
      if tb.treemap != 0 {
        p := TmallocLarge(nb);
      } else {
        tb.NoneMarked();
      }
    }

    lemma TopSmall()
      requires Valid()
      ensures topsize < ADDRESS_LIMIT && dvsize < ADDRESS_LIMIT
    {
      InvOpened(Snap(), sb.content, tb.content, segs, live);
      At(Snap(), top);
      DvChunk(Snap(), sb.content, tb.content, segs, live);
    }

    /** From dv, from top or from the system. */
    method MallocRest(nb: nat, os: Mapping) returns (p: int)
      requires Valid() && 0 < nb < WORD64 && (nb % 8 == 0 || nb == MAX_SIZE_T)
      requires os.Mapped? ==> FreshRegion(segs, os.base, SysSize(nb))
      modifies this, sb, tb
      ensures p == 0 <==> old(dvsize) < nb && old(topsize) <= nb && (SysSize(nb) <= nb || os.Failed?)
      ensures p == 0 ==> Valid() && Same()
      ensures p != 0 ==> Handed(old(Snap()), old(live), old(InUse()), nb, p)
      ensures old(if nb <= dvsize then p == dv else nb < topsize ==> p == top)
      ensures bytes == old(bytes)
    {
      TopSmall();
      if nb <= dvsize {
        p := TakeDv(nb);
      } else if nb < topsize {
        p := TakeTop(nb);
      } else {
        p := AllocSys(nb, os);
      }
    }

    /**
     * lj_alloc_malloc: a smallest sufficient chunk of the bins unless dv is preferred, then dv, top and
     * the system. It fails exactly if none of them will do, and then changes nothing that a caller can see.
     */
    method Malloc(nsize: nat, os: Mapping) returns (p: int)
      requires Valid() && nsize < WORD64
      requires os.Mapped? ==> FreshRegion(segs, os.base, SysSize(MallocSize(nsize)))
      modifies this, sb, tb
      ensures Valid() && Kept(old(Snap()), Snap(), 0) && bytes == old(bytes)
      ensures p != 0 ==> p !in old(live) && live == old(live)[p := nsize] && InUse() <= old(InUse()) + {p}
      ensures p != 0 ==> old(Source(MallocSize(nsize), os, p)) && Snug(p, nsize)
      ensures p == 0 ==> Same()
      ensures p == 0 <==> old(Exhausted(MallocSize(nsize), os))
    {
      var nb;
      p := 0;
      if nsize <= MAX_SMALL_REQUEST {
        nb := if nsize < MIN_REQUEST then MIN_CHUNK_SIZE else PadRequest(nsize);
        p := MallocSmall(nb);
      } else if nsize >= MAX_REQUEST {
        nb := MAX_SIZE_T;
        AllSmall();
      } else {
        nb := PadRequest(nsize);
        p := MallocLarge(nb);
      }
      if p == 0 {
        p := MallocRest(nb, os);
      }
      if p != 0 {
        GiveOut(p, nsize, nb);
      }
    }

    /** From now on the chunk is a live block. */
    method GiveOut(p: int, nsize: nat, ghost nb: nat)
      requires Valid() && p > 0 && Used(Snap(), p) && p !in live && NoRecord(segs, p)
      requires nb == MallocSize(nsize) && nb <= mem[p].size < nb + MIN_CHUNK_SIZE
      modifies this`live
      ensures Valid() && live == old(live)[p := nsize] && Snug(p, nsize)
    {
      HandedSize(nsize, nb, p);
      LiveAdded(Snap(), sb.content, tb.content, segs, live, p, nsize);
      live := live[p := nsize];
    }

    /** A block with no room to split off a chunk. */
    ghost predicate Snug(p: int, nsize: nat)
      reads this
    {
      p in mem && MallocSize(nsize) <= mem[p].size < MallocSize(nsize) + MIN_CHUNK_SIZE
    }

    lemma AllSmall()
      requires Valid()
      ensures NoneBinned(MAX_SIZE_T)
    {
      forall y | y in sb.content || y in tb.content
        ensures y in sb.content ==> sb.content[y] < MAX_SIZE_T
        ensures y in tb.content ==> tb.content[y] < MAX_SIZE_T
      {
        BinnedChunk(Snap(), sb.content, tb.content, segs, live, y);
      }
    }

    lemma HandedSize(nsize: nat, nb: nat, p: int)
      requires Valid() && p in mem && mem[p].size >= nb && Used(Snap(), p)
      requires nb == MallocSize(nsize)
      ensures nsize + 8 <= mem[p].size && mem[p].size >= MIN_CHUNK_SIZE
    {
      InvOpened(Snap(), sb.content, tb.content, segs, live);
      At(Snap(), p);
    }

    // ---- Returning memory to the system ----

    /** What happens to live blocks when memory goes back to the system. */
    ghost predicate Lives(s0: State, live0: map<int, nat>, used0: set<int>)
      reads this, sb, tb
    {
      Valid() && live == live0 && LiveSame(s0, Snap(), live) && InUse() <= used0
    }

    /** has_segment_link: some segment record lies in segment k. */
    method HasSegmentLink(k: nat) returns (b: bool)
      requires k < |segs|
      ensures b <==> segs[k].Holds(mseg) || exists j :: 0 < j < |segs| && segs[k].Holds(segs[j].rec + CHUNK2MEM)
    {
      b := segs[k].Holds(mseg);
      var j := 1;
      while !b && j < |segs|
        invariant b ==> segs[k].Holds(mseg) || exists i :: 0 < i < |segs| && segs[k].Holds(segs[i].rec + CHUNK2MEM)
        invariant !b ==>
                    !segs[k].Holds(mseg) && forall i ::
                      0 < i < j && i < |segs| ==> !segs[k].Holds(segs[i].rec + CHUNK2MEM)
        invariant j > 0
        decreases |segs| - j, !b
      {
        b := segs[k].Holds(segs[j].rec + CHUNK2MEM);
        j := j + 1;
      }
    }

    /** Shrink the segment of top by extra bytes. */
    method ShrinkTop(k: nat, extra: nat)
      requires Valid() && k < |segs| && segs[k].Holds(top) && 0 < extra < topsize && extra % GRANULARITY == 0
      modifies this
      ensures Lives(old(Snap()), old(live), old(InUse())) && bytes == old(bytes) && topsize == old(topsize) - extra
    {
      ghost var s0 := Snap();
      GranulesAligned(extra);
      ShrinkDone(s0, sb.content, tb.content, segs, live, k, dvsize, topsize, extra);
      ResizedBlocks(s0, sb.content, tb.content, segs, live, k, 0 - extra);
      GranularCut(k, extra);
      ResizeTop(k, 0 - extra);
    }

    /** Giving back whole granules. */
    lemma GranularCut(k: nat, extra: nat)
      requires Granular(segs) && k < |segs| && segs[k].size > extra && extra % GRANULARITY == 0
      ensures Granular(segs[k := segs[k].(size := segs[k].size - extra)])
    {
      assert segs[k].size % GRANULARITY == 0;
    }

    /** A segment whose first chunk is free up to its record goes back to the system. */
    method ReleaseSegment(k: nat) returns (released: nat)
      requires Valid() && Unused(Snap(), segs, k)
      modifies this, sb, tb
      ensures Lives(old(Snap()), old(live), old(InUse())) && bytes == old(bytes) && topsize == old(topsize)
      ensures |segs| == old(|segs|) - (if released != 0 then 1 else 0)
    {
      ghost var s0, sbc0, tbc0 := Snap(), sb.content, tb.content;
      var p, size := segs[k].base, segs[k].size;
      var psize := mem[p].size;
      assert size >= GRANULARITY;
      ReleaseReady(s0, sbc0, tbc0, segs, live, k, dvsize, topsize);
      ReleasedBlocks(s0, sbc0, tbc0, segs, live, k);
      if p == dv {
        dv := 0;
        dvsize := 0;
      } else {
        tb.Unlink(p);
      }
      var unmapped: bool := *;
      if unmapped {
        released := size;
        segs := segs[..k] + segs[k + 1..];
        ghost var s' := ReleaseState(s0, old(segs), k);
        chunks, lasts, firsts := s'.cs, s'.ls, s'.fs;
        assert Snap() == s';
      } else {
        released := 0;
        tb.Insert(p, psize);
      }
    }

    /** release_unused_segments */
    method ReleaseUnusedSegments() returns (released: nat)
      requires Valid()
      modifies this, sb, tb
      ensures Lives(old(Snap()), old(live), old(InUse())) && bytes == old(bytes) && topsize == old(topsize)
    {
      ghost var s0, live0, bytes0, topsize0 := Snap(), live, bytes, topsize;
      LiveSameRefl(s0, sb.content, tb.content, segs, live);
      released := 0;
      var nsegs, sp := 0, 1;
      while sp < |segs|
        invariant sp >= 1 && Lives(s0, live0, old(InUse())) && bytes == bytes0 && topsize == topsize0
        decreases |segs| - sp
      {
        nsegs := nsegs + 1;
        var r := 0;
        InvOpened(Snap(), sb.content, tb.content, segs, live);
        FirstChunk(Snap(), segs, sp);
        var p := segs[sp].base;
        if !mem[p].c && p + mem[p].size >= segs[sp].End() - TOP_FOOT_SIZE {
          ghost var s1 := Snap();
          r := ReleaseSegment(sp);
          LiveSameTrans(s0, s1, Snap(), live);
        }
        released := released + r;
        if r == 0 {
          sp := sp + 1;
        }
      }
      releaseChecks := if nsegs > MAX_RELEASE_CHECK_RATE then nsegs else MAX_RELEASE_CHECK_RATE;
    }

    /** alloc_trim without padding */
    method Trim()
      requires Valid()
      modifies this, sb, tb
      ensures Lives(old(Snap()), old(live), old(InUse())) && bytes == old(bytes)
    {
      ghost var s0 := Snap();
      LiveSameRefl(s0, sb.content, tb.content, segs, live);
      var released := 0;
      var pad := TOP_FOOT_SIZE;
      if topsize > pad {
        var extra := ((topsize - pad + (GRANULARITY - 1)) / GRANULARITY - 1) * GRANULARITY;
        InvOpened(Snap(), sb.content, tb.content, segs, live);
        assert InSome(segs, top);
        var sp := SegmentHolding(top);
        var pinned := HasSegmentLink(sp);
        if segs[sp].size >= extra && !pinned {
          var unmapped: bool := *;
          if unmapped {
            released := extra;
          }
        }
        if released != 0 {
          ShrinkTop(sp, released);
        }
      }
      ghost var s1 := Snap();
      var more := ReleaseUnusedSegments();
      LiveSameTrans(s0, s1, Snap(), live);
      released := released + more;
      if released == 0 && topsize > trimCheck {
        trimCheck := MAX_SIZE_T;
      }
    }

    // ---- free ----

    /** Chunk p0 is being freed; a is p0 or the free chunk before it, no longer in a bin. */
    ghost predicate Freeing(p0: int, a: int, sbc0: map<int, nat>, tbc0: map<int, nat>)
      reads this, sb, tb
    {
      && Inv(Snap(), sbc0, tbc0, segs, live) && Granular(segs) && Sized(Snap(), dvsize, topsize)
      && Freeable(Snap(), segs, live, p0) && StartsAt(Snap(), p0, a)
      && sb.Valid() && sb.content == sbc0 - {a}
      && tb.Valid() && tb.content == tbc0 - {a}
      && p0 + mem[p0].size in mem
    }

    /** All is well once the free chunk a of that size is in a bin. */
    ghost predicate AwaitsBin(a: int, size: nat)
      reads this, sb, tb
    {
      && sb.Valid() && tb.Valid() && Granular(segs) && Sized(Snap(), dvsize, topsize)
      && Awaits(Snap(), sb.content, tb.content, segs, live, a, size)
    }

    /** p0 and dv before it become dv, and the chunk behind is in use. */
    method FreeIntoDv(p0: int, p: int, psize: nat, next: int, ghost sbc0: map<int, nat>, ghost tbc0: map<int, nat>)
      requires Freeing(p0, p, sbc0, tbc0) && p == dv && next == p0 + mem[p0].size && mem[next].c && psize == next - p
      modifies this
      ensures Lives(old(Snap()), old(live), old(InUse()) - {p0}) && bytes == old(bytes)
    {
      ghost var s0 := Snap();
      FreeUp(s0, sbc0, tbc0, segs, live, p0, p, dvsize, topsize);
      MergedBlocks(s0, segs, p0, p, next, {p0} - {p}, dv);
      dvsize := psize;
      mem := SetFree(SetPinuse(mem, next, false), p, psize);
      chunks := chunks - ({p0} - {p});
      assert Snap() == MergeState(s0, p, next, {p0} - {p}, dv);
      LiveSameKept(s0, Snap(), sbc0, tbc0, segs, live, p0);
    }

    /** The same, but the merged chunk goes to a bin. */
    method FreeUpTo(p0: int, p: int, psize: nat, next: int, ghost sbc0: map<int, nat>, ghost tbc0: map<int, nat>)
      requires Freeing(p0, p, sbc0, tbc0) && p != dv && next == p0 + mem[p0].size && mem[next].c && psize == next - p
      modifies this
      ensures AwaitsBin(p, psize) && live == old(live) && LiveSame(old(Snap()), Snap(), live) && bytes == old(bytes)
      ensures InUse() <= old(InUse()) - {p0}
    {
      ghost var s0 := Snap();
      FreeUp(s0, sbc0, tbc0, segs, live, p0, p, dvsize, topsize);
      MergedBlocks(s0, segs, p0, p, next, {p0} - {p}, dv);
      mem := SetFree(SetPinuse(mem, next, false), p, psize);
      chunks := chunks - ({p0} - {p});
      assert Snap() == MergeState(s0, p, next, {p0} - {p}, dv);
      LiveSameKept(s0, Snap(), sbc0, tbc0, segs, live, p0);
    }

    /** top swallows the chunk, and may be trimmed. */
    method FreeIntoTop(p0: int, p: int, psize: nat, ghost sbc0: map<int, nat>, ghost tbc0: map<int, nat>)
      requires Freeing(p0, p, sbc0, tbc0) && p0 + mem[p0].size == top && psize == top - p
      modifies this
      ensures Lives(old(Snap()), old(live), old(InUse()) - {p0}) && bytes == old(bytes)
      ensures topsize == old(topsize) + psize
    {
      ghost var s0 := Snap();
      FreeTop(s0, sbc0, tbc0, segs, live, p0, p, dvsize, topsize);
      MergedTopBlocks(s0, segs, p0, p, topsize + psize, if dv == p then 0 else dv);
      topsize := topsize + psize;
      top := p;
      mem := SetTop(mem, p, topsize);
      chunks := chunks - ({p0, s0.top} - {p});
      if p == dv {
        dv := 0;
        dvsize := 0;
      }
      LiveSameKept(s0, Snap(), sbc0, tbc0, segs, live, p0);
    }

    /** dv behind the chunk swallows it. */
    method FreeBeforeDv(p0: int, p: int, psize: nat, next: int, ghost sbc0: map<int, nat>, ghost tbc0: map<int, nat>)
      requires Freeing(p0, p, sbc0, tbc0) && next == p0 + mem[p0].size == dv && psize == next - p && !mem[next].c
                 && next != top
      modifies this
      ensures Lives(old(Snap()), old(live), old(InUse()) - {p0}) && bytes == old(bytes)
    {
      ghost var s0 := Snap();
      FreeOver(s0, sbc0, tbc0, segs, live, p0, p, dvsize, topsize);
      MergedOverBlocks(s0, segs, p0, p, psize + dvsize, next, p);
      assert next !in sbc0 && next !in tbc0;
      assert sbc0 - {p} - {next} == sbc0 - {p} && tbc0 - {p} - {next} == tbc0 - {p};
      dvsize := dvsize + psize;
      dv := p;
      mem := SetFree(mem, p, dvsize);
      chunks := chunks - ({p0, next} - {p});
      LiveSameKept(s0, Snap(), sbc0, tbc0, segs, live, p0);
    }

    /** The chunk behind is free and binned. */
    method FreeOverNext(p0: int, p: int, psize: nat, next: int, ghost sbc0: map<int, nat>, ghost tbc0: map<int, nat>)
      returns (size: nat)
      requires Freeing(p0, p, sbc0, tbc0) && next == p0 + mem[p0].size != dv && psize == next - p && !mem[next].c
                 && next != top
      modifies this, sb, tb
      ensures if p == dv then Lives(old(Snap()), old(live), old(InUse()) - {p0})
              else AwaitsBin(p, size) && live == old(live) && LiveSame(old(Snap()), Snap(), live)
      ensures InUse() <= old(InUse()) - {p0}
      ensures bytes == old(bytes) && dv == old(dv)
    {
      ghost var s0 := Snap();
      FreeOver(s0, sbc0, tbc0, segs, live, p0, p, dvsize, topsize);
      var nsize := mem[next].size;
      MergedOverBlocks(s0, segs, p0, p, psize + nsize, next, dv);
      size := psize + nsize;
      UnlinkChunk(next, nsize);
      mem := SetFree(mem, p, size);
      chunks := chunks - ({p0, next} - {p});
      if p == dv {
        dvsize := size;
      }
      LiveSameKept(s0, Snap(), sbc0, tbc0, segs, live, p0);
    }

    /** The merged chunk goes to a bin; every so often unused segments are released. */
    method InsertFreed(p: int, psize: nat)
      requires AwaitsBin(p, psize)
      modifies this, sb, tb
      ensures Lives(old(Snap()), old(live), old(InUse())) && bytes == old(bytes)
    {
      ghost var s0 := Snap();
      LiveSameRefl(s0, AddSmall(sb.content, p, psize), AddLarge(tb.content, p, psize), segs, live);
      if psize / 8 < SmallBins.NSMALLBINS {
        sb.Insert(p, psize);
      } else {
        tb.Insert(p, psize);
        releaseChecks := releaseChecks - 1;
        if releaseChecks == 0 {
          var released := ReleaseUnusedSegments();
        }
      }
    }

    /** lj_alloc_free behind the backward merge. */
    method FreeForward(p0: int, p: int, psize: nat, next: int, ghost sbc0: map<int, nat>, ghost tbc0: map<int, nat>)
      requires Freeing(p0, p, sbc0, tbc0) && next == p0 + mem[p0].size && psize == next - p
                 && (p == dv ==> !mem[next].c)
      modifies this, sb, tb
      ensures Lives(old(Snap()), old(live), old(InUse()) - {p0}) && bytes == old(bytes)
    {
      ghost var s0 := Snap();
      if !mem[next].c {
        if next == top {
          FreeIntoTop(p0, p, psize, sbc0, tbc0);
          ghost var s1 := Snap();
          if topsize > trimCheck {
            Trim();
            LiveSameTrans(s0, s1, Snap(), live);
          }
        } else if next == dv {
          FreeBeforeDv(p0, p, psize, next, sbc0, tbc0);
        } else {
          var size := FreeOverNext(p0, p, psize, next, sbc0, tbc0);
          if p != dv {
            ghost var s1 := Snap();
            InsertFreed(p, size);
            LiveSameTrans(s0, s1, Snap(), live);
          }
        }
      } else {
        FreeUpTo(p0, p, psize, next, sbc0, tbc0);
        ghost var s1 := Snap();
        InsertFreed(p, psize);
        LiveSameTrans(s0, s1, Snap(), live);
      }
    }

    /** lj_alloc_free of a chunk that no longer counts as live. */
    method FreeChunk(p0: int)
      requires Valid() && Freeable(Snap(), segs, live, p0)
      modifies this, sb, tb
      ensures Lives(old(Snap()), old(live), old(InUse()) - {p0}) && bytes == old(bytes)
    {
      ghost var sbc0, tbc0 := sb.content, tb.content;
      ghost var a := FrontReady(Snap(), sbc0, tbc0, segs, live, p0);
      UsedNotBinned(Snap(), sbc0, tbc0, segs, live, p0);
      assert (a !in sbc0 ==> sbc0 - {a} == sbc0) && (a !in tbc0 ==> tbc0 - {a} == tbc0);
      var p, psize := p0, mem[p0].size;
      var next := p + psize;
      if !mem[p].p {
        var prevsize := mem[p].foot;
        var prev := p - prevsize;
        psize := psize + prevsize;
        p := prev;
        if p != dv {
          UnlinkChunk(p, prevsize);
        } else if mem[next].c && mem[next].p {
          FreeIntoDv(p0, p, psize, next, sbc0, tbc0);
          return;
        }
      }
      FreeForward(p0, p, psize, next, sbc0, tbc0);
    }

    /** lj_alloc_free: p is no longer live, and nothing else changes for the caller. */
    method Free(p: int)
      requires Valid() && (p == 0 || p in live)
      modifies this, sb, tb
      ensures Valid() && live == old(live) - {p} && bytes == old(bytes)
      ensures LiveSame(old(Snap()), Snap(), live) && InUse() <= old(InUse()) - {p}
    {
      LiveSameRefl(Snap(), sb.content, tb.content, segs, live);
      InvOpened(Snap(), sb.content, tb.content, segs, live);
      NotZero(Snap(), segs, live);
      if p == 0 {
        assert live - {p} == live;
        return;
      }
      LiveDropped(Snap(), sb.content, tb.content, segs, live, p);
      live := live - {p};
      FreeChunk(p);
    }

    // ---- realloc ----

    /** Cut the live block p to nb bytes and free the remainder. */
    method Shrink(p: int, oldsize: nat, nb: nat, nsize: nat)
      requires Valid() && p in live && p in mem && oldsize == mem[p].size && MIN_CHUNK_SIZE <= nb && nb % 8 == 0
      requires nb + MIN_CHUNK_SIZE <= oldsize && nsize + 8 <= nb
      modifies this, sb, tb
      ensures Valid() && live == old(live)[p := nsize] && bytes == old(bytes)
      ensures LiveSame(old(Snap()), Snap(), old(live) - {p}) && InUse() <= old(InUse())
      ensures p in mem && mem[p].size == nb
    {
      ghost var s0 := Snap();
      LiveDropped(s0, sb.content, tb.content, segs, live, p);
      SplitUsedDone(s0, sb.content, tb.content, segs, live, p, nb, nsize, dvsize, topsize);
      SplitUsedBlocks(s0, segs, p, nb);
      var rem := p + nb;
      var rsize := oldsize - nb;
      assert SetInuseKeep(SetInuseKeep(mem, p, nb), rem, rsize) == SplitUsed(mem, p, nb, oldsize);
      mem := SetInuseKeep(mem, p, nb);
      mem := SetInuseKeep(mem, rem, rsize);
      chunks := chunks + {rem};
      live := live[p := nsize];
      ghost var s1 := Snap();
      FreeChunk(rem);
      assert LiveSame(s0, s1, old(live) - {p}) && LiveSame(s1, Snap(), live);
    }

    /** Extend the live block p, which lies before top, to nb bytes. */
    method ExpandIntoTop(p: int, oldsize: nat, nb: nat, nsize: nat)
      requires Valid() && p in live && p in mem && oldsize == mem[p].size && p + oldsize == top && MIN_CHUNK_SIZE <= nb
                 && nb % 8 == 0
      requires oldsize < nb < oldsize + topsize && nsize + 8 <= nb
      modifies this
      ensures Valid() && live == old(live)[p := nsize] && bytes == old(bytes)
      ensures LiveSame(old(Snap()), Snap(), old(live) - {p}) && InUse() <= old(InUse())
      ensures p in mem && mem[p].size == nb
    {
      ghost var s0 := Snap();
      LiveDropped(s0, sb.content, tb.content, segs, live, p);
      ExpandDone(s0, sb.content, tb.content, segs, live, p, nb, nsize, dvsize, topsize);
      ExpandedBlocks(s0, segs, p, nb, oldsize + topsize);
      var newsize := oldsize + topsize;
      var newtopsize := newsize - nb;
      var newtop := p + nb;
      assert SetTop(SetInuseKeep(mem, p, nb), newtop, newtopsize) == Expand(mem, p, nb, newsize);
      mem := SetInuseKeep(mem, p, nb);
      mem := SetTop(mem, newtop, newtopsize);
      chunks := chunks - {top} + {newtop};
      top := newtop;
      topsize := newtopsize;
      live := live[p := nsize];
    }

    /** memcpy of disjoint memory */
    method CopyBytes(to: int, from: int, n: nat)
      requires to + n <= from || from + n <= to
      modifies this`bytes
      ensures forall x :: ByteAt(bytes, x) == if to <= x < to + n then old(ByteAt(bytes, from + (x - to)))
                else old(ByteAt(bytes, x))
    {
      var i := 0;
      while i < n
        invariant 0 <= i <= n
        invariant forall x :: ByteAt(bytes, x) == if to <= x < to + i then old(ByteAt(bytes, from + (x - to)))
                    else old(ByteAt(bytes, x))
      {
        ghost var before := bytes;
        bytes := bytes[to + i := ByteAt(bytes, from + i)];
        assert forall x {:trigger ByteAt(bytes, x)} ::
            ByteAt(bytes, x) == ByteAt(before, if x == to + i then from + i else x);
        i := i + 1;
      }
    }

    /** What the live blocks hold, except for p. */
    twostate predicate OthersKept(p: int)
      reads this
    {
      && (forall b, x {:trigger InPayload(old(live), b, x)} :: b != p && InPayload(old(live), b, x) ==> ByteAt(bytes, x) == old(ByteAt(bytes, x)))
      && LiveSame(old(Snap()), Snap(), old(live) - {p})
    }

    /** Move the live block p: malloc, copy, free. */
    method Move(p: int, oldsize: nat, nsize: nat, os: Mapping) returns (r: int)
      requires Valid() && p in live && p in mem && oldsize == mem[p].size && nsize < WORD64
      requires os.Mapped? ==> FreshRegion(segs, os.base, SysSize(MallocSize(nsize)))
      modifies this, sb, tb
      ensures Valid()
      ensures r == 0 ==> Same() && bytes == old(bytes)
      ensures r == 0 <==> old(Exhausted(MallocSize(nsize), os))
      ensures r != 0 ==> old(Source(MallocSize(nsize), os, r)) && Snug(r, nsize)
                         && InUse() <= old(InUse()) - {p} + {r}
      ensures r != 0 ==> r !in old(live) && live == (old(live) - {p})[r := nsize] && OthersKept(p)
      ensures r != 0 ==> Prefix(bytes, r, old(live[p]), nsize) == old(Prefix(bytes, p, live[p], nsize))
    {
      ghost var s0 := Snap();
      LiveSameRefl(s0, sb.content, tb.content, segs, live);
      InvOpened(s0, sb.content, tb.content, segs, live);
      NotZero(s0, segs, live);
      assert LiveAt(s0, live, p);
      r := Malloc(nsize, os);
      if r != 0 {
        var oc := oldsize - 8;
        assert Used(Snap(), p) && mem[p].size == oldsize;
        CopyApart(p, r);
        LiveSameKept(s0, Snap(), old(sb.content), old(tb.content), old(segs), old(live), 0);
        CopyBytes(r + CHUNK2MEM, p + CHUNK2MEM, if oc < nsize then oc else nsize);
        ghost var s1, bytes1 := Snap(), bytes;
        forall b, x | b != p && InPayload(old(live), b, x)
          ensures ByteAt(bytes1, x) == old(ByteAt(bytes, x))
        {
          assert InPayload(live, b, x);
          if r + CHUNK2MEM <= x < r + CHUNK2MEM + nsize {
            assert InPayload(live, r, x);
            LiveBlocksApart(s1, sb.content, tb.content, segs, live, b, r, x);
          }
        }
        Free(p);
        assert LiveSame(s1, Snap(), old(live) - {p});
      }
    }

    /** The chunks of two live blocks do not overlap. */
    lemma CopyApart(p: int, r: int)
      requires Valid() && p in live && r in live && p != r
      ensures p in mem && r in mem
      ensures p < r ==> p + mem[p].size <= r
      ensures r < p ==> r + live[r] + 8 <= p
    {
      InvOpened(Snap(), sb.content, tb.content, segs, live);
      assert LiveAt(Snap(), live, p) && LiveAt(Snap(), live, r);
      Elsewhere(Snap(), p, r);
    }

    /** The chunk of p is large enough, or becomes so by joining it with top. */
    ghost predicate InPlace(p: int, nsize: nat)
      reads this
    {
      var nb := Request2Size(nsize);
      && nsize < MAX_REQUEST && p in mem
      && (nb <= mem[p].size || (p + mem[p].size == top && nb < mem[p].size + topsize))
    }

    /** No heap serves a request that is too large. */
    lemma TooLarge(nsize: nat, os: Mapping)
      requires Valid() && MAX_REQUEST <= nsize < WORD64
      ensures Exhausted(MallocSize(nsize), os)
    {
      AllSmall();
      TopSmall();
      assert MallocSize(nsize) == WORD64 - 1 && (WORD64 - 1 + TOP_FOOT_SIZE + 1) % WORD64 == TOP_FOOT_SIZE;
    }

    /** A block that does not grow stays where it is. */
    lemma StaysInPlace(p: int, nsize: nat)
      requires Valid() && p in live && nsize <= live[p]
      ensures InPlace(p, nsize)
    {
      InvOpened(Snap(), sb.content, tb.content, segs, live);
      assert LiveAt(Snap(), live, p);
      At(Snap(), p);
      Rounded(nsize, mem[p].size);
    }

    /**
     * lj_alloc_realloc: the block stays if its chunk is large enough or can grow into top, and is moved
     * otherwise; it keeps its bytes up to the smaller size. It fails exactly if the block would
     * have to move and malloc fails, and then the old block stays live.
     */
    method Realloc(p: int, nsize: nat, os: Mapping) returns (r: int)
      requires Valid() && p in live && nsize < WORD64
      requires os.Mapped? ==> FreshRegion(segs, os.base, SysSize(MallocSize(nsize)))
      modifies this, sb, tb
      ensures Valid()
      ensures r == 0 ==> Same() && bytes == old(bytes)
      ensures r == 0 <==> old(!InPlace(p, nsize) && Exhausted(MallocSize(nsize), os))
      ensures r == p <==> old(InPlace(p, nsize))
      ensures r != 0 && r != p ==> old(Source(MallocSize(nsize), os, r))
      ensures r != 0 ==> Snug(r, nsize) && InUse() <= old(InUse()) - {p} + {r}
      ensures r != 0 ==> live == (old(live) - {p})[r := nsize] && (r == p || r !in old(live)) && OthersKept(p)
      ensures r != 0 ==> Prefix(bytes, r, old(live[p]), nsize) == old(Prefix(bytes, p, live[p], nsize))
    {
      InvOpened(Snap(), sb.content, tb.content, segs, live);
      NotZero(Snap(), segs, live);
      if nsize >= MAX_REQUEST {
        TooLarge(nsize, os);
        return 0;
      }
      LiveDropped(Snap(), sb.content, tb.content, segs, live, p);
      LiveSameRefl(Snap(), sb.content, tb.content, segs, live);
      var oldsize := mem[p].size;
      var next := p + oldsize;
      var nb := Request2Size(nsize);
      assert forall l: map<int, nat> :: l[p := nsize] == (l - {p})[p := nsize];
      if oldsize >= nb {
        var rsize := oldsize - nb;
        if rsize >= MIN_CHUNK_SIZE {
          Shrink(p, oldsize, nb, nsize);
        } else {
          LiveAdded(Snap(), sb.content, tb.content, segs, live, p, nsize);
          live := live[p := nsize];
        }
        return p;
      } else if next == top && oldsize + topsize > nb {
        ExpandIntoTop(p, oldsize, nb, nsize);
        return p;
      }
      r := Move(p, oldsize, nsize, os);
    }

    /** The program writes into its memory. */
    method Poke(x: int, v: int)
      requires Valid()
      modifies this`bytes
      ensures Valid() && bytes == old(bytes)[x := v]
    {
      bytes := bytes[x := v];
    }

    /** lj_alloc_f */
    method AllocF(p: int, nsize: nat, os: Mapping) returns (r: int)
      requires Valid() && (p == 0 || p in live) && nsize < WORD64
      requires os.Mapped? ==> FreshRegion(segs, os.base, SysSize(MallocSize(nsize)))
      modifies this, sb, tb
      ensures Valid()
      ensures nsize == 0 ==> r == 0 && live == old(live) - {p} && bytes == old(bytes)
      ensures nsize > 0 && r == 0 ==> Same() && bytes == old(bytes)
      ensures nsize > 0 ==> (r == 0 <==> old((p == 0 || !InPlace(p, nsize)) && Exhausted(MallocSize(nsize), os)))
      ensures nsize > 0 && p != 0 ==> (r == p <==> old(InPlace(p, nsize)))
      ensures nsize > 0 && r != 0 && r != p ==> old(Source(MallocSize(nsize), os, r))
      ensures nsize > 0 && r != 0 ==> Snug(r, nsize)
      ensures old(Accounted()) ==> Accounted()
      ensures nsize > 0 && r != 0 ==>
                live == (old(live) - {p})[r := nsize] && (r == p || r !in old(live)) && OthersKept(p)
      ensures nsize > 0 && r != 0 && p != 0 ==>
                Prefix(bytes, r, old(live[p]), nsize) == old(Prefix(bytes, p, live[p], nsize))
    {
      if nsize == 0 {
        Free(p);
        return 0;
      } else if p == 0 {
        InvOpened(Snap(), sb.content, tb.content, segs, live);
        NotZero(Snap(), segs, live);
        assert live - {0} == live;
        ghost var s0, sbc0, tbc0, segs0, live0 := Snap(), sb.content, tb.content, segs, live;
        r := Malloc(nsize, os);
        LiveSameKept(s0, Snap(), sbc0, tbc0, segs0, live0, 0);
      } else {
        r := Realloc(p, nsize, os);
      }
    }
  }

  /**
   * What a program does: calls of the allocator function, with the answer of the system, and writes
   * into live blocks.
   */
  datatype Op = Alloc(p: int, nsize: nat, os: Mapping) | Write(p: int, i: nat, v: int)

  /** An operation that breaks the rules of the interface is not carried out. */
  datatype Reply = Refused | Returned(r: int)

  /** A block as the program sees it: its size, and the bytes in it that were given a value. */
  datatype Block = Block(size: nat, data: map<int, int>)

  function Cut(data: map<int, int>, n: nat): map<int, int> {
    map i | i in data && i < n :: data[i]
  }

  /** The effect of an operation on the blocks. */
  function Step(m: map<int, Block>, op: Op, reply: Reply): map<int, Block> {
    match op
    case Alloc(p, n, _) =>
      if reply.Refused? then m
      else if n == 0 then m - {p}
      else if reply.r == 0 then m
      else (m - {p})[reply.r := Block(n, if p in m then Cut(m[p].data, n) else map[])]
    case Write(p, i, v) =>
      if reply.Refused? || p !in m then m else m[p := m[p].(data := m[p].data[i := v])]
  }

  /** The blocks after all operations. */
  function Replay(ops: seq<Op>, replies: seq<Reply>): map<int, Block>
    requires |ops| == |replies|
  {
    if ops == [] then map[]
    else
      var n := |ops| - 1;
      Step(Replay(ops[..n], replies[..n]), ops[n], replies[n])
  }

  /** The byte of a block. */
  ghost predicate HasByte(bytes: map<int, int>, m: map<int, Block>, p: int, i: int) {
    p in m && i in m[p].data ==> 0 <= i < m[p].size && ByteAt(bytes, p + CHUNK2MEM + i) == m[p].data[i]
  }

  /** The live blocks are those, and hold the bytes that were written. */
  ghost predicate Agrees(live: map<int, nat>, bytes: map<int, int>, m: map<int, Block>) {
    && live.Keys == m.Keys && (forall p :: p in m ==> live[p] == m[p].size)
    && forall p, i {:trigger HasByte(bytes, m, p, i)} :: HasByte(bytes, m, p, i)
  }

  /** Why an operation may be refused. */
  ghost predicate Breaks(m: map<int, Block>, op: Op) {
    match op
    case Alloc(p, n, os) => (p != 0 && p !in m) || n >= WORD64 || os.Mapped?
    case Write(p, i, v) => p !in m || i >= m[p].size
  }

  /**
   * A block that is handed out was not live before, one that does not grow stays where it is, and null
   * comes only if the system fails or the size is too large.
   */
  ghost predicate Sound(m: map<int, Block>, op: Op, reply: Reply) {
    match reply
    case Refused => Breaks(m, op)
    case Returned(r) =>
      op.Alloc? && op.nsize > 0 ==>
        && (r != 0 ==> r == op.p || r !in m)
        && (op.p in m && op.nsize <= m[op.p].size ==> r == op.p)
        && (r == 0 ==> op.os.Failed? || SysSize(MallocSize(op.nsize)) <= MallocSize(op.nsize))
  }

  lemma ByteOf(bytes: map<int, int>, a: int, n: nat, n': nat, i: nat)
    requires i < n && i < n'
    ensures i < |Prefix(bytes, a, n, n')| && Prefix(bytes, a, n, n')[i] == ByteAt(bytes, a + CHUNK2MEM + i)
  {
  }

  /** All blocks but p keep their bytes, and p hands on what fits into r. */
  lemma AllocAgrees(live: map<int, nat>, bytes: map<int, int>, bytes': map<int, int>, m: map<int, Block>, p: int,
                    r: int, n: nat)
    requires Agrees(live, bytes, m) && r != 0 && n > 0 && (r == p || r !in live)
    requires forall b, x {:trigger InPayload(live, b, x)} :: b != p && InPayload(live, b, x)
               ==> ByteAt(bytes', x) == ByteAt(bytes, x)
    requires p in live ==> Prefix(bytes', r, live[p], n) == Prefix(bytes, p, live[p], n)
    ensures Agrees((live - {p})[r := n], bytes', (m - {p})[r := Block(n, if p in m then Cut(m[p].data, n) else map[])])
  {
    var m' := (m - {p})[r := Block(n, if p in m then Cut(m[p].data, n) else map[])];
    forall b, i ensures HasByte(bytes', m', b, i) {
      if b in m' && i in m'[b].data {
        if b == r {
          assert HasByte(bytes, m, p, i);
          ByteOf(bytes, p, live[p], n, i);
          ByteOf(bytes', r, live[p], n, i);
        } else {
          assert HasByte(bytes, m, b, i) && InPayload(live, b, b + CHUNK2MEM + i);
        }
      }
    }
  }

  lemma FreeAgrees(live: map<int, nat>, bytes: map<int, int>, m: map<int, Block>, p: int)
    requires Agrees(live, bytes, m)
    ensures Agrees(live - {p}, bytes, m - {p})
  {
    forall b, i ensures HasByte(bytes, m - {p}, b, i) { assert HasByte(bytes, m, b, i); }
  }

  /** A write into a block changes no other one. */
  lemma WriteAgrees(live: map<int, nat>, bytes: map<int, int>, m: map<int, Block>, p: int, i: nat, v: int)
    requires Agrees(live, bytes, m) && p in m && i < m[p].size
    requires forall b, x {:trigger InPayload(live, b, x)} :: InPayload(live, b, x) && x == p + CHUNK2MEM + i ==> b == p
    ensures Agrees(live, bytes[p + CHUNK2MEM + i := v], m[p := m[p].(data := m[p].data[i := v])])
  {
    var bytes', m' := bytes[p + CHUNK2MEM + i := v], m[p := m[p].(data := m[p].data[i := v])];
    forall b, k ensures HasByte(bytes', m', b, k) {
      assert HasByte(bytes, m, b, k);
      if b in m && k in m[b].data { assert InPayload(live, b, b + CHUNK2MEM + k); }
    }
  }

  /** The rules of the interface. */
  ghost predicate Allowed(h: Heap, op: Op)
    reads h
  {
    match op
    case Alloc(p, n, os) =>
      && (p == 0 || p in h.live) && n < WORD64
      && (os.Mapped? ==> FreshRegion(h.segs, os.base, SysSize(MallocSize(n))))
    case Write(p, i, v) => p in h.live && i < h.live[p]
  }

  /** One operation, unless it breaks the rules; an answer of the system that overlaps a segment does not occur. */
  method Perform(h: Heap, op: Op, ghost m: map<int, Block>) returns (reply: Reply)
    requires h.Valid() && h.Accounted() && Agrees(h.live, h.bytes, m)
    modifies h, h.sb, h.tb
    ensures h.Valid() && h.Accounted() && Agrees(h.live, h.bytes, Step(m, op, reply)) && Sound(m, op, reply)
    ensures reply.Refused? <==> !old(Allowed(h, op))
  {
    reply := Refused;
    match op {
      case Alloc(p, n, os) =>
        if (p == 0 || p in h.live) && n < WORD64
            && (os.Mapped? ==> FreshRegion(h.segs, os.base, SysSize(MallocSize(n)))) {
          var r := PerformAlloc(h, p, n, os, m);
          reply := Returned(r);
        }
      case Write(p, i, v) =>
        if p in h.live && i < h.live[p] {
          PerformWrite(h, p, i, v, m);
          reply := Returned(0);
        }
    }
  }

  method PerformAlloc(h: Heap, p: int, n: nat, os: Mapping, ghost m: map<int, Block>) returns (r: int)
    requires h.Valid() && h.Accounted() && Agrees(h.live, h.bytes, m) && (p == 0 || p in h.live) && n < WORD64
    requires os.Mapped? ==> FreshRegion(h.segs, os.base, SysSize(MallocSize(n)))
    modifies h, h.sb, h.tb
    ensures h.Valid() && h.Accounted() && Agrees(h.live, h.bytes, Step(m, Alloc(p, n, os), Returned(r)))
              && Sound(m, Alloc(p, n, os), Returned(r))
  {
    ghost var live, bytes := h.live, h.bytes;
    InvOpened(h.Snap(), h.sb.content, h.tb.content, h.segs, h.live);
    NotZero(h.Snap(), h.segs, h.live);
    if p in live && n <= live[p] { h.StaysInPlace(p, n); }
    r := h.AllocF(p, n, os);
    if n == 0 {
      FreeAgrees(live, bytes, m, p);
    } else if r != 0 {
      AllocAgrees(live, bytes, h.bytes, m, p, r, n);
    }
  }

  method PerformWrite(h: Heap, p: int, i: nat, v: int, ghost m: map<int, Block>)
    requires h.Valid() && h.Accounted() && Agrees(h.live, h.bytes, m) && p in h.live && i < h.live[p]
    modifies h
    ensures h.Valid() && h.Accounted() && Agrees(h.live, h.bytes, Step(m, Write(p, i, v), Returned(0)))
  {
    forall b, x {:trigger InPayload(h.live, b, x)} | InPayload(h.live, b, x) && x == p + CHUNK2MEM + i ensures b == p {
      assert InPayload(h.live, p, x);
      LiveBlocksApart(h.Snap(), h.sb.content, h.tb.content, h.segs, h.live, p, b, x);
    }
    WriteAgrees(h.live, h.bytes, m, p, i, v);
    h.Poke(p + CHUNK2MEM + i, v);
  }

  /** Every reply was sound when it came. */
  ghost predicate AllSound(ops: seq<Op>, replies: seq<Reply>)
    requires |ops| == |replies|
  {
    ops != [] ==>
      var n := |ops| - 1;
      AllSound(ops[..n], replies[..n]) && Sound(Replay(ops[..n], replies[..n]), ops[n], replies[n])
  }

  lemma OneMore(ops: seq<Op>, replies: seq<Reply>, op: Op, reply: Reply)
    requires |ops| == |replies| && AllSound(ops, replies) && Sound(Replay(ops, replies), op, reply)
    ensures AllSound(ops + [op], replies + [reply])
              && Replay(ops + [op], replies + [reply]) == Step(Replay(ops, replies), op, reply)
  {
    var n := |ops|;
    assert (ops + [op])[..n] == ops && (replies + [reply])[..n] == replies;
  }

  /**
   * Any run of allocations, releases and writes: the live blocks are those that
   * the replies say, aligned, apart from each other and from the allocator's own
   * data, and each holds what the program wrote into it, also after it moved. No chunk is
   * in use without being such a block, the allocator's state or one of its records.
   */
  method Run(base: int, ops: seq<Op>) returns (h: Heap, replies: seq<Reply>)
    requires FreshRegion([], base, GRANULARITY)
    ensures h.Valid() && h.Accounted() && |replies| == |ops|
    ensures AllSound(ops, replies) && Agrees(h.live, h.bytes, Replay(ops, replies))
    ensures forall a, x :: InPayload(h.live, a, x) ==> (a + CHUNK2MEM) % 8 == 0
    ensures forall a, b, x :: InPayload(h.live, a, x) && InPayload(h.live, b, x) ==> a == b
    ensures forall a, c, x :: InPayload(h.live, a, x) ==> !InBookkeeping(h.Snap(), c, x)
  {
    h := new Heap(base);
    replies := [];
    ghost var past: seq<Op> := [];
    while |replies| < |ops|
      invariant h.Valid() && h.Accounted() && fresh(h) && fresh(h.sb) && fresh(h.tb)
      invariant |past| == |replies| <= |ops| && past == ops[..|replies|] && AllSound(past, replies)
                  && Agrees(h.live, h.bytes, Replay(past, replies))
      decreases |ops| - |replies|
    {
      var op := ops[|replies|];
      var reply := Perform(h, op, Replay(past, replies));
      OneMore(past, replies, op, reply);
      past := past + [op];
      replies := replies + [reply];
    }
    assert past == ops;
    forall a, b, x | InPayload(h.live, a, x)
      ensures (a + CHUNK2MEM) % 8 == 0
      ensures InPayload(h.live, b, x) ==> a == b
    {
      LiveBlocksApart(h.Snap(), h.sb.content, h.tb.content, h.segs, h.live, a, b, x);
    }
    forall a, c, x | InPayload(h.live, a, x)
      ensures !InBookkeeping(h.Snap(), c, x)
    {
      BookkeepingApart(h.Snap(), h.sb.content, h.tb.content, h.segs, h.live, a, c, x);
    }
  }
}
