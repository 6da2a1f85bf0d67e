/**
 * Changes to the list of segments in lj_alloc.c: growing and trimming the one
 * that holds top, adding a new one, extending one downwards, releasing one.
 */
module Regions {
  import opened Chunks
  import opened Segments
  import opened HeapInv

  /** A region that overlaps none of the segments. */
  predicate FreshRegion(segs: seq<Segment>, base: int, size: int) {
    && base > 0 && base % 8 == 0 && size > 0 && size % 8 == 0 && base + size <= ADDRESS_LIMIT
    && forall k :: 0 <= k < |segs| ==> segs[k].End() <= base || base + size <= segs[k].base
  }

  /** init_top */
  function InitTop(m: Memory, p: int, psize: int): Memory {
    var m := SetTop(m, p, psize);
    m[p + psize := Head(FootAt(m, p + psize), TOP_FOOT_SIZE, false, false)]
  }

  lemma NotInRegion(s: State, segs: seq<Segment>, base: int, size: int, a: int)
    requires Segmented(s, segs) && FreshRegion(segs, base, size) && a in s.cs
    ensures !(base <= a < base + size)
  {
    assert InSome(segs, a);
  }

  /** Where the chunk behind top lies. */
  lemma TopFoot(s: State, segs: seq<Segment>)
    requires WellFormed(s) && Segmented(s, segs)
    ensures s.top in s.m && s.m[s.top].p
    ensures var f := Next(s.m, s.top);
            && f in s.cs && f in s.ls && f in s.m && f !in s.fs && f == segs[0].End() - TOP_FOOT_SIZE && !s.m[f].c
                && !s.m[f].p
            && segs[0].Holds(f) && f > s.top && s.m[f].size == TOP_FOOT_SIZE
    ensures forall b :: Inner(s, b) && b != s.top ==> b in s.m && Next(s.m, b) != Next(s.m, s.top)
  {
    At(s, s.top);
    FreePinuse(s, s.top);
    NextHeld(s, segs, 0, s.top);
    assert Placed(s, segs, 0, Next(s.m, s.top));
    forall b | Inner(s, b) && b != s.top
      ensures b in s.m && Next(s.m, b) != Next(s.m, s.top)
    {
      Elsewhere(s, s.top, b);
      At(s, b);
    }
  }

  // ---- The first segment ----

  /** pad_request(sizeof(struct malloc_state)) */
  const MSTATE_SIZE: nat := 872

  /** lj_alloc_create: the allocator state in a used chunk, and the rest of the region in top. */
  function CreateState(base: int, size: int): State {
    var mn := base + MSTATE_SIZE;
    var foot := base + size - TOP_FOOT_SIZE;
    State(InitTop(SetInuse(map[], base, MSTATE_SIZE), mn, foot - mn), {base, mn, foot}, {foot}, {base}, mn, 0)
  }

  lemma Created(base: int, size: int)
    requires FreshRegion([], base, size) && size > MSTATE_SIZE + TOP_FOOT_SIZE
    ensures Inv(CreateState(base, size), map[], map[], [Segment(base, size, 0)], map[])
  {
    var s, segs := CreateState(base, size), [Segment(base, size, 0)];
    forall b | b in s.cs ensures ChunkOk(s, b) && InSome(segs, b) { assert segs[0].Holds(b); }
    forall b ensures Linked(s, b) { }
    assert WellFormed(s);
    forall k: nat ensures Recorded(s, segs, k) { }
    forall k: nat, b ensures Placed(s, segs, k, b) { }
    assert Segmented(s, segs);
  }

  // ---- Growing and trimming the segment of top ----

  function ResizeState(s: State, delta: int): State
    requires s.top in s.m
  {
    var f := Next(s.m, s.top);
    s.(m := InitTop(s.m, s.top, s.m[s.top].size + delta),
       cs := s.cs - {f} + {f + delta}, ls := s.ls - {f} + {f + delta})
  }

  function ResizeSegs(segs: seq<Segment>, delta: int): seq<Segment>
    requires |segs| > 0
  {
    segs[0 := segs[0].(size := segs[0].size + delta)]
  }

  ghost predicate Resizable(s: State, segs: seq<Segment>, delta: int) {
    && WellFormed(s) && Segmented(s, segs) && s.top in s.m && delta % 8 == 0 && s.m[s.top].size + delta > 0
    && segs[0].End() + delta <= ADDRESS_LIMIT
    && (delta > 0 ==> FreshRegion(segs, segs[0].End(), delta))
  }

  lemma FootMoved(s: State, segs: seq<Segment>, delta: int)
    requires Resizable(s, segs, delta)
    ensures var f := Next(s.m, s.top);
            && (f + delta in s.cs ==> delta == 0)
            && f + delta > s.top
            && forall b :: b in s.cs && b != f && b > s.top ==> b >= f + delta + TOP_FOOT_SIZE
  {
    TopFoot(s, segs);
    var f := Next(s.m, s.top);
    forall b | b in s.cs && b != f && b > s.top
      ensures b >= f + delta + TOP_FOOT_SIZE
    {
      Elsewhere(s, s.top, b);
      Elsewhere(s, f, b);
      if delta > 0 { NotInRegion(s, segs, segs[0].End(), delta, b); }
    }
  }

  lemma ResizeWellFormed(s: State, segs: seq<Segment>, delta: int)
    requires Resizable(s, segs, delta)
    ensures WellFormed(ResizeState(s, delta))
  {
    TopFoot(s, segs);
    FootMoved(s, segs, delta);
    At(s, s.top);
    var f := Next(s.m, s.top);
    At(s, f);
    var s' := ResizeState(s, delta);
    forall b | b in s'.cs ensures ChunkOk(s', b) { if b != f + delta { assert ChunkOk(s, b); } }
    forall b, c ensures Apart(s', b, c) { ResizeApart(s, segs, delta, b, c); }
    forall b ensures LastOk(s', b) { assert LastOk(s, b); assert b in s.ls ==> ChunkOk(s, b); }
    forall b ensures Linked(s', b) { ResizeLinked(s, segs, delta, b); }
  }

  lemma ResizeApart(s: State, segs: seq<Segment>, delta: int, b: int, c: int)
    requires Resizable(s, segs, delta) && s.top in s.m
    ensures Apart(ResizeState(s, delta), b, c)
  {
    TopFoot(s, segs);
    FootMoved(s, segs, delta);
    At(s, s.top);
    assert Apart(s, b, c);
    if b in s.cs { assert ChunkOk(s, b); Elsewhere(s, s.top, if b == s.top then Next(s.m, s.top) else b); }
  }

  lemma ResizeLinked(s: State, segs: seq<Segment>, delta: int, b: int)
    requires Resizable(s, segs, delta) && s.top in s.m
    ensures Linked(ResizeState(s, delta), b)
  {
    TopFoot(s, segs);
    FootMoved(s, segs, delta);
    At(s, s.top);
    assert Linked(s, b);
    if Inner(s, b) && b != s.top { At(s, b); }
  }

  lemma TopResized(s: State, sbc: map<int, nat>, tbc: map<int, nat>, segs: seq<Segment>, live: map<int, nat>,
                   delta: int)
    requires Inv(s, sbc, tbc, segs, live) && Resizable(s, segs, delta)
    ensures var s' := ResizeState(s, delta);
            Inv(s', sbc, tbc, ResizeSegs(segs, delta), live) && Kept(s, s', 0)
    ensures forall d :: Sized(s, d, s.m[s.top].size) ==> Sized(ResizeState(s, delta), d, s.m[s.top].size + delta)
  {
    InvOpened(s, sbc, tbc, segs, live);
    var s' := ResizeState(s, delta);
    ResizeWellFormed(s, segs, delta);
    TopFoot(s, segs);
    FootMoved(s, segs, delta);
    assert Kept(s, s', 0);
    NotZero(s, segs, live);
    ResizeSegmented(s, segs, delta);
    LiveKept(s, s', live, 0);
    forall b ensures BinnedAt(s', sbc, tbc, b) { assert BinnedAt(s, sbc, tbc, b); }
    forall a | a in live ensures NoRecord(ResizeSegs(segs, delta), a) { assert NoRecord(segs, a); }
  }

  lemma ResizeSegmented(s: State, segs: seq<Segment>, delta: int)
    requires Resizable(s, segs, delta)
    requires Kept(s, ResizeState(s, delta), 0) && NoRecord(segs, 0)
    ensures Segmented(ResizeState(s, delta), ResizeSegs(segs, delta))
  {
    var s', segs' := ResizeState(s, delta), ResizeSegs(segs, delta);
    TopFoot(s, segs);
    FootMoved(s, segs, delta);
    RecordsKept(s, s', segs, 0);
    var f := Next(s.m, s.top);
    assert segs'[0].Holds(f + delta);
    forall j, k ensures Separate(segs', j, k) { assert Separate(segs, j, k); }
    forall b | b in s'.cs ensures InSome(segs', b) {
      if b == f + delta {
        assert segs'[0].Holds(b);
      } else {
        assert InSome(segs, b);
        var k :| 0 <= k < |segs| && segs[k].Holds(b);
        if k == 0 { InFirst(s, segs, b); assert segs'[0].Holds(b); } else { assert segs'[k].Holds(b); }
      }
    }
    forall k: nat ensures Recorded(s', segs', k) { assert Recorded(s', segs, k); }
    forall k: nat, b ensures Placed(s', segs', k, b) {
      ResizePlaced(s, segs, delta, k, b);
    }
  }

  lemma InFirst(s: State, segs: seq<Segment>, b: int)
    requires WellFormed(s) && Segmented(s, segs) && b in s.cs && segs[0].Holds(b)
    ensures b <= s.top || b == Next(s.m, s.top)
    ensures b < s.top ==> b in s.m && Next(s.m, b) <= s.top
  {
    TopFoot(s, segs);
    if b != Next(s.m, s.top) { Elsewhere(s, Next(s.m, s.top), b); }
    if b != s.top { Elsewhere(s, s.top, b); }
  }

  lemma ResizePlaced(s: State, segs: seq<Segment>, delta: int, k: nat, b: int)
    requires Resizable(s, segs, delta)
    ensures Placed(ResizeState(s, delta), ResizeSegs(segs, delta), k, b)
  {
    TopFoot(s, segs);
    FootMoved(s, segs, delta);
    var f := Next(s.m, s.top);
    var segs' := ResizeSegs(segs, delta);
    assert Placed(s, segs, k, b) && Separate(segs, 0, k);
    if k < |segs| && segs'[k].Holds(b) {
      if k == 0 {
        if b in s.cs && b != f {
          assert ChunkOk(s, b);
          assert InSome(segs, b);
          if delta > 0 { NotInRegion(s, segs, segs[0].End(), delta, b); }
          InFirst(s, segs, b);
        }
      } else {
        assert b != f + delta by {
          assert delta > 0 ==> segs[k].End() <= segs[0].End() || segs[0].End() + delta <= segs[k].base;
        }
      }
    }
  }

  // ---- A new segment ----

  /** Where the record of the old top segment goes: over top, or behind a top that stays a chunk. */
  function RecordAt(s: State): int
    requires s.top in s.m
  {
    if s.m[s.top].size < MIN_CHUNK_SIZE then s.top else Next(s.m, s.top)
  }

  function Fenceposts(rec: int, end: int): set<int> {
    set x: int | rec + 32 <= x <= end - 16 && x % 8 == 0
  }

  function PushSegment(s: State, segs: seq<Segment>, base: int, size: int): seq<Segment>
    requires |segs| > 0 && s.top in s.m
  {
    [Segment(base, size, 0), segs[0].(rec := RecordAt(s))] + segs[1..]
  }

  function AddState(s: State, segs: seq<Segment>, base: int, size: int, m: Memory): State
    requires |segs| > 0 && s.top in s.m
  {
    var f, end, rec := Next(s.m, s.top), segs[0].End(), RecordAt(s);
    State(m,
          s.cs - {f} + {rec, base, base + size - TOP_FOOT_SIZE} + Fenceposts(rec, end),
          s.ls - {f} + {end - 16, base + size - TOP_FOOT_SIZE},
          s.fs + {base}, base, s.dv)
  }

  /** Fenceposts in m' from one address to another, both included. */
  ghost predicate Posted(m: Memory, m': Memory, from: int, to: int) {
    && (forall x :: from <= x <= to && x % 8 == 0 ==> x in m' && m'[x].size == 8 && m'[x].c && m'[x].p)
    && (forall x :: x in m && !(from <= x <= to) ==> x in m' && m'[x] == m[x])
  }

  /** Sets and links after add_segment. */
  ghost predicate AddedShape(s: State, s': State, segs: seq<Segment>, base: int, size: int)
    requires |segs| > 0 && s.top in s.m
  {
    var f, end, rec := Next(s.m, s.top), segs[0].End(), RecordAt(s);
    && s'.cs == s.cs - {f} + {rec, base, base + size - TOP_FOOT_SIZE} + Fenceposts(rec, end)
    && s'.ls == s.ls - {f} + {end - 16, base + size - TOP_FOOT_SIZE}
    && s'.fs == s.fs + {base}
    && s'.top == base && s'.dv == s.dv
  }

  /** Headers after add_segment. */
  ghost predicate AddedHeads(s: State, s': State, segs: seq<Segment>, base: int, size: int)
    requires |segs| > 0 && s.top in s.m
  {
    var f, end, rec, ts := Next(s.m, s.top), segs[0].End(), RecordAt(s), s.m[s.top].size;
    && base in s'.m && s'.m[base].size == size - TOP_FOOT_SIZE && !s'.m[base].c && s'.m[base].p
    && base + size - TOP_FOOT_SIZE in s'.m && s'.m[base + size - TOP_FOOT_SIZE].size == TOP_FOOT_SIZE
    && !s'.m[base + size - TOP_FOOT_SIZE].c && !s'.m[base + size - TOP_FOOT_SIZE].p
    && rec in s'.m && s'.m[rec].size == 32 && s'.m[rec].c && (s'.m[rec].p <==> rec == s.top)
    && (rec != s.top ==> s'.m[rec].foot == ts && s.top in s'.m && s'.m[s.top].size == ts && !s'.m[s.top].c && s'.m[s.top].p)
    && (forall x :: x in Fenceposts(rec, end) ==> x in s'.m && s'.m[x].size == 8 && s'.m[x].c && s'.m[x].p)
    && (forall b :: b in s.cs && b != s.top && b != f ==> b in s.m && b in s'.m && s'.m[b] == s.m[b])
  }

  ghost predicate Added(s: State, s': State, segs: seq<Segment>, base: int, size: int) {
    && WellFormed(s) && Segmented(s, segs) && s.top in s.m
    && FreshRegion(segs, base, size) && size > TOP_FOOT_SIZE
    && AddedShape(s, s', segs, base, size) && AddedHeads(s, s', segs, base, size)
  }

  /** The headers that add_segment writes before it places the fenceposts. */
  function RecordMem(s: State, base: int, size: int): Memory
    requires s.top in s.m
  {
    SetInuse(InitTop(s.m, base, size - TOP_FOOT_SIZE), RecordAt(s), 32)
  }

  /** The old top becomes a free chunk if its record leaves room. */
  function OldTopFreed(s: State, m: Memory): Memory
    requires s.top in s.m && s.m[s.top].size > 0 && RecordAt(s) in m
  {
    if RecordAt(s) == s.top then m else SetFree(SetPinuse(m, RecordAt(s), false), s.top, s.m[s.top].size)
  }

  /** Where the tail of the old segment lies. */
  lemma OldTail(s: State, segs: seq<Segment>, base: int, size: int)
    requires WellFormed(s) && Segmented(s, segs) && FreshRegion(segs, base, size) && size > TOP_FOOT_SIZE
    ensures s.top in s.m && s.m[s.top].size > 0 && s.m[s.top].size % 8 == 0 && s.top % 8 == 0 && s.top > 0
    ensures segs[0].End() == s.top + s.m[s.top].size + TOP_FOOT_SIZE
    ensures s.top <= RecordAt(s) && RecordAt(s) % 8 == 0 && RecordAt(s) + 64 <= segs[0].End()
    ensures segs[0].End() <= base || base + size <= s.top
  {
    TopFoot(s, segs);
    At(s, s.top);
    NotInRegion(s, segs, base, size, s.top);
    assert segs[0].End() <= base || base + size <= segs[0].base;
  }

  lemma AddedBy(s: State, segs: seq<Segment>, base: int, size: int, m: Memory)
    requires WellFormed(s) && Segmented(s, segs) && FreshRegion(segs, base, size) && size > TOP_FOOT_SIZE
    requires s.top in s.m && Posted(RecordMem(s, base, size), m, RecordAt(s) + 32, segs[0].End() - 16)
    ensures s.m[s.top].size > 0 && RecordAt(s) in m
    ensures Added(s, AddState(s, segs, base, size, OldTopFreed(s, m)), segs, base, size)
  {
    OldTail(s, segs, base, size);
    var s' := AddState(s, segs, base, size, OldTopFreed(s, m));
    forall b | b in s.cs && b != s.top && b != Next(s.m, s.top)
      ensures b in s.m && b in s'.m && s'.m[b] == s.m[b]
    {
      OldChunk(s, segs, base, size, b);
      NotInRegion(s, segs, base, size, b);
      Elsewhere(s, s.top, b);
    }
    assert s'.top == base;
  }

  lemma AddedSized(s: State, s': State, segs: seq<Segment>, base: int, size: int, dvsize: nat)
    requires Added(s, s', segs, base, size) && Sized(s, dvsize, s.m[s.top].size)
    ensures Sized(s', dvsize, size - TOP_FOOT_SIZE)
  {
    if s.dv != 0 { OldChunk(s, segs, base, size, s.dv); }
  }

  /** Old chunks end before top or start behind the old segment. */
  lemma OldChunk(s: State, segs: seq<Segment>, base: int, size: int, b: int)
    requires WellFormed(s) && Segmented(s, segs) && FreshRegion(segs, base, size)
    requires b in s.cs && b != s.top && b != Next(s.m, s.top)
    ensures ChunkOk(s, b)
    ensures (b < s.top && Next(s.m, b) <= s.top) || b >= segs[0].End()
    ensures Next(s.m, b) <= base || b >= base + size
  {
    TopFoot(s, segs);
    Elsewhere(s, s.top, b);
    Elsewhere(s, Next(s.m, s.top), b);
    At(s, b);
    assert InSome(segs, b);
    var k :| 0 <= k < |segs| && segs[k].Holds(b);
    assert Placed(s, segs, k, b);
  }

  /** Where the chunks are after add_segment. */
  ghost predicate AddedAt(s: State, s': State, segs: seq<Segment>, base: int, size: int, b: int)
    requires |segs| > 0 && s.top in s.m
  {
    && ChunkOk(s', b)
    && if base <= b < base + size then b == base || b == base + size - TOP_FOOT_SIZE
       else
         && (Next(s'.m, b) <= base || b >= base + size)
         && if s.top <= b < segs[0].End() then b == s.top || b == RecordAt(s)
             || b in Fenceposts(RecordAt(s), segs[0].End())
            else b in s.cs && b in s.m && s'.m[b] == s.m[b] && (b < s.top ==> Next(s.m, b) <= s.top)
  }

  lemma AddedChunks(s: State, s': State, segs: seq<Segment>, base: int, size: int, b: int)
    requires Added(s, s', segs, base, size) && b in s'.cs
    ensures AddedAt(s, s', segs, base, size, b)
  {
    TopFoot(s, segs);
    assert segs[0].End() <= base || base + size <= segs[0].base;
    if b in s.cs && b != s.top && b != Next(s.m, s.top) {
      OldChunk(s, segs, base, size, b);
    } else if b == base || b == base + size - TOP_FOOT_SIZE {
    } else {
      At(s, s.top);
      AddedTail(s, s', segs, base, size, b);
    }
  }

  lemma AddedTail(s: State, s': State, segs: seq<Segment>, base: int, size: int, b: int)
    requires Added(s, s', segs, base, size) && b in s'.cs
    requires b == s.top || b == RecordAt(s) || b in Fenceposts(RecordAt(s), segs[0].End())
    ensures ChunkOk(s', b) && s.top <= b && Next(s'.m, b) <= segs[0].End()
  {
    TopFoot(s, segs);
    At(s, s.top);
  }

  lemma AddedApart(s: State, s': State, segs: seq<Segment>, base: int, size: int, b: int, c: int)
    requires Added(s, s', segs, base, size)
    ensures Apart(s', b, c)
  {
    if b in s'.cs && c in s'.cs && b < c {
      TopFoot(s, segs);
      AddedChunks(s, s', segs, base, size, b);
      AddedChunks(s, s', segs, base, size, c);
      if base <= b < base + size {
        assert Next(s'.m, b) <= base + size && (c < base + size ==> Next(s'.m, b) <= c);
      } else if base <= c < base + size {
        assert Next(s'.m, b) <= base;
      } else if s.top <= b < segs[0].End() {
        if c < segs[0].End() { TailApart(s, s', segs, base, size, b, c); } else { AddedTail(s, s', segs, base, size, b); }
      } else {
        AddedApartOld(s, s', segs, base, size, b, c);
      }
    }
  }

  /** The old top, the record and the fenceposts. */
  lemma TailApart(s: State, s': State, segs: seq<Segment>, base: int, size: int, b: int, c: int)
    requires Added(s, s', segs, base, size) && b < c
    requires b == s.top || b == RecordAt(s) || b in Fenceposts(RecordAt(s), segs[0].End())
    requires c == s.top || c == RecordAt(s) || c in Fenceposts(RecordAt(s), segs[0].End())
    ensures b in s'.m && Next(s'.m, b) <= c
  {
    TopFoot(s, segs);
    At(s, s.top);
  }

  /** A chunk that was there before, and another one behind it. */
  lemma AddedApartOld(s: State, s': State, segs: seq<Segment>, base: int, size: int, b: int, c: int)
    requires Added(s, s', segs, base, size) && b < c
    requires AddedAt(s, s', segs, base, size, b) && AddedAt(s, s', segs, base, size, c)
    requires !(base <= b < base + size) && !(base <= c < base + size) && !(s.top <= b < segs[0].End())
    ensures Next(s'.m, b) <= c
  {
    if b >= s.top || c < s.top { assert b in s.cs && c in s.cs ==> Apart(s, b, c); }
  }

  /** Fenceposts are no old first chunks. */
  lemma PostNew(s: State, segs: seq<Segment>, x: int)
    requires WellFormed(s) && Segmented(s, segs) && s.top in s.m && x in Fenceposts(RecordAt(s), segs[0].End())
    ensures x !in s.fs && (x in s.cs ==> x == Next(s.m, s.top))
  {
    TopFoot(s, segs);
    if x in s.cs && x != Next(s.m, s.top) {
      Elsewhere(s, s.top, x);
      Elsewhere(s, Next(s.m, s.top), x);
    }
  }

  lemma AddedLinked(s: State, s': State, segs: seq<Segment>, base: int, size: int, b: int)
    requires Added(s, s', segs, base, size)
    ensures Linked(s', b)
  {
    TopFoot(s, segs);
    At(s, s.top);
    var f, end, rec := Next(s.m, s.top), segs[0].End(), RecordAt(s);
    var posts := Fenceposts(rec, end);
    NotInRegion(s, segs, base, size, s.top);
    assert end <= base || base + size <= segs[0].base;
    if Inner(s', b) {
      if b in s.cs && b != s.top && b != f {
        assert Inner(s, b);
        OldChunk(s, segs, base, size, b);
        At(s, b);
        OldLinks(s, s', segs, base, size, b);
      } else if b in posts || b == rec {
        PostLinks(s, s', segs, base, size, b);
      }
    }
  }

  /** The segment record and the fenceposts. */
  lemma PostLinks(s: State, s': State, segs: seq<Segment>, base: int, size: int, b: int)
    requires Added(s, s', segs, base, size) && Inner(s', b)
    requires b == RecordAt(s) || b in Fenceposts(RecordAt(s), segs[0].End())
    requires !(b in s.cs && b != s.top && b != Next(s.m, s.top))
    ensures Linked(s', b)
  {
    TopFoot(s, segs);
    At(s, s.top);
    NotInRegion(s, segs, base, size, s.top);
    assert segs[0].End() <= base || base + size <= segs[0].base;
    if b in Fenceposts(RecordAt(s), segs[0].End()) {
      PostNew(s, segs, b + 8);
    } else {
      PostNew(s, segs, RecordAt(s) + 32);
    }
  }

  lemma OldLinks(s: State, s': State, segs: seq<Segment>, base: int, size: int, b: int)
    requires Added(s, s', segs, base, size)
    requires Inner(s, b) && b != s.top && b != Next(s.m, s.top) && b in s.m
    ensures Linked(s', b)
  {
    TopFoot(s, segs);
    At(s, b);
    var n := Next(s.m, b);
    NotInRegion(s, segs, base, size, b);
    NotInRegion(s, segs, base, size, n);
    if n == s.top {
      assert s'.m[s.top].p && n in s'.cs;
    } else {
      assert s'.m[n] == s.m[n];
    }
    if !s.m[b].p {
      var q := b - s.m[b].foot;
      assert q != s.top && q != Next(s.m, s.top);
      NotInRegion(s, segs, base, size, q);
    }
  }

  lemma AddedWellFormed(s: State, s': State, segs: seq<Segment>, base: int, size: int)
    requires Added(s, s', segs, base, size)
    ensures WellFormed(s')
  {
    TopFoot(s, segs);
    At(s, s.top);
    var f, end, rec := Next(s.m, s.top), segs[0].End(), RecordAt(s);
    NotInRegion(s, segs, base, size, s.top);
    assert end - 16 in Fenceposts(rec, end);
    forall b | b in s'.cs ensures ChunkOk(s', b) { AddedChunks(s, s', segs, base, size, b); }
    forall b, c ensures Apart(s', b, c) { AddedApart(s, s', segs, base, size, b, c); }
    forall b ensures LastOk(s', b) {
      assert LastOk(s, b);
      if b in s.ls && b != f { assert b != s.top; }
    }
    forall b ensures Linked(s', b) { AddedLinked(s, s', segs, base, size, b); }
    if s.dv != 0 { NotInRegion(s, segs, base, size, s.dv); }
    if base in s.ls { NotInRegion(s, segs, base, size, base); }
    assert segs[0].End() <= base || base + size <= segs[0].base;
  }

  lemma AddedKept(s: State, s': State, segs: seq<Segment>, base: int, size: int)
    requires Added(s, s', segs, base, size)
    ensures Kept(s, s', 0)
  {
    TopFoot(s, segs);
    forall b | Used(s, b)
      ensures Used(s', b) && s'.m[b] == s.m[b]
    {
      OldChunk(s, segs, base, size, b);
      NotInRegion(s, segs, base, size, b);
      At(s, s.top);
      Elsewhere(s, s.top, b);
    }
  }

  /** The old index of a segment that was moved back in the list. */
  lemma AddedPlaced(s: State, s': State, segs: seq<Segment>, base: int, size: int, k: nat, b: int)
    requires Added(s, s', segs, base, size)
    ensures Placed(s', PushSegment(s, segs, base, size), k, b)
  {
    var segs' := PushSegment(s, segs, base, size);
    if b in s'.cs && k < |segs'| && segs'[k].Holds(b) {
      TopFoot(s, segs);
      AddedChunks(s, s', segs, base, size, b);
      assert segs[0].End() <= base || base + size <= segs[0].base;
      if k == 0 {
        NotInRegion(s, segs, base, size, s.top);
        LastElsewhere(s, segs, base, size);
      } else if k == 1 {
        AddedPlacedTop(s, s', segs, base, size, b);
      } else {
        AddedPlacedOld(s, s', segs, base, size, k, b);
      }
    }
  }

  lemma AddedPlacedTop(s: State, s': State, segs: seq<Segment>, base: int, size: int, b: int)
    requires Added(s, s', segs, base, size) && b in s'.cs && segs[0].Holds(b)
    ensures Placed(s', PushSegment(s, segs, base, size), 1, b)
  {
    TopFoot(s, segs);
    AddedChunks(s, s', segs, base, size, b);
    assert segs[0].End() <= base || base + size <= segs[0].base;
    if b < s.top {
      assert Placed(s, segs, 0, b);
    } else if b in Fenceposts(RecordAt(s), segs[0].End()) {
      PostNew(s, segs, b);
    }
  }

  lemma LastElsewhere(s: State, segs: seq<Segment>, base: int, size: int)
    requires WellFormed(s) && Segmented(s, segs) && FreshRegion(segs, base, size)
    requires size > TOP_FOOT_SIZE
    ensures base !in s.ls && base + size - TOP_FOOT_SIZE !in s.ls
  {
    if base in s.ls { NotInRegion(s, segs, base, size, base); }
    if base + size - TOP_FOOT_SIZE in s.ls { NotInRegion(s, segs, base, size, base + size - TOP_FOOT_SIZE); }
  }

  lemma AddedPlacedOld(s: State, s': State, segs: seq<Segment>, base: int, size: int, k: nat, b: int)
    requires Added(s, s', segs, base, size) && b in s'.cs && 2 <= k <= |segs| && segs[k - 1].Holds(b)
    ensures Placed(s', PushSegment(s, segs, base, size), k, b)
  {
    var segs' := PushSegment(s, segs, base, size);
    assert segs'[k] == segs[k - 1];
    TopFoot(s, segs);
    AddedChunks(s, s', segs, base, size, b);
    assert Separate(segs, 0, k - 1) && Placed(s, segs, k - 1, b);
    assert segs[k - 1].End() <= base || base + size <= segs[k - 1].base;
    assert segs[0].base <= s.top;
    assert b in s.cs && s'.m[b] == s.m[b];
  }

  lemma AddedInSome(s: State, s': State, segs: seq<Segment>, base: int, size: int, b: int)
    requires Added(s, s', segs, base, size) && b in s'.cs
    ensures InSome(PushSegment(s, segs, base, size), b)
  {
    var segs' := PushSegment(s, segs, base, size);
    TopFoot(s, segs);
    AddedChunks(s, s', segs, base, size, b);
    if base <= b < base + size {
      assert segs'[0].Holds(b);
    } else if s.top <= b < segs[0].End() {
      assert segs'[1].Holds(b);
    } else {
      assert InSome(segs, b);
      var k :| 0 <= k < |segs| && segs[k].Holds(b);
      assert segs'[k + 1].Holds(b);
    }
  }

  lemma AddedSegmented(s: State, s': State, segs: seq<Segment>, base: int, size: int)
    requires Added(s, s', segs, base, size) && NoRecord(segs, 0)
    ensures Segmented(s', PushSegment(s, segs, base, size))
  {
    var segs' := PushSegment(s, segs, base, size);
    var old' := segs[0].(rec := RecordAt(s));
    assert forall k :: 2 <= k < |segs'| ==> segs'[k] == segs[k - 1];
    TopFoot(s, segs);
    AddedKept(s, s', segs, base, size);
    RecordsKept(s, s', segs, 0);
    forall j, k ensures Separate(segs', j, k) {
      assert Separate(segs, if j == 0 then 0 else j - 1, if k == 0 then 0 else k - 1);
    }
    forall b | b in s'.cs ensures InSome(segs', b) { AddedInSome(s, s', segs, base, size, b); }
    forall k: nat ensures Recorded(s', segs', k) {
      if k >= 2 { assert Recorded(s', segs, k - 1); }
      if k == 1 { AddedRecord(s, s', segs, base, size); }
    }
    forall k: nat, b ensures Placed(s', segs', k, b) { AddedPlaced(s, s', segs, base, size, k, b); }
  }

  lemma AddedRecord(s: State, s': State, segs: seq<Segment>, base: int, size: int)
    requires Added(s, s', segs, base, size)
    ensures Used(s', RecordAt(s)) && segs[0].Holds(RecordAt(s)) && RecordAt(s) + 64 <= segs[0].End()
  {
    TopFoot(s, segs);
    At(s, s.top);
    NotInRegion(s, segs, base, size, s.top);
    assert segs[0].End() <= base || base + size <= segs[0].base;
  }

  /** add_segment: the old top, if it is large enough for a chunk, goes to a bin. */
  lemma SegmentAdded(s: State, s': State, sbc: map<int, nat>, tbc: map<int, nat>, segs: seq<Segment>,
                     live: map<int, nat>,
                     base: int, size: int, ts: nat)
    requires Inv(s, sbc, tbc, segs, live) && Added(s, s', segs, base, size) && ts == s.m[s.top].size
    ensures s.top !in sbc && s.top !in tbc
    ensures var gone := ts < MIN_CHUNK_SIZE;
            Inv(s', if gone then sbc else AddSmall(sbc, s.top, ts), if gone then tbc else AddLarge(tbc, s.top, ts),
                PushSegment(s, segs, base, size), live)
            && Kept(s, s', 0)
  {
    InvOpened(s, sbc, tbc, segs, live);
    var gone := ts < MIN_CHUNK_SIZE;
    var sbc', tbc' := if gone then sbc else AddSmall(sbc, s.top, ts), if gone then tbc else AddLarge(tbc, s.top, ts);
    assert BinnedAt(s, sbc, tbc, s.top);
    AddedWellFormed(s, s', segs, base, size);
    NotZero(s, segs, live);
    AddedSegmented(s, s', segs, base, size);
    AddedKept(s, s', segs, base, size);
    LiveKept(s, s', live, 0);
    AddedBins(s, s', sbc, tbc, segs, base, size, ts);
    forall a | a in live ensures NoRecord(PushSegment(s, segs, base, size), a) {
      assert NoRecord(segs, a) && LiveAt(s, live, a);
      RecordNotUsed(s, segs);
    }
  }

  lemma RecordNotUsed(s: State, segs: seq<Segment>)
    requires WellFormed(s) && Segmented(s, segs)
    ensures s.top in s.m && !Used(s, RecordAt(s))
  {
    TopFoot(s, segs);
  }

  lemma AddedBins(s: State, s': State, sbc: map<int, nat>, tbc: map<int, nat>, segs: seq<Segment>, base: int, size: int,
                  ts: nat)
    requires Added(s, s', segs, base, size) && ts == s.m[s.top].size
    requires forall b {:trigger BinnedAt(s, sbc, tbc, b)} :: BinnedAt(s, sbc, tbc, b)
    ensures var gone := ts < MIN_CHUNK_SIZE;
            var sbc', tbc' := if gone then sbc else AddSmall(sbc, s.top, ts), if gone then tbc
                else AddLarge(tbc, s.top, ts);
            forall b {:trigger BinnedAt(s', sbc', tbc', b)} :: BinnedAt(s', sbc', tbc', b)
  {
    var gone := ts < MIN_CHUNK_SIZE;
    var sbc', tbc' := if gone then sbc else AddSmall(sbc, s.top, ts), if gone then tbc else AddLarge(tbc, s.top, ts);
    TopFoot(s, segs);
    NotInRegion(s, segs, base, size, s.top);
    assert segs[0].End() <= base || base + size <= segs[0].base;
    forall b ensures BinnedAt(s', sbc', tbc', b) {
      assert BinnedAt(s, sbc, tbc, b);
      if b in s'.cs { AddedChunks(s, s', segs, base, size, b); }
      if b in s.cs && b != s.top && b != Next(s.m, s.top) {
        OldChunk(s, segs, base, size, b);
      }
    }
  }

  /** What add_segment relies on. */
  lemma AddReady(s: State, sbc: map<int, nat>, tbc: map<int, nat>, segs: seq<Segment>, live: map<int, nat>,
                 base: int, size: int, topsize: nat)
    requires Inv(s, sbc, tbc, segs, live) && FreshRegion(segs, base, size) && size > TOP_FOOT_SIZE && s.top in s.m
               && s.m[s.top].size == topsize
    ensures |segs| > 0 && segs[0].Holds(s.top) && s.top !in sbc && s.top !in tbc
    ensures 0 < topsize < ADDRESS_LIMIT && topsize % 8 == 0 && s.top % 8 == 0 && s.top > 0
    ensures segs[0].End() == s.top + topsize + TOP_FOOT_SIZE
  {
    InvOpened(s, sbc, tbc, segs, live);
    OldTail(s, segs, base, size);
    At(s, s.top);
    assert BinnedAt(s, sbc, tbc, s.top);
  }

  /** add_segment, given the writes. */
  lemma AddDone(s: State, sbc: map<int, nat>, tbc: map<int, nat>, segs: seq<Segment>, live: map<int, nat>,
                base: int, size: int, dvsize: nat, topsize: nat, m: Memory)
    requires Inv(s, sbc, tbc, segs, live) && FreshRegion(segs, base, size) && size > TOP_FOOT_SIZE
               && Sized(s, dvsize, topsize)
    requires |segs| > 0 && Posted(RecordMem(s, base, size), m, RecordAt(s) + 32, segs[0].End() - 16)
    ensures s.top in s.m && s.m[s.top].size > 0 && RecordAt(s) in m
    ensures var s' := AddState(s, segs, base, size, OldTopFreed(s, m));
            var gone := topsize < MIN_CHUNK_SIZE;
            && Inv(s', if gone then sbc else AddSmall(sbc, s.top, topsize), if gone then tbc
                else AddLarge(tbc, s.top, topsize),
                   PushSegment(s, segs, base, size), live)
            && Kept(s, s', 0) && Sized(s', dvsize, size - TOP_FOOT_SIZE)
  {
    InvOpened(s, sbc, tbc, segs, live);
    AddedBy(s, segs, base, size, m);
    var s' := AddState(s, segs, base, size, OldTopFreed(s, m));
    AddedSized(s, s', segs, base, size, dvsize);
    SegmentAdded(s, s', sbc, tbc, segs, live, base, size, topsize);
  }

  /** Trimming, given the writes. */
  lemma ShrinkDone(s: State, sbc: map<int, nat>, tbc: map<int, nat>, segs: seq<Segment>, live: map<int, nat>,
                   k: nat, dvsize: nat, topsize: nat, extra: nat)
    requires Inv(s, sbc, tbc, segs, live) && k < |segs| && segs[k].Holds(s.top) && Sized(s, dvsize, topsize)
    requires extra < topsize && extra % 8 == 0
    ensures var s' := ResizeState(s, 0 - extra);
            && Inv(s', sbc, tbc, segs[k := segs[k].(size := segs[k].size - extra)], live)
            && LiveSame(s, s', live) && Sized(s', dvsize, topsize - extra) && s.top % 8 == 0
    ensures s.top in s.m && s.m[s.top].size == topsize && segs[k].size > extra
  {
    InvOpened(s, sbc, tbc, segs, live);
    assert Separate(segs, 0, k);
    At(s, s.top);
    TopFoot(s, segs);
    TopResized(s, sbc, tbc, segs, live, 0 - extra);
    NotZero(s, segs, live);
    LiveSameKept(s, ResizeState(s, 0 - extra), sbc, tbc, segs, live, 0);
  }

  /** Growing top, given the writes. */
  lemma AppendDone(s: State, sbc: map<int, nat>, tbc: map<int, nat>, segs: seq<Segment>, live: map<int, nat>,
                   k: nat, dvsize: nat, topsize: nat, size: nat)
    requires Inv(s, sbc, tbc, segs, live) && k < |segs| && segs[k].Holds(s.top) && Sized(s, dvsize, topsize)
    requires size > 0 && FreshRegion(segs, segs[k].End(), size)
    ensures var s' := ResizeState(s, size);
            && Inv(s', sbc, tbc, segs[k := segs[k].(size := segs[k].size + size)], live)
            && Kept(s, s', 0) && Sized(s', dvsize, topsize + size) && s.top % 8 == 0
    ensures s.top in s.m && s.m[s.top].size == topsize
  {
    InvOpened(s, sbc, tbc, segs, live);
    assert Separate(segs, 0, k);
    At(s, s.top);
    TopResized(s, sbc, tbc, segs, live, size);
  }
}
