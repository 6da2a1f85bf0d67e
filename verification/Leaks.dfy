/**
 * Conservation of chunks in lj_alloc.c: which chunks are in use although the
 * allocator does not need them itself, and that no operation adds to them but
 * the chunk it hands out.
 */
module Leaks {
  import opened Chunks
  import opened Segments
  import opened HeapInv
  import opened Regions
  import opened Prepend

  /** A chunk in use that is neither a segment record nor a fencepost. */
  ghost predicate Taken(s: State, segs: seq<Segment>, a: int) {
    Used(s, a) && s.m[a].size >= MIN_CHUNK_SIZE && NoRecord(segs, a)
  }

  ghost function Occupied(s: State, segs: seq<Segment>): set<int> {
    set a | a in s.cs && Taken(s, segs, a)
  }

  /** A change of heads that puts at most chunk p to use. */
  lemma NoneNew(s: State, s': State, segs: seq<Segment>, segs': seq<Segment>, p: int)
    requires forall a {:trigger NoRecord(segs', a)} :: NoRecord(segs', a) ==> NoRecord(segs, a)
    requires forall a {:trigger Used(s', a)} ::
               a != p && Used(s', a) && s'.m[a].size >= MIN_CHUNK_SIZE && NoRecord(segs', a) ==>
                 Used(s, a) && s.m[a].size >= MIN_CHUNK_SIZE
    ensures Occupied(s', segs') <= Occupied(s, segs) + {p}
    ensures !Used(s', p) ==> Occupied(s', segs') <= Occupied(s, segs) - {p}
  {
  }

  lemma TookBlocks(s: State, sbc: map<int, nat>, tbc: map<int, nat>, segs: seq<Segment>, live: map<int, nat>, a: int)
    requires Inv(s, sbc, tbc, segs, live) && Free(s, a)
    ensures Next(s.m, a) in s.m && s.m[a].size > 0
    ensures var s' := s.(m := TakeWhole(s.m, a, s.m[a].size), dv := if s.dv == a then 0 else s.dv);
            Occupied(s', segs) <= Occupied(s, segs) + {a}
  {
    InvOpened(s, sbc, tbc, segs, live);
    At(s, a);
    NoneNew(s, s.(m := TakeWhole(s.m, a, s.m[a].size), dv := if s.dv == a then 0 else s.dv), segs, segs, a);
  }

  lemma SplitBlocks(s: State, sbc: map<int, nat>, tbc: map<int, nat>, segs: seq<Segment>, live: map<int, nat>,
                    a: int, nb: int, dv: int)
    requires Inv(s, sbc, tbc, segs, live) && Free(s, a) && 0 < nb < s.m[a].size && Next(s.m, a) in s.m
    ensures Occupied(SplitState(s, a, nb, dv), segs) <= Occupied(s, segs) + {a}
  {
    InvOpened(s, sbc, tbc, segs, live);
    At(s, a);
    NoneNew(s, SplitState(s, a, nb, dv), segs, segs, a);
  }

  lemma TopBlocks(s: State, sbc: map<int, nat>, tbc: map<int, nat>, segs: seq<Segment>, live: map<int, nat>, nb: int)
    requires Inv(s, sbc, tbc, segs, live) && s.top in s.m && 0 < nb < s.m[s.top].size
    ensures var s' := s.(m := SplitTop(s.m, s.top, nb, s.m[s.top].size), cs := s.cs + {s.top + nb}, top := s.top + nb);
            Occupied(s', segs) <= Occupied(s, segs) + {s.top}
  {
    InvOpened(s, sbc, tbc, segs, live);
    var s' := s.(m := SplitTop(s.m, s.top, nb, s.m[s.top].size), cs := s.cs + {s.top + nb}, top := s.top + nb);
    NoneNew(s, s', segs, segs, s.top);
  }

  /** A segment that grows or shrinks keeps its record. */
  lemma RecordStays(segs: seq<Segment>, k: nat, seg: Segment)
    requires k < |segs| && seg.rec == segs[k].rec
    ensures forall a {:trigger NoRecord(segs[k := seg], a)} :: NoRecord(segs[k := seg], a) ==> NoRecord(segs, a)
  {
    var segs' := segs[k := seg];
    forall a, j | NoRecord(segs', a) && 0 < j < |segs| ensures segs[j].rec != a { assert segs'[j].rec != a; }
  }

  lemma ResizedBlocks(s: State, sbc: map<int, nat>, tbc: map<int, nat>, segs: seq<Segment>, live: map<int, nat>,
                      k: nat, delta: int)
    requires Inv(s, sbc, tbc, segs, live) && s.top in s.m && k < |segs|
    ensures Occupied(ResizeState(s, delta), segs[k := segs[k].(size := segs[k].size + delta)]) <= Occupied(s, segs)
  {
    InvOpened(s, sbc, tbc, segs, live);
    var seg := segs[k].(size := segs[k].size + delta);
    RecordStays(segs, k, seg);
    var s' := ResizeState(s, delta);
    assert !Used(s', s.top);
    NoneNew(s, s', segs, segs[k := seg], s.top);
  }

  /** The old top becomes a free chunk or the new record, and only fenceposts follow. */
  lemma AddedBlocks(s: State, sbc: map<int, nat>, tbc: map<int, nat>, segs: seq<Segment>, live: map<int, nat>,
                    base: int, size: int, m: Memory)
    requires Inv(s, sbc, tbc, segs, live) && s.top in s.m && FreshRegion(segs, base, size) && size > TOP_FOOT_SIZE
    requires |segs| > 0
    requires Posted(RecordMem(s, base, size), m, RecordAt(s) + 32, segs[0].End() - 16)
    requires s.m[s.top].size > 0 && RecordAt(s) in m
    ensures var s' := AddState(s, segs, base, size, OldTopFreed(s, m));
            Occupied(s', PushSegment(s, segs, base, size)) <= Occupied(s, segs)
  {
    InvOpened(s, sbc, tbc, segs, live);
    AddedBy(s, segs, base, size, m);
    var s', segs' := AddState(s, segs, base, size, OldTopFreed(s, m)), PushSegment(s, segs, base, size);
    forall a, j | NoRecord(segs', a) && 0 < j < |segs| ensures segs[j].rec != a { assert segs'[j + 1].rec != a; }
    assert segs'[1].rec == RecordAt(s);
    forall a | a != base && Used(s', a) && s'.m[a].size >= MIN_CHUNK_SIZE && NoRecord(segs', a)
      ensures Used(s, a) && s.m[a].size >= MIN_CHUNK_SIZE
    {
      assert a != RecordAt(s) && a !in Fenceposts(RecordAt(s), segs[0].End());
    }
    NoneNew(s, s', segs, segs', base);
  }

  lemma PrependedBlocks(s: State, sbc: map<int, nat>, tbc: map<int, nat>, segs: seq<Segment>, live: map<int, nat>,
                        k: nat, base: int, size: int, nb: int)
    requires Below(s, segs, k, base, size, nb) && Inv(s, sbc, tbc, segs, live)
    ensures var first := segs[k].base;
            && first in s.m && RestEnd(s, first) in s.m && base + nb < first <= RestEnd(s, first)
            && Occupied(PrependState(s, first, base, nb), ExtendDown(segs, k, base, size)) <= Occupied(s, segs) + {base}
  {
    InvOpened(s, sbc, tbc, segs, live);
    NotZero(s, segs, live);
    PrependedBy(s, segs, k, base, size, nb);
    var first := segs[k].base;
    RecordStays(segs, k, Segment(base, segs[k].size + size, segs[k].rec));
    NoneNew(s, PrependState(s, first, base, nb), segs, ExtendDown(segs, k, base, size), base);
  }

  /** With the segment goes its record. */
  lemma ReleasedBlocks(s: State, sbc: map<int, nat>, tbc: map<int, nat>, segs: seq<Segment>, live: map<int, nat>,
                       k: nat)
    requires Inv(s, sbc, tbc, segs, live) && 0 < k < |segs|
    ensures Occupied(ReleaseState(s, segs, k), Remaining(segs, k)) <= Occupied(s, segs)
  {
    InvOpened(s, sbc, tbc, segs, live);
    var s', segs' := ReleaseState(s, segs, k), Remaining(segs, k);
    forall a | Taken(s', segs', a)
      ensures Taken(s, segs, a)
    {
      forall j | 0 < j < |segs| ensures segs[j].rec != a {
        assert Recorded(s, segs, j);
        if j < k { assert segs'[j] == segs[j]; } else if j > k { assert segs'[j - 1] == segs[j]; }
      }
    }
  }

  lemma MergedBlocks(s: State, segs: seq<Segment>, p: int, a: int, z: int, gone: set<int>, dv: int)
    requires a < z && z in s.m && p in gone + {a}
    ensures Occupied(MergeState(s, a, z, gone, dv), segs) <= Occupied(s, segs) - {p}
  {
    NoneNew(s, MergeState(s, a, z, gone, dv), segs, segs, p);
  }

  lemma MergedOverBlocks(s: State, segs: seq<Segment>, p: int, a: int, size: nat, n: int, dv: int)
    requires a + size in s.m && size > 0
    ensures var s' := s.(m := SetFree(s.m, a, size), cs := s.cs - ({p, n} - {a}), dv := dv);
            Occupied(s', segs) <= Occupied(s, segs) - {p}
  {
    NoneNew(s, s.(m := SetFree(s.m, a, size), cs := s.cs - ({p, n} - {a}), dv := dv), segs, segs, p);
  }

  lemma MergedTopBlocks(s: State, segs: seq<Segment>, p: int, a: int, size: nat, dv: int)
    ensures var s' := s.(m := SetTop(s.m, a, size), cs := s.cs - ({p, s.top} - {a}), top := a, dv := dv);
            Occupied(s', segs) <= Occupied(s, segs) - {p}
  {
    NoneNew(s, s.(m := SetTop(s.m, a, size), cs := s.cs - ({p, s.top} - {a}), top := a, dv := dv), segs, segs, p);
  }

  /** The remainder of a used chunk counts as used until it is freed. */
  lemma SplitUsedBlocks(s: State, segs: seq<Segment>, a: int, nb: int)
    requires Used(s, a) && Next(s.m, a) in s.m && MIN_CHUNK_SIZE <= nb && s.m[a].size >= MIN_CHUNK_SIZE
    ensures var s' := s.(m := SplitUsed(s.m, a, nb, s.m[a].size), cs := s.cs + {a + nb});
            Occupied(s', segs) <= Occupied(s, segs) + {a + nb}
  {
    NoneNew(s, s.(m := SplitUsed(s.m, a, nb, s.m[a].size), cs := s.cs + {a + nb}), segs, segs, a + nb);
  }

  lemma ExpandedBlocks(s: State, segs: seq<Segment>, a: int, nb: int, size: nat)
    requires Used(s, a) && MIN_CHUNK_SIZE <= s.m[a].size && nb > 0
    ensures var s' := s.(m := Expand(s.m, a, nb, size), cs := s.cs - {s.top} + {a + nb}, top := a + nb);
            Occupied(s', segs) <= Occupied(s, segs)
  {
    NoneNew(s, s.(m := Expand(s.m, a, nb, size), cs := s.cs - {s.top} + {a + nb}, top := a + nb), segs, segs, a + nb);
  }

  lemma CreatedBlocks(base: int, size: int)
    ensures Occupied(CreateState(base, size), [Segment(base, size, 0)]) <= {base}
  {
  }
}
