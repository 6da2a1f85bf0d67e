/**
 * What freeing a chunk does in lj_alloc.c, case by case: the chunk behind it is
 * in use, is free, or is top; the chunk before it may be free too. The invariant
 * comes back as soon as the bins know about the merged chunk.
 */
module Freeing {
  import opened Chunks
  import opened Segments
  import opened HeapInv

  /** Chunk p may be freed: it is no segment record and no longer counted as live. */
  ghost predicate Freeable(s: State, segs: seq<Segment>, live: map<int, nat>, p: int) {
    Used(s, p) && s.m[p].size >= MIN_CHUNK_SIZE && NoRecord(segs, p) && p !in live
  }

  /** Bins that are complete once the free chunk a of the given size is inserted. */
  ghost predicate Awaits(s: State, sbc: map<int, nat>, tbc: map<int, nat>, segs: seq<Segment>, live: map<int, nat>,
                         a: int, size: int) {
    && a > 0 && size >= 0 && size % 8 == 0 && size < ADDRESS_LIMIT && a !in sbc && a !in tbc
    && Inv(s, AddSmall(sbc, a, size), AddLarge(tbc, a, size), segs, live)
  }

  lemma UsedNotBinned(s: State, sbc: map<int, nat>, tbc: map<int, nat>, segs: seq<Segment>, live: map<int, nat>, p: int)
    requires Inv(s, sbc, tbc, segs, live) && Used(s, p)
    ensures p !in sbc && p !in tbc && p != s.dv && p != s.top
  {
    InvOpened(s, sbc, tbc, segs, live);
    At(s, p);
    assert BinnedAt(s, sbc, tbc, p);
  }

  /** The chunk before p, and what the code finds out about it. */
  lemma FrontReady(s: State, sbc: map<int, nat>, tbc: map<int, nat>, segs: seq<Segment>, live: map<int, nat>, p: int)
                   returns (a: int)
    requires Inv(s, sbc, tbc, segs, live) && Used(s, p)
    ensures a == (if s.m[p].p then p else p - s.m[p].foot)
    ensures StartsAt(s, p, a) && a <= p
    ensures !s.m[p].p ==> s.m[p].foot == s.m[a].size && s.m[p].foot > 0
    ensures !s.m[p].p && a != s.dv ==> BinnedIn(a, s.m[a].size, sbc, tbc)
    ensures s.m[p].p || a == s.dv ==> a !in sbc && a !in tbc
    ensures Next(s.m, p) in s.m && (s.m[Next(s.m, p)].p)
  {
    InvOpened(s, sbc, tbc, segs, live);
    a := Front(s, p);
    assert BinnedAt(s, sbc, tbc, a);
    At(s, p);
  }

  /** The chunk behind p is in use. */
  lemma FreeUp(s: State, sbc: map<int, nat>, tbc: map<int, nat>, segs: seq<Segment>, live: map<int, nat>,
               p: int, a: int, dvsize: nat, topsize: nat)
    requires Inv(s, sbc, tbc, segs, live) && Freeable(s, segs, live, p) && StartsAt(s, p, a)
               && Sized(s, dvsize, topsize)
    requires Next(s.m, p) in s.m && s.m[Next(s.m, p)].c
    ensures a < Next(s.m, p)
    ensures var z := Next(s.m, p);
            var s' := MergeState(s, a, z, {p} - {a}, s.dv);
            && Kept(s, s', p)
            && (a != s.dv ==> Awaits(s', sbc - {a}, tbc - {a}, segs, live, a, z - a) && Sized(s', dvsize, topsize))
            && (a == s.dv ==> Inv(s', sbc - {a}, tbc - {a}, segs, live) && Sized(s', z - a, topsize))
  {
    InvOpened(s, sbc, tbc, segs, live);
    var z := Next(s.m, p);
    UpToNext(s, p, a);
    UsedNotBinned(s, sbc, tbc, segs, live, p);
    FreedInto(s, sbc, tbc, segs, live, p, a, z, {p} - {a}, s.dv);
    assert sbc - ({p} - {a}) - {a} == sbc - {a} && tbc - ({p} - {a}) - {a} == tbc - {a};
    assert live - {p} == live;
    FreeSized(s, p, a, z, {p} - {a}, s.dv, dvsize, topsize);
  }

  /** Sizes of dv and of top after a merge. */
  lemma FreeSized(s: State, p: int, a: int, z: int, gone: set<int>, dv: int, dvsize: nat, topsize: nat)
    requires WellFormed(s) && Absorbs(s, p, a, z, gone) && a < z && z in s.m && z in s.cs && s.m[z].c
               && Sized(s, dvsize, topsize)
    requires dv == if s.dv in gone || s.dv == a then a else s.dv
    ensures var s' := MergeState(s, a, z, gone, dv);
            && Sized(s', if dv == a then z - a else dvsize, topsize)
            && (z - a) % 8 == 0 && z - a < ADDRESS_LIMIT && a > 0
  {
    At(s, a);
    At(s, z);
    assert a != s.top && z != s.top;
  }

  /** The chunk behind p is free, but not top. */
  lemma FreeOver(s: State, sbc: map<int, nat>, tbc: map<int, nat>, segs: seq<Segment>, live: map<int, nat>,
                 p: int, a: int, dvsize: nat, topsize: nat)
    requires Inv(s, sbc, tbc, segs, live) && Freeable(s, segs, live, p) && StartsAt(s, p, a)
               && Sized(s, dvsize, topsize)
    requires Next(s.m, p) in s.m && !s.m[Next(s.m, p)].c && Next(s.m, p) != s.top
    ensures var n := Next(s.m, p);
            && Next(s.m, n) in s.m && a < Next(s.m, n) && n != a && n > 0
            && (n != s.dv ==> BinnedIn(n, s.m[n].size, sbc, tbc))
            && (n == s.dv ==> n !in sbc && n !in tbc && a != s.dv)
    ensures var n := Next(s.m, p);
            var z := Next(s.m, n);
            var dv := if s.dv == n || s.dv == a then a else s.dv;
            var s' := s.(m := SetFree(s.m, a, z - a), cs := s.cs - ({p, n} - {a}), dv := dv);
            && Kept(s, s', p)
            && (a != dv ==> Awaits(s', sbc - {a} - {n}, tbc - {a} - {n}, segs, live, a, z - a) && Sized(s', dvsize, topsize))
            && (a == dv ==> Inv(s', sbc - {a} - {n}, tbc - {a} - {n}, segs, live) && Sized(s', z - a, topsize))
  {
    InvOpened(s, sbc, tbc, segs, live);
    OverNext(s, p, a);
    var n := Next(s.m, p);
    At(s, n);
    var z := Next(s.m, n);
    var gone := {p, n} - {a};
    var dv := if s.dv == n || s.dv == a then a else s.dv;
    UsedNotBinned(s, sbc, tbc, segs, live, p);
    assert BinnedAt(s, sbc, tbc, n);
    FreedInto(s, sbc, tbc, segs, live, p, a, z, gone, dv);
    assert sbc - gone - {a} == sbc - {a} - {n} && tbc - gone - {a} == tbc - {a} - {n};
    assert live - {p} == live;
    FreeSized(s, p, a, z, gone, dv, dvsize, topsize);
    assert SetPinuse(s.m, z, false) == s.m;
  }

  /** The chunk behind p is top. */
  lemma FreeTop(s: State, sbc: map<int, nat>, tbc: map<int, nat>, segs: seq<Segment>, live: map<int, nat>,
                p: int, a: int, dvsize: nat, topsize: nat)
    requires Inv(s, sbc, tbc, segs, live) && Freeable(s, segs, live, p) && StartsAt(s, p, a)
               && Sized(s, dvsize, topsize)
    requires Next(s.m, p) == s.top
    ensures var tsize := topsize + (s.top - a);
            var dv := if s.dv == a then 0 else s.dv;
            var s' := s.(m := SetTop(s.m, a, tsize), cs := s.cs - ({p, s.top} - {a}), top := a, dv := dv);
            && Kept(s, s', p) && a < s.top
            && Inv(s', sbc - {a}, tbc - {a}, segs, live)
            && Sized(s', if s.dv == a then 0 else dvsize, tsize)
  {
    InvOpened(s, sbc, tbc, segs, live);
    UpToTop(s, p, a);
    var gone := {p, s.top} - {a};
    var dv := if s.dv == a then 0 else s.dv;
    UsedNotBinned(s, sbc, tbc, segs, live, p);
    assert BinnedAt(s, sbc, tbc, s.top);
    assert s.dv !in gone;
    FreedIntoTop(s, sbc, tbc, segs, live, p, a, gone, dv);
    assert sbc - gone - {a} == sbc - {a} && tbc - gone - {a} == tbc - {a};
    assert live - {p} == live;
  }
}
