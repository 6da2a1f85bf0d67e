/**
 * The memory segments of lj_alloc.c. The first one of the list holds top. Each
 * segment is tiled by its chunks, from its base to its end; a segment that no
 * longer holds top ends in fenceposts, the last of which is a bare head word.
 */
module Segments {
  import opened Chunks

  /**
   * A segment record. The record of the first segment is part of the allocator
   * state; that of a later one lies in the used chunk rec near its end, and only
   * fenceposts follow it.
   */
  datatype Segment = Segment(base: int, size: int, rec: int) {
    function End(): int { base + size }
    predicate Holds(a: int) { base <= a < End() }
  }

  ghost predicate SegmentOk(g: Segment) {
    && g.base > 0 && g.base % 8 == 0 && g.size > 0 && g.size % 8 == 0 && g.End() <= ADDRESS_LIMIT
  }

  /** Where the chunks of the k-th segment end. */
  function TileEnd(segs: seq<Segment>, k: nat): int
    requires k < |segs|
  {
    if k == 0 then segs[k].End() else segs[k].End() - 8
  }

  ghost predicate Placed(s: State, segs: seq<Segment>, k: nat, a: int) {
    k < |segs| && a in s.cs && segs[k].Holds(a) ==>
      && a in s.m && Next(s.m, a) <= TileEnd(segs, k) && (a in s.ls <==> Next(s.m, a) == TileEnd(segs, k))
      && (k > 0 && a > segs[k].rec ==> s.m[a].size == 8)
  }

  ghost predicate Recorded(s: State, segs: seq<Segment>, k: nat) {
    0 < k < |segs| ==> Used(s, segs[k].rec) && segs[k].Holds(segs[k].rec) && segs[k].rec + 64 <= segs[k].End()
  }

  /** Chunk a holds no segment record. */
  ghost predicate NoRecord(segs: seq<Segment>, a: int) {
    forall k :: 0 < k < |segs| ==> segs[k].rec != a
  }

  ghost predicate InSome(segs: seq<Segment>, a: int) {
    exists k :: 0 <= k < |segs| && segs[k].Holds(a)
  }

  ghost predicate Separate(segs: seq<Segment>, j: int, k: int) {
    0 <= j < |segs| && 0 <= k < |segs| && j != k ==> segs[j].End() <= segs[k].base || segs[k].End() <= segs[j].base
  }

  ghost predicate Segmented(s: State, segs: seq<Segment>) {
    && |segs| > 0
    && (forall k :: 0 <= k < |segs| ==> SegmentOk(segs[k]) && segs[k].base in s.fs)
    && (forall j, k {:trigger Separate(segs, j, k)} :: Separate(segs, j, k))
    && (forall a {:trigger InSome(segs, a)} :: a in s.cs ==> InSome(segs, a))
    && (forall k, a {:trigger Placed(s, segs, k, a)} :: Placed(s, segs, k, a))
    && (forall k {:trigger Recorded(s, segs, k)} :: Recorded(s, segs, k))
    && segs[0].Holds(s.top)
  }

  /** Records stay where they are. */
  lemma RecordsKept(s: State, s': State, segs: seq<Segment>, x: int)
    requires Segmented(s, segs) && Kept(s, s', x) && NoRecord(segs, x)
    ensures forall k {:trigger Recorded(s', segs, k)} :: Recorded(s', segs, k)
  {
    forall k: nat ensures Recorded(s', segs, k) {
      assert Recorded(s, segs, k);
      assert k < |segs| && k > 0 ==> Used(s, segs[k].rec);
    }
  }

  /** Used chunks other than x stay in use with their size. */
  ghost predicate Kept(s: State, s': State, x: int) {
    forall a {:trigger Used(s', a)} {:trigger Used(s, a)} ::
        Used(s, a) && a != x ==> Used(s', a) && s'.m[a].size == s.m[a].size
  }

  /** A chunk of at least minimal size that is no record lies before the record. */
  lemma BeforeRecord(s: State, segs: seq<Segment>, k: nat, a: int)
    requires WellFormed(s) && Segmented(s, segs) && 0 < k < |segs| && a in s.cs && segs[k].Holds(a)
    requires NoRecord(segs, a) && a in s.m && s.m[a].size != 8
    ensures a < segs[k].rec && Next(s.m, a) <= segs[k].rec
  {
    assert Placed(s, segs, k, a) && Recorded(s, segs, k);
    Elsewhere(s, a, segs[k].rec);
  }

  lemma NextHeld(s: State, segs: seq<Segment>, k: nat, a: int)
    requires WellFormed(s) && Segmented(s, segs) && k < |segs| && Inner(s, a) && segs[k].Holds(a)
    ensures a in s.m && segs[k].Holds(Next(s.m, a)) && Next(s.m, a) in s.cs
  {
    At(s, a);
    assert Placed(s, segs, k, a);
  }

  lemma {:induction false} WalkHeld(s: State, segs: seq<Segment>, k: nat, a: int, y: int)
    requires WellFormed(s) && Segmented(s, segs) && k < |segs| && a in s.cs && y in s.cs && a <= y && segs[k].Holds(a)
    requires forall x :: x in s.cs && a <= x < y ==> x !in s.ls
    ensures segs[k].Holds(y)
    decreases y - a
  {
    if a < y {
      Elsewhere(s, a, y);
      NextHeld(s, segs, k, a);
      At(s, a);
      WalkHeld(s, segs, k, Next(s.m, a), y);
    }
  }

  /**
   * The chunks tile every segment: each address between its base and its end
   * belongs to exactly one chunk.
   */
  lemma TilesSegment(s: State, segs: seq<Segment>, k: nat, x: int) returns (a: int)
    requires WellFormed(s) && Segmented(s, segs) && k < |segs| && segs[k].base <= x < TileEnd(segs, k)
    ensures a in s.cs && a in s.m && a <= x < Next(s.m, a)
    ensures forall b :: b in s.cs && b in s.m && b <= x < Next(s.m, b) ==> b == a
  {
    At(s, segs[k].base);
    a := WalkTo(s, segs, k, segs[k].base, x);
    forall b | b in s.cs && b in s.m && b <= x < Next(s.m, b)
      ensures b == a
    {
      if b != a { Elsewhere(s, a, b); }
    }
  }

  lemma {:induction false} WalkTo(s: State, segs: seq<Segment>, k: nat, a: int, x: int) returns (b: int)
    requires WellFormed(s) && Segmented(s, segs) && k < |segs| && a in s.cs && segs[k].Holds(a)
    requires a <= x < TileEnd(segs, k)
    ensures b in s.cs && b in s.m && b <= x < Next(s.m, b)
    decreases x - a
  {
    At(s, a);
    assert Placed(s, segs, k, a);
    if x < Next(s.m, a) {
      b := a;
    } else {
      NextHeld(s, segs, k, a);
      b := WalkTo(s, segs, k, Next(s.m, a), x);
    }
  }

  // ---- Changes inside a segment ----

  ghost predicate SameSize(s: State, s': State, a: int) {
    a in s.m && a in s'.m && s'.m[a].size == s.m[a].size
  }

  lemma KeepSegments(s: State, s': State, segs: seq<Segment>)
    requires WellFormed(s) && Segmented(s, segs)
    requires s'.cs == s.cs && s'.ls == s.ls && s'.fs == s.fs && s'.top == s.top
    requires forall a :: a in s.cs ==> SameSize(s, s', a)
    requires forall k {:trigger Recorded(s', segs, k)} :: Recorded(s', segs, k)
    ensures Segmented(s', segs)
  {
    forall k: nat, a ensures Placed(s', segs, k, a) {
      assert Placed(s, segs, k, a);
      assert a in s.cs ==> SameSize(s, s', a);
    }
  }

  /** s' is s with chunk a split at nb. */
  ghost predicate SplitAt(s: State, s': State, a: int, nb: int) {
    && Inner(s, a) && a in s.m && 0 < nb < s.m[a].size
    && s'.cs == s.cs + {a + nb} && s'.ls == s.ls && s'.fs == s.fs && a + nb !in s.cs
    && (s'.top == s.top || (a == s.top && s'.top == a + nb))
    && (forall b :: b in s.cs && b != a ==> SameSize(s, s', b))
    && a in s'.m && s'.m[a].size == nb && a + nb in s'.m && s'.m[a + nb].size == s.m[a].size - nb
  }

  lemma SplitPlaced(s: State, s': State, segs: seq<Segment>, a: int, nb: int, k0: nat, k: nat, b: int)
    requires WellFormed(s) && Segmented(s, segs) && SplitAt(s, s', a, nb)
    requires k0 < |segs| && segs[k0].Holds(a) && NoRecord(segs, a) && (s.m[a].size != 8 || k0 == 0)
    ensures Placed(s', segs, k, b)
    ensures segs[k0].Holds(a + nb)
  {
    if k0 > 0 { BeforeRecord(s, segs, k0, a); }
    assert Placed(s, segs, k, b) && Placed(s, segs, k, a) && Placed(s, segs, k0, a) && Separate(segs, k, k0);
    assert b in s.cs && b != a ==> SameSize(s, s', b);
  }

  lemma SplitSegments(s: State, s': State, segs: seq<Segment>, a: int, nb: int)
    requires WellFormed(s) && Segmented(s, segs) && SplitAt(s, s', a, nb)
    requires NoRecord(segs, a) && (s.m[a].size != 8 || a == s.top)
    requires forall k {:trigger Recorded(s', segs, k)} :: Recorded(s', segs, k)
    ensures Segmented(s', segs)
  {
    assert InSome(segs, a);
    var k0 :| 0 <= k0 < |segs| && segs[k0].Holds(a);
    assert Separate(segs, 0, k0);
    SplitPlaced(s, s', segs, a, nb, k0, k0, a);
    forall b | b in s'.cs ensures InSome(segs, b) {
      if b in s.cs { assert InSome(segs, b); }
    }
    forall k: nat, b ensures Placed(s', segs, k, b) {
      SplitPlaced(s, s', segs, a, nb, k0, k, b);
    }
  }

  lemma MergeSegments(s: State, s': State, segs: seq<Segment>, a: int, y: int, gone: set<int>)
    requires WellFormed(s) && Segmented(s, segs) && Inner(s, a) && Inner(s, y) && a <= y && y in s.m
    requires forall x :: x in gone <==> x in s.cs && a < x <= y
    requires forall x :: x in gone ==> x !in s.ls && x !in s.fs
    requires s'.cs == s.cs - gone && s'.ls == s.ls && s'.fs == s.fs
    requires (s'.top == s.top && s.top !in gone) || (s.top == y && s'.top == a)
    requires forall b :: b in s.cs && b != a ==> SameSize(s, s', b)
    requires a in s'.m && s'.m[a].size == Next(s.m, y) - a
    requires forall k {:trigger Recorded(s', segs, k)} :: Recorded(s', segs, k)
    requires NoRecord(segs, a) && a in s.m && s.m[a].size != 8
    ensures Segmented(s', segs)
  {
    forall b | b in s'.cs ensures InSome(segs, b) { assert InSome(segs, b); }
    forall k: nat, b ensures Placed(s', segs, k, b) {
      assert Placed(s, segs, k, b) && Placed(s, segs, k, y);
      assert b in s.cs && b != a ==> SameSize(s, s', b);
      if b == a && k < |segs| && segs[k].Holds(a) {
        WalkHeld(s, segs, k, a, y);
        if k > 0 { BeforeRecord(s, segs, k, a); }
      }
    }
    if s'.top != s.top {
      assert InSome(segs, a);
      var k :| 0 <= k < |segs| && segs[k].Holds(a);
      WalkHeld(s, segs, k, a, y);
    }
  }

  lemma ExpandSegments(s: State, s': State, segs: seq<Segment>, a: int, nb: int)
    requires WellFormed(s) && Segmented(s, segs) && Inner(s, a) && a in s.m && Next(s.m, a) == s.top && s.top in s.m
    requires s.m[a].size < nb < s.m[a].size + s.m[s.top].size
    requires s'.cs == s.cs - {s.top} + {a + nb} && s'.ls == s.ls && s'.fs == s.fs && a + nb !in s.cs
    requires s'.top == a + nb && s.top !in s.fs
    requires forall k {:trigger Recorded(s', segs, k)} :: Recorded(s', segs, k)
    requires forall b :: b in s.cs && b != a && b != s.top ==> SameSize(s, s', b)
    requires a in s'.m && s'.m[a].size == nb && a + nb in s'.m
               && s'.m[a + nb].size == s.m[a].size + s.m[s.top].size - nb
    ensures Segmented(s', segs)
  {
    assert InSome(segs, a);
    var k0 :| 0 <= k0 < |segs| && segs[k0].Holds(a);
    NextHeld(s, segs, k0, a);
    assert Placed(s, segs, k0, s.top) && Separate(segs, 0, k0);
    forall b | b in s'.cs ensures InSome(segs, b) {
      if b in s.cs { assert InSome(segs, b); }
    }
    forall k: nat, b ensures Placed(s', segs, k, b) {
      assert Placed(s, segs, k, b) && Placed(s, segs, k, a) && Placed(s, segs, k, s.top);
      assert b in s.cs && b != a && b != s.top ==> SameSize(s, s', b);
      assert Separate(segs, k, k0);
    }
  }
}
