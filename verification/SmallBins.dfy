/**
 * The 32 small bins of lj_alloc.c: circular doubly linked lists threaded
 * through the free chunks, each with a header node and a bit in smallmap.
 * A bin whose bit is clear has stale header links.
 */
module SmallBins {
  import opened BinMap

  const NSMALLBINS: nat := 32

  /** Header node of a bin; chunk addresses are positive. */
  function Header(i: nat): int {
    -1 - i
  }

  /** The k-th node met from the header h along fd, through list q and back to h. */
  function NodeAt(h: int, q: seq<int>, k: nat): int
    requires k <= |q| + 1
  {
    if k == 0 || k == |q| + 1 then h else q[k - 1]
  }

  ghost predicate Linked(fd: map<int, int>, bk: map<int, int>, a: int, b: int) {
    a in fd && b in bk && fd[a] == b && bk[b] == a
  }

  ghost predicate Ring(fd: map<int, int>, bk: map<int, int>, h: int, q: seq<int>) {
    forall k: nat {:trigger NodeAt(h, q, k)} :: k <= |q| ==> Linked(fd, bk, NodeAt(h, q, k), NodeAt(h, q, k + 1))
  }

  ghost predicate Distinct(h: int, q: seq<int>) {
    && h !in q
    && forall a, b :: 0 <= a < b < |q| ==> q[a] != q[b]
  }

  /** Rings are untouched by writes to foreign nodes. */
  lemma RingFrame(fd: map<int, int>, bk: map<int, int>, fd': map<int, int>, bk': map<int, int>, h: int, q: seq<int>)
    requires Ring(fd, bk, h, q)
    requires forall x :: (x == h || x in q) && x in fd ==> x in fd' && fd'[x] == fd[x]
    requires forall x :: (x == h || x in q) && x in bk ==> x in bk' && bk'[x] == bk[x]
    ensures Ring(fd', bk', h, q)
  {
    forall k: nat | k <= |q|
      ensures Linked(fd', bk', NodeAt(h, q, k), NodeAt(h, q, k + 1))
    {
      assert Linked(fd, bk, NodeAt(h, q, k), NodeAt(h, q, k + 1));
    }
  }

  lemma NodeInjective(h: int, q: seq<int>, a: nat, b: nat)
    requires Distinct(h, q) && a <= |q| + 1 && b <= |q| + 1
    ensures NodeAt(h, q, a) == NodeAt(h, q, b) <==> a == b || (a == 0 && b == |q| + 1) || (b == 0 && a == |q| + 1)
  {
  }

  lemma RingInsert(fd: map<int, int>, bk: map<int, int>, h: int, q: seq<int>, x: int, f: int)
    requires q != [] ==> Ring(fd, bk, h, q)
    requires Distinct(h, q) && x != h && x !in q
    requires f == NodeAt(h, q, 1)
    ensures Ring(fd[h := x][x := f], bk[f := x][x := h], h, [x] + q) && Distinct(h, [x] + q)
  {
    var fd', bk', q' := fd[h := x][x := f], bk[f := x][x := h], [x] + q;
    assert forall k: nat :: 1 <= k <= |q| + 1 ==> NodeAt(h, q', k + 1) == NodeAt(h, q, k);
    forall k: nat | k <= |q'|
      ensures Linked(fd', bk', NodeAt(h, q', k), NodeAt(h, q', k + 1))
    {
      if k >= 2 {
        var a, b := NodeAt(h, q, k - 1), NodeAt(h, q, k);
        assert Linked(fd, bk, a, b);
        assert a == q[k - 2];
        NodeInjective(h, q, 1, k);
      }
    }
  }

  function Without(q: seq<int>, k: nat): seq<int>
    requires k < |q|
  {
    q[..k] + q[k + 1..]
  }

  lemma RingRemove(fd: map<int, int>, bk: map<int, int>, h: int, q: seq<int>, k: nat)
    requires Ring(fd, bk, h, q) && Distinct(h, q)
    requires k < |q| && |q| > 1
    ensures var f, b := NodeAt(h, q, k + 2), NodeAt(h, q, k);
            Ring(fd[b := f], bk[f := b], h, Without(q, k))
  {
    var f, b := NodeAt(h, q, k + 2), NodeAt(h, q, k);
    var q' := Without(q, k);
    forall j: nat | j <= |q'|
      ensures Linked(fd[b := f], bk[f := b], NodeAt(h, q', j), NodeAt(h, q', j + 1))
    {
      NodeWithout(h, q, k, j);
      NodeWithout(h, q, k, j + 1);
      if j != k { LinkKept(fd, bk, h, q, k, if j < k then j else j + 1); }
    }
  }

  /** Taking out q[k] changes no other link. */
  lemma LinkKept(fd: map<int, int>, bk: map<int, int>, h: int, q: seq<int>, k: nat, i: nat)
    requires Ring(fd, bk, h, q) && Distinct(h, q) && k < |q| && i <= |q| && i != k && i != k + 1
    ensures Linked(fd[NodeAt(h, q, k) := NodeAt(h, q, k + 2)], bk[NodeAt(h, q, k + 2) := NodeAt(h, q, k)],
              NodeAt(h, q, i), NodeAt(h, q, i + 1))
  {
    assert Linked(fd, bk, NodeAt(h, q, i), NodeAt(h, q, i + 1));
    NodeInjective(h, q, k, i);
    NodeInjective(h, q, k + 2, i + 1);
  }

  lemma NodeWithout(h: int, q: seq<int>, k: nat, j: nat)
    requires k < |q| && j <= |q|
    ensures NodeAt(h, Without(q, k), j) == NodeAt(h, q, if j <= k then j else j + 1)
  {
  }

  /** The links of the k-th chunk; both lead to the header when it is alone. */
  lemma Neighbours(fd: map<int, int>, bk: map<int, int>, h: int, q: seq<int>, k: nat)
    requires Ring(fd, bk, h, q) && Distinct(h, q) && k < |q|
    ensures q[k] in fd && q[k] in bk
    ensures fd[q[k]] == NodeAt(h, q, k + 2) && bk[q[k]] == NodeAt(h, q, k)
    ensures fd[q[k]] == bk[q[k]] <==> |q| == 1
  {
    assert Linked(fd, bk, NodeAt(h, q, k), NodeAt(h, q, k + 1));
    assert Linked(fd, bk, NodeAt(h, q, k + 1), NodeAt(h, q, k + 2));
    NodeInjective(h, q, k, k + 2);
  }

  lemma WithoutDistinct(h: int, q: seq<int>, k: nat)
    requires k < |q| && Distinct(h, q)
    ensures var q' := Without(q, k);
            Distinct(h, q') && forall x :: x in q' <==> x in q && x != q[k]
  {
    var q' := Without(q, k);
    forall x | x in q && x != q[k]
      ensures x in q'
    {
      var a :| 0 <= a < |q| && q[a] == x;
      assert x == q'[if a < k then a else a - 1];
    }
  }

  /** One bin: its ring, and the chunks of its size among the binned ones. */
  ghost predicate BinValid(fd: map<int, int>, bk: map<int, int>, content: map<int, nat>, i: nat, q: seq<int>) {
    && (q != [] ==> Ring(fd, bk, Header(i), q))
    && Distinct(Header(i), q)
    && (forall x :: x in q <==> x in content && content[x] == 8 * i)
  }

  /** Insertion and removal in bin i leave every other bin as it is. */
  lemma OtherBin(fd: map<int, int>, bk: map<int, int>, content: map<int, nat>,
                 fd': map<int, int>, bk': map<int, int>, content': map<int, nat>, i: nat, j: nat, q: seq<int>)
    requires i != j && BinValid(fd, bk, content, j, q)
    requires forall x :: x in fd && x != Header(i) && (x in content ==> content[x] != 8 * i)
               && (x in content' ==> content'[x] != 8 * i)
               ==> x in fd' && fd'[x] == fd[x]
    requires forall x :: x in bk && x != Header(i) && (x in content ==> content[x] != 8 * i)
               && (x in content' ==> content'[x] != 8 * i)
               ==> x in bk' && bk'[x] == bk[x]
    requires forall x :: (x in content && content[x] == 8 * j) <==> (x in content' && content'[x] == 8 * j)
    requires forall x :: x in content || x in content' ==> x > 0
    ensures BinValid(fd', bk', content', j, q)
  {
    if q != [] {
      RingFrame(fd, bk, fd', bk', Header(j), q);
    }
  }

  class SmallBins {
    var smallmap: nat
    var fd: map<int, int>
    var bk: map<int, int>
    /** The chunks of every bin, from the header along fd. */
    ghost var lists: seq<seq<int>>
    /** Every binned chunk with its size. */
    ghost var content: map<int, nat>

    ghost predicate Valid()
      reads this
    {
      && |lists| == NSMALLBINS
      && (forall i: nat :: Marked(smallmap, i) <==> i < NSMALLBINS && lists[i] != [])
      && (forall i :: 0 <= i < NSMALLBINS ==> BinValid(fd, bk, content, i, lists[i]))
      && (forall x :: x in content ==> x > 0 && content[x] < MIN_LARGE_SIZE && content[x] % 8 == 0)
    }

    /** init_bins on a zeroed state. */
    constructor ()
      ensures Valid() && content == map[]
    {
      smallmap, fd, bk := 0, map[], map[];
      lists := seq(NSMALLBINS, i => []);
      content := map[];
      new;
      forall i: nat ensures !Marked(0, i) { ZeroUnmarked(i); }
    }

    /** insert_small_chunk */
    method Insert(p: int, s: nat)
      requires Valid() && p > 0 && p !in content && s % 8 == 0 && s < MIN_LARGE_SIZE
      modifies this
      ensures Valid() && content == old(content)[p := s]
    {
      var i := s / 8;
      ghost var q := lists[i];
      assert BinValid(fd, bk, content, i, q);
      var b := Header(i);
      var f := b;
      assert q != [] ==> Linked(fd, bk, NodeAt(b, q, 0), NodeAt(b, q, 1));
      if !Marked(smallmap, i) {
        smallmap := Mark(smallmap, i);
      } else {
        f := fd[b];
      }
      RingInsert(fd, bk, b, q, p, f);
      fd := fd[b := p];
      bk := bk[f := p];
      fd := fd[p := f];
      bk := bk[p := b];
      content := content[p := s];
      lists := lists[i := [p] + q];
      forall j | 0 <= j < NSMALLBINS && j != i
        ensures BinValid(fd, bk, content, j, lists[j])
      {
        OtherBin(old(fd), old(bk), old(content), fd, bk, content, i, j, lists[j]);
      }
    }

    /** The state after the k-th chunk left bin i is valid if the bin itself is. */
    ghost method Forget(i: nat, k: nat, fd0: map<int, int>, bk0: map<int, int>)
      requires |lists| == NSMALLBINS && i < NSMALLBINS && k < |lists[i]|
      requires Distinct(Header(i), lists[i])
      requires |lists[i]| > 1 ==> Ring(fd, bk, Header(i), Without(lists[i], k))
      requires forall j: nat :: Marked(smallmap, j) <==> j < NSMALLBINS && if j == i then |lists[i]| > 1
                 else lists[j] != []
      requires forall j :: 0 <= j < NSMALLBINS ==> BinValid(fd0, bk0, content, j, lists[j])
      requires forall x :: x in fd0 && x != Header(i) && x !in lists[i] ==> x in fd && fd[x] == fd0[x]
      requires forall x :: x in bk0 && x != Header(i) && x !in lists[i] ==> x in bk && bk[x] == bk0[x]
      requires forall x :: x in content ==> x > 0 && content[x] < MIN_LARGE_SIZE && content[x] % 8 == 0
      modifies this`lists, this`content
      ensures Valid() && content == old(content) - {old(lists[i][k])}
    {
      WithoutDistinct(Header(i), lists[i], k);
      content := content - {lists[i][k]};
      lists := lists[i := Without(lists[i], k)];
      forall j | 0 <= j < NSMALLBINS && j != i
        ensures BinValid(fd, bk, content, j, lists[j])
      {
        assert BinValid(fd0, bk0, old(content), i, old(lists[i]));
        OtherBin(fd0, bk0, old(content), fd, bk, content, i, j, lists[j]);
      }
    }

    /** unlink_small_chunk */
    method Unlink(p: int, s: nat)
      requires Valid() && p in content && content[p] == s
      modifies this
      ensures Valid() && content == old(content) - {p}
    {
      var i := s / 8;
      assert BinValid(fd, bk, content, i, lists[i]);
      ghost var k :| 0 <= k < |lists[i]| && lists[i][k] == p;
      Neighbours(fd, bk, Header(i), lists[i], k);
      var f := fd[p];
      var b := bk[p];
      if f == b {
        smallmap := Clear(smallmap, i);
      } else {
        RingRemove(fd, bk, Header(i), lists[i], k);
        bk := bk[f := b];
        fd := fd[b := f];
      }
      Forget(i, k, old(fd), old(bk));
    }

    /** unlink_first_small_chunk, for the chunk at the head of marked bin i. */
    method UnlinkFirst(i: nat) returns (p: int)
      requires Valid() && Marked(smallmap, i)
      modifies this
      ensures Valid() && p in old(content) && old(content)[p] == 8 * i
      ensures content == old(content) - {p}
    {
      assert BinValid(fd, bk, content, i, lists[i]);
      var b := Header(i);
      assert Linked(fd, bk, NodeAt(b, lists[i], 0), NodeAt(b, lists[i], 1));
      p := fd[b];
      Neighbours(fd, bk, b, lists[i], 0);
      var f := fd[p];
      if b == f {
        smallmap := Clear(smallmap, i);
      } else {
        RingRemove(fd, bk, b, lists[i], 0);
        fd := fd[b := f];
        bk := bk[f := b];
      }
      Forget(i, 0, old(fd), old(bk));
    }

    /** With no bin marked from i on, every binned chunk is smaller. */
    /** The map knows of the bin of every chunk. */
    lemma AllMarked()
      requires Valid()
      ensures forall x :: x in content ==> Marked(smallmap, content[x] / 8) && content[x] % 8 == 0
    {
      forall x | x in content
        ensures Marked(smallmap, content[x] / 8) && content[x] % 8 == 0
      {
        var j := content[x] / 8;
        assert BinValid(fd, bk, content, j, lists[j]) && x in lists[j];
      }
    }

    lemma NoneFrom(i: nat)
      requires Valid() && forall j: nat :: j >= i ==> !Marked(smallmap, j)
      ensures forall x :: x in content ==> content[x] < 8 * i
    {
      forall x | x in content
        ensures content[x] < 8 * i
      {
        var j := content[x] / 8;
        assert BinValid(fd, bk, content, j, lists[j]) && x in lists[j];
        assert Marked(smallmap, j);
      }
    }
  }
}
