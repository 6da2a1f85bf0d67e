/**
 * The tries of lj_alloc.c in memory: records linked by fd/bk on the ring of
 * one size, by two child pointers and a parent pointer. Repr says that the
 * records reachable from an address are a given trie; the functions below are
 * the pointer writes of insertion and removal, in the order of its macros.
 */
module TrieLinks {
  import opened Words
  import opened Tries

  datatype TChunk = TChunk(size: nat, fd: int, bk: int, child0: int, child1: int, parent: int, index: nat)
  type Nodes = map<int, TChunk>

  /** Only the first chunk of a ring has a parent and children. */
  ghost predicate Plain(c: TChunk) {
    c.parent == 0 && c.child0 == 0 && c.child1 == 0
  }

  function Next(q: seq<int>, k: nat): int
    requires k < |q|
  {
    if k + 1 == |q| then q[0] else q[k + 1]
  }

  ghost predicate RingOf(n: Nodes, q: seq<int>, s: nat, i: nat) {
    && (forall k :: 0 <= k < |q| ==> q[k] > 0 && q[k] in n && n[q[k]].size == s && n[q[k]].index == i)
    && (forall k {:trigger Next(q, k)} :: 0 <= k < |q| ==> Next(q, k) in n && n[q[k]].fd == Next(q, k) && n[Next(q, k)].bk == q[k])
    && (forall k :: 0 < k < |q| ==> Plain(n[q[k]]))
  }

  /** The records at p, below parent par in bin i, are the trie t. */
  ghost predicate Repr(n: Nodes, t: Tree, p: int, par: int, i: nat) {
    match t
    case Empty => p == 0
    case Node(s, q, l, r) =>
      && q != [] && q[0] == p && par != 0
      && RingOf(n, q, s, i)
      && n[p].parent == par
      && Repr(n, l, n[p].child0, p, i)
      && Repr(n, r, n[p].child1, p, i)
  }

  ghost predicate Same(n: Nodes, n': Nodes, x: int) {
    x in n ==> x in n' && n'[x] == n[x]
  }

  lemma RingFrame(n: Nodes, n': Nodes, q: seq<int>, s: nat, i: nat)
    requires RingOf(n, q, s, i)
    requires forall x :: x in q ==> Same(n, n', x)
    ensures RingOf(n', q, s, i)
  {
    forall k | 0 <= k < |q|
      ensures q[k] in n' && n'[q[k]] == n[q[k]]
    {
      assert Same(n, n', q[k]);
    }
    forall k | 0 <= k < |q|
      ensures Next(q, k) in n' && n'[q[k]].fd == Next(q, k) && n'[Next(q, k)].bk == q[k]
    {
      assert Next(q, k) in q;
      assert Same(n, n', Next(q, k));
    }
  }

  lemma {:induction false} ReprFrame(n: Nodes, n': Nodes, t: Tree, p: int, par: int, i: nat)
    requires Repr(n, t, p, par, i)
    requires forall x :: x in Sizes(t) ==> Same(n, n', x)
    ensures Repr(n', t, p, par, i)
  {
    if t.Node? {
      RingFrame(n, n', t.ring, t.size, i);
      assert p in t.ring && Same(n, n', p);
      ReprFrame(n, n', t.left, n[p].child0, p, i);
      ReprFrame(n, n', t.right, n[p].child1, p, i);
    }
  }

  /** Giving the root of a trie another parent. */
  lemma ReprReparent(n: Nodes, n': Nodes, t: Tree, p: int, par: int, par': int, i: nat)
    requires Repr(n, t, p, par, i) && t.Node? && Disjoint(t) && par' != 0
    requires p in n' && n'[p] == n[p].(parent := par')
    requires forall x :: x in Sizes(t) && x != p ==> Same(n, n', x)
    ensures Repr(n', t, p, par', i)
  {
    var q := t.ring;
    forall k | 0 <= k < |q|
      ensures q[k] in n' && (k > 0 ==> n'[q[k]] == n[q[k]])
      ensures n'[q[k]].fd == n[q[k]].fd && n'[q[k]].bk == n[q[k]].bk
    {
      assert q[k] in Sizes(t);
      assert k > 0 ==> Same(n, n', q[k]);
    }
    assert p !in Sizes(t.left) && p !in Sizes(t.right);
    forall k | 0 <= k < |q|
      ensures Next(q, k) in n' && n'[q[k]].fd == Next(q, k) && n'[Next(q, k)].bk == q[k]
    {
    }
    assert RingOf(n', q, t.size, i);
    ReprFrame(n, n', t.left, n[p].child0, p, i);
    ReprFrame(n, n', t.right, n[p].child1, p, i);
  }

  lemma {:induction false} ReprInMap(n: Nodes, t: Tree, p: int, par: int, i: nat)
    requires Repr(n, t, p, par, i)
    ensures forall x :: x in Sizes(t) ==> x > 0 && x in n && n[x].size == Sizes(t)[x] && n[x].index == i
    ensures t.Node? ==> p in Sizes(t) && p > 0
  {
    if t.Node? {
      assert t.ring[0] in t.ring;
      ReprInMap(n, t.left, n[p].child0, p, i);
      ReprInMap(n, t.right, n[p].child1, p, i);
    }
  }

  lemma NullOrNode(n: Nodes, t: Tree, p: int, par: int, i: nat)
    requires Repr(n, t, p, par, i)
    ensures t.Empty? <==> p == 0
    ensures t.Node? ==> p > 0 && p in n && n[p].size == t.size && p in Sizes(t)
  {
    if t.Node? {
      assert t.ring[0] in t.ring;
    }
  }

  // ---- Insertion ----

  /** Link x into the ring right behind p. */
  function RingInsert(n: Nodes, p: int, x: int): Nodes
    requires p in n && x in n && n[p].fd in n
  {
    var f := n[p].fd;
    var n := n[p := n[p].(fd := x)];
    var n := n[f := n[f].(bk := x)];
    n[x := n[x].(fd := f, bk := p, parent := 0)]
  }

  /** Hang x below p on the given side. */
  function HangBelow(n: Nodes, p: int, right: bool, x: int): Nodes
    requires p in n && x in n
  {
    var n := if right then n[p := n[p].(child1 := x)] else n[p := n[p].(child0 := x)];
    n[x := n[x].(parent := p, fd := x, bk := x)]
  }

  /** The insertion walk on the trie t at p. */
  ghost function InsertWalk(n: Nodes, t: Tree, p: int, lo: nat, e: nat, x: int, s: nat): Nodes {
    if t.Empty? || p !in n || x !in n then n
    else if t.size == s then
      if n[p].fd in n then RingInsert(n, p, x) else n
    else if e == 0 then n
    else if s < lo + Pow2(e - 1) then
      if t.left.Node? then InsertWalk(n, t.left, n[p].child0, lo, e - 1, x, s)
      else HangBelow(n, p, false, x)
    else
      if t.right.Node? then InsertWalk(n, t.right, n[p].child1, lo + Pow2(e - 1), e - 1, x, s)
      else HangBelow(n, p, true, x)
  }

  lemma RingInsertRing(n: Nodes, q: seq<int>, s: nat, i: nat, x: int)
    requires q != [] && RingOf(n, q, s, i) && NoDup(q)
    requires x > 0 && x in n && x !in q && n[x].size == s && n[x].index == i && n[x].child0 == 0 && n[x].child1 == 0
    ensures Next(q, 0) in n
    ensures var n' := RingInsert(n, q[0], x);
            RingOf(n', [q[0], x] + q[1..], s, i)
    ensures var n' := RingInsert(n, q[0], x);
            && n'[q[0]].parent == n[q[0]].parent && n'[q[0]].child0 == n[q[0]].child0
                && n'[q[0]].child1 == n[q[0]].child1
            && (forall y :: y in n && y != x && y !in q ==> n'[y] == n[y])
  {
    var q' := [q[0], x] + q[1..];
    assert Next(q, 0) in n && Next(q, 0) in q;
    var n' := RingInsert(n, q[0], x);
    forall k | 0 <= k < |q'|
      ensures q'[k] > 0 && q'[k] in n' && n'[q'[k]].size == s && n'[q'[k]].index == i
      ensures k > 0 ==> Plain(n'[q'[k]])
    {
      if k >= 2 { assert q'[k] == q[k - 1]; }
    }
    forall k | 0 <= k < |q'|
      ensures Next(q', k) in n' && n'[q'[k]].fd == Next(q', k) && n'[Next(q', k)].bk == q'[k]
    {
      if k >= 2 {
        assert q'[k] == q[k - 1] && Next(q', k) == Next(q, k - 1);
      } else if k == 1 {
        assert Next(q', k) == Next(q, 0);
      }
    }
  }

  /** The walk rewrites records of t and of x only. */
  ghost predicate Local(n: Nodes, n': Nodes, t: Tree, x: int) {
    forall y :: y in n && y != x && y !in Sizes(t) ==> Same(n, n', y)
  }

  lemma InsertWalkRing(n: Nodes, t: Tree, p: int, par: int, i: nat, lo: nat, e: nat, x: int)
    requires t.Node? && Repr(n, t, p, par, i) && IsTrie(t, lo, e)
    requires Disjoint(t) && x !in Sizes(t)
    requires x > 0 && x in n && n[x].size == t.size && n[x].index == i && n[x].child0 == 0 && n[x].child1 == 0
    ensures var n' := InsertWalk(n, t, p, lo, e, x, t.size);
            Repr(n', t.(ring := [t.ring[0], x] + t.ring[1..]), p, par, i) && Local(n, n', t, x)
  {
    var n' := InsertWalk(n, t, p, lo, e, x, t.size);
    RingInsertRing(n, t.ring, t.size, i, x);
    ReprFrame(n, n', t.left, n[p].child0, p, i);
    ReprFrame(n, n', t.right, n[p].child1, p, i);
  }

  lemma {:induction false} InsertWalkRepr(n: Nodes, t: Tree, p: int, par: int, i: nat, lo: nat, e: nat, x: int, s: nat)
    requires t.Node? && Repr(n, t, p, par, i) && IsTrie(t, lo, e) && lo <= s < lo + Pow2(e)
    requires Disjoint(t) && x !in Sizes(t)
    requires x > 0 && x in n && n[x].size == s && n[x].index == i && n[x].child0 == 0 && n[x].child1 == 0
    ensures var n' := InsertWalk(n, t, p, lo, e, x, s);
            Repr(n', Insert(t, lo, e, x, s), p, par, i) && Local(n, n', t, x)
    decreases t, 1
  {
    if t.size == s {
      InsertWalkRing(n, t, p, par, i, lo, e, x);
    } else if s < lo + Pow2(e - 1) {
      InsertWalkLeft(n, t, p, par, i, lo, e, x, s);
    } else {
      InsertWalkRight(n, t, p, par, i, lo, e, x, s);
    }
  }

  lemma {:induction false} InsertWalkLeft(n: Nodes, t: Tree, p: int, par: int, i: nat, lo: nat, e: nat, x: int, s: nat)
    requires t.Node? && Repr(n, t, p, par, i) && IsTrie(t, lo, e) && e > 0 && lo <= s < lo + Pow2(e - 1)
    requires t.size != s && Disjoint(t) && x !in Sizes(t)
    requires x > 0 && x in n && n[x].size == s && n[x].index == i && n[x].child0 == 0 && n[x].child1 == 0
    ensures var n' := InsertWalk(n, t, p, lo, e, x, s);
            Repr(n', t.(left := Insert(t.left, lo, e - 1, x, s)), p, par, i) && Local(n, n', t, x)
    decreases t, 0
  {
    var n' := InsertWalk(n, t, p, lo, e, x, s);
    assert p in t.ring;
    if t.left.Node? {
      InsertWalkRepr(n, t.left, n[p].child0, p, i, lo, e - 1, x, s);
      assert Local(n, n', t.left, x);
      assert Same(n, n', p);
    } else {
      Hung(n, p, false, x, s, i);
    }
    InsertedLeft(n, n', t, p, par, i, Insert(t.left, lo, e - 1, x, s), x);
  }

  lemma {:induction false} InsertWalkRight(n: Nodes, t: Tree, p: int, par: int, i: nat, lo: nat, e: nat, x: int, s: nat)
    requires t.Node? && Repr(n, t, p, par, i) && IsTrie(t, lo, e) && e > 0 && lo + Pow2(e - 1) <= s < lo + Pow2(e)
    requires t.size != s && Disjoint(t) && x !in Sizes(t)
    requires x > 0 && x in n && n[x].size == s && n[x].index == i && n[x].child0 == 0 && n[x].child1 == 0
    ensures var n' := InsertWalk(n, t, p, lo, e, x, s);
            Repr(n', t.(right := Insert(t.right, lo + Pow2(e - 1), e - 1, x, s)), p, par, i) && Local(n, n', t, x)
    decreases t, 0
  {
    var n' := InsertWalk(n, t, p, lo, e, x, s);
    assert p in t.ring;
    if t.right.Node? {
      InsertWalkRepr(n, t.right, n[p].child1, p, i, lo + Pow2(e - 1), e - 1, x, s);
      assert Local(n, n', t.right, x);
      assert Same(n, n', p);
    } else {
      Hung(n, p, true, x, s, i);
    }
    InsertedRight(n, n', t, p, par, i, Insert(t.right, lo + Pow2(e - 1), e - 1, x, s), x);
  }

  lemma Hung(n: Nodes, p: int, right: bool, x: int, s: nat, i: nat)
    requires p in n && p != 0 && x in n && x > 0 && p != x && n[x].size == s && n[x].index == i
    requires n[x].child0 == 0 && n[x].child1 == 0
    ensures Repr(HangBelow(n, p, right, x), Node(s, [x], Empty, Empty), x, p, i)
  {
    var n' := HangBelow(n, p, right, x);
    assert forall k :: 0 <= k < 1 ==> Next([x], k) == x;
    assert RingOf(n', [x], s, i);
  }

  /** p's record is as before but for the child links. */
  ghost predicate SameRing(c: TChunk, c': TChunk) {
    c'.(child0 := c.child0, child1 := c.child1) == c
  }

  /** As SameRing, also disregarding the parent. */
  ghost predicate SameLinks(c: TChunk, c': TChunk) {
    c'.(child0 := c.child0, child1 := c.child1, parent := c.parent) == c
  }

  lemma HeadFrame(n: Nodes, n': Nodes, q: seq<int>, s: nat, i: nat)
    requires q != [] && RingOf(n, q, s, i) && NoDup(q)
    requires q[0] in n' && SameLinks(n[q[0]], n'[q[0]])
    requires forall k :: 0 < k < |q| ==> Same(n, n', q[k])
    ensures RingOf(n', q, s, i)
  {
    forall k | 0 <= k < |q|
      ensures q[k] in n' && SameLinks(n[q[k]], n'[q[k]]) && (k > 0 ==> n'[q[k]] == n[q[k]])
    {
      assert k > 0 ==> Same(n, n', q[k]);
    }
    forall k | 0 <= k < |q|
      ensures Next(q, k) in n' && n'[q[k]].fd == Next(q, k) && n'[Next(q, k)].bk == q[k]
    {
    }
  }

  lemma InsertedLeft(n: Nodes, n': Nodes, t: Tree, p: int, par: int, i: nat, l: Tree, x: int)
    requires t.Node? && Repr(n, t, p, par, i) && Disjoint(t) && x !in Sizes(t)
    requires p in n' && SameRing(n[p], n'[p]) && n'[p].child1 == n[p].child1
    requires Repr(n', l, n'[p].child0, p, i)
    requires forall y :: y in n && y != x && y != p && y !in Sizes(t.left) ==> Same(n, n', y)
    ensures Repr(n', t.(left := l), p, par, i)
  {
    HeadFrame(n, n', t.ring, t.size, i);
    ReprInMap(n, t.right, n[p].child1, p, i);
    ReprFrame(n, n', t.right, n[p].child1, p, i);
  }

  lemma InsertedRight(n: Nodes, n': Nodes, t: Tree, p: int, par: int, i: nat, r: Tree, x: int)
    requires t.Node? && Repr(n, t, p, par, i) && Disjoint(t) && x !in Sizes(t)
    requires p in n' && SameRing(n[p], n'[p]) && n'[p].child0 == n[p].child0
    requires Repr(n', r, n'[p].child1, p, i)
    requires forall y :: y in n && y != x && y != p && y !in Sizes(t.right) ==> Same(n, n', y)
    ensures Repr(n', t.(right := r), p, par, i)
  {
    HeadFrame(n, n', t.ring, t.size, i);
    ReprInMap(n, t.left, n[p].child0, p, i);
    ReprFrame(n, n', t.left, n[p].child0, p, i);
  }

  // ---- Removal ----

  /** Take x, which is not alone, off its ring; its predecessor is left in charge. */
  function RingUnlink(n: Nodes, x: int): Nodes
    requires x in n && n[x].fd in n && n[x].bk in n
  {
    var f, r := n[x].fd, n[x].bk;
    var n := n[f := n[f].(bk := r)];
    n[r := n[r].(fd := f)]
  }

  /** Clear one child pointer of p. */
  function ClearChild(n: Nodes, p: int, right: bool): Nodes
    requires p in n
  {
    if right then n[p := n[p].(child1 := 0)] else n[p := n[p].(child0 := 0)]
  }

  /** The leaf below p that replaces a removed node. */
  ghost function LeafAt(n: Nodes, t: Tree, p: int): int {
    if t.Empty? || p !in n then p
    else if t.right.Node? then LeafAt(n, t.right, n[p].child1)
    else if t.left.Node? then LeafAt(n, t.left, n[p].child0)
    else p
  }

  /** The records after the child pointer leading to that leaf was cleared. */
  ghost function CutLeaf(n: Nodes, t: Tree, p: int, par: int, right: bool): Nodes {
    if t.Empty? || p !in n || par !in n then n
    else if t.right.Node? then CutLeaf(n, t.right, n[p].child1, p, true)
    else if t.left.Node? then CutLeaf(n, t.left, n[p].child0, p, false)
    else ClearChild(n, par, right)
  }

  lemma {:induction false} LeafAtOk(n: Nodes, t: Tree, p: int, par: int, i: nat)
    requires t.Node? && Repr(n, t, p, par, i)
    ensures var f := LeafAt(n, t, p);
            && Leaf(t).1 != [] && Leaf(t).1[0] == f && f in Sizes(t) && f in n
            && RingOf(n, Leaf(t).1, Leaf(t).0, i)
            && n[f].child0 == 0 && n[f].child1 == 0
  {
    if t.right.Node? {
      LeafAtOk(n, t.right, n[p].child1, p, i);
    } else if t.left.Node? {
      LeafAtOk(n, t.left, n[p].child0, p, i);
    } else {
      assert p in t.ring;
    }
  }

  /** Cutting the leaf off t leaves DropLeaf(t) below the parent. */
  lemma {:induction false} CutLeafRepr(n: Nodes, t: Tree, p: int, par: int, i: nat, right: bool)
    requires t.Node? && Repr(n, t, p, par, i) && par in n && Disjoint(t) && par !in Sizes(t)
    requires p == if right then n[par].child1 else n[par].child0
    ensures var n' := CutLeaf(n, t, p, par, right);
            && par in n' && SameRing(n[par], n'[par])
            && Repr(n', DropLeaf(t), if right then n'[par].child1 else n'[par].child0, par, i)
            && (if right then n'[par].child0 == n[par].child0 else n'[par].child1 == n[par].child1)
            && (forall y :: y in n && y != par && (y !in Sizes(t) || y in Leaf(t).1) ==> Same(n, n', y))
    decreases t, 1
  {
    assert p in t.ring;
    if t.right.Node? {
      CutRight(n, t, p, par, i, right);
    } else if t.left.Node? {
      CutLeft(n, t, p, par, i, right);
    }
  }

  lemma {:induction false} CutRight(n: Nodes, t: Tree, p: int, par: int, i: nat, right: bool)
    requires t.Node? && t.right.Node? && Repr(n, t, p, par, i) && par in n && Disjoint(t) && par !in Sizes(t)
    ensures var n' := CutLeaf(n, t, p, par, right);
            && par in n' && n'[par] == n[par]
            && Repr(n', DropLeaf(t), p, par, i)
            && (forall y :: y in n && y != par && (y !in Sizes(t) || y in Leaf(t).1) ==> Same(n, n', y))
    decreases t, 0
  {
    var n' := CutLeaf(n, t, p, par, right);
    assert p in t.ring;
    CutLeafRepr(n, t.right, n[p].child1, p, i, true);
    LeafSizes(t.right);
    assert Same(n, n', par);
    HeadFrame(n, n', t.ring, t.size, i);
    ReprFrame(n, n', t.left, n[p].child0, p, i) by { ReprInMap(n, t.left, n[p].child0, p, i); }
  }

  lemma {:induction false} CutLeft(n: Nodes, t: Tree, p: int, par: int, i: nat, right: bool)
    requires t.Node? && t.right.Empty? && t.left.Node? && Repr(n, t, p, par, i) && par in n && Disjoint(t)
               && par !in Sizes(t)
    ensures var n' := CutLeaf(n, t, p, par, right);
            && par in n' && n'[par] == n[par]
            && Repr(n', DropLeaf(t), p, par, i)
            && (forall y :: y in n && y != par && (y !in Sizes(t) || y in Leaf(t).1) ==> Same(n, n', y))
    decreases t, 0
  {
    var n' := CutLeaf(n, t, p, par, right);
    assert p in t.ring;
    CutLeafRepr(n, t.left, n[p].child0, p, i, false);
    LeafSizes(t.left);
    assert Same(n, n', par);
    HeadFrame(n, n', t.ring, t.size, i);
  }

  predicate CanAdopt(n: Nodes, x: int, r: int) {
    && x in n && r in n && x != r
    && (n[x].child0 != 0 ==> n[x].child0 in n && n[x].child0 != x)
    && (n[x].child1 != 0 ==> n[x].child1 in n)
  }

  /** Let r take over parent xp and the children of x. */
  function Adopt(n: Nodes, x: int, r: int, xp: int): Nodes
    requires CanAdopt(n, x, r)
  {
    var n := n[r := n[r].(parent := xp)];
    var c0 := n[x].child0;
    var n := if c0 == 0 then n else
      var n := n[r := n[r].(child0 := c0)];
      n[c0 := n[c0].(parent := r)];
    var c1 := n[x].child1;
    if c1 == 0 then n else
      var n := n[r := n[r].(child1 := c1)];
      n[c1 := n[c1].(parent := r)]
  }

  /** x's subtrees and a ring headed by r that may become one trie. */
  ghost predicate Adoptable(n: Nodes, x: int, r: int, i: nat, t: Tree) {
    && t.Node? && t.ring != [] && t.ring[0] == r && Disjoint(t)
    && x in n && x !in Sizes(t)
    && RingOf(n, t.ring, t.size, i)
    && n[r].child0 == 0 && n[r].child1 == 0
    && Repr(n, t.left, n[x].child0, x, i)
    && Repr(n, t.right, n[x].child1, x, i)
  }

  lemma AdoptableMeans(n: Nodes, x: int, r: int, i: nat, t: Tree)
    requires Adoptable(n, x, r, i, t)
    ensures r > 0 && r in n && x != r
    ensures t.left.Node? <==> n[x].child0 != 0
    ensures t.right.Node? <==> n[x].child1 != 0
    ensures t.left.Node? ==> n[x].child0 in n && n[x].child0 in Sizes(t.left)
    ensures t.right.Node? ==> n[x].child1 in n && n[x].child1 in Sizes(t.right)
    ensures r !in Sizes(t.left) && r !in Sizes(t.right)
  {
    assert r in t.ring;
    ReprInMap(n, t.left, n[x].child0, x, i);
    ReprInMap(n, t.right, n[x].child1, x, i);
  }

  /** What Adopt wrote, record by record. */
  lemma AdoptWrites(n: Nodes, x: int, r: int, xp: int, i: nat, t: Tree)
    requires Adoptable(n, x, r, i, t)
    ensures CanAdopt(n, x, r)
    ensures var n', c0, c1 := Adopt(n, x, r, xp), n[x].child0, n[x].child1;
            && r in n' && n'[r] == n[r].(parent := xp, child0 := c0, child1 := c1)
            && (c0 != 0 ==> c0 in n' && n'[c0] == n[c0].(parent := r))
            && (c1 != 0 ==> c1 in n' && n'[c1] == n[c1].(parent := r))
            && forall y :: y in n && y != r && (c0 == 0 || y != c0) && (c1 == 0 || y != c1) ==> Same(n, n', y)
  {
    AdoptableMeans(n, x, r, i, t);
  }

  lemma AdoptRepr(n: Nodes, x: int, r: int, xp: int, i: nat, t: Tree)
    requires Adoptable(n, x, r, i, t) && xp != 0
    ensures CanAdopt(n, x, r)
    ensures Repr(Adopt(n, x, r, xp), t, r, xp, i)
    ensures forall y :: y in n && y !in Sizes(t) ==> Same(n, Adopt(n, x, r, xp), y)
  {
    AdoptWrites(n, x, r, xp, i, t);
    AdoptableMeans(n, x, r, i, t);
    var n' := Adopt(n, x, r, xp);
    HeadFrame(n, n', t.ring, t.size, i);
    if t.left.Node? {
      ReprReparent(n, n', t.left, n[x].child0, x, r, i) by { ReprInMap(n, t.left, n[x].child0, x, i); }
    }
    if t.right.Node? {
      ReprReparent(n, n', t.right, n[x].child1, x, r, i) by { ReprInMap(n, t.right, n[x].child1, x, i); }
    }
  }

  /** The records and the replacement once the first chunk p of trie t is cut loose. */
  ghost function Replacement(n: Nodes, t: Tree, p: int): (Nodes, int) {
    if t.Empty? || p !in n || n[p].fd !in n || n[p].bk !in n then (n, 0)
    else if n[p].bk != p then (RingUnlink(n, p), n[p].bk)
    else if t.right.Node? then (CutLeaf(n, t.right, n[p].child1, p, true), LeafAt(n, t.right, n[p].child1))
    else if t.left.Node? then (CutLeaf(n, t.left, n[p].child0, p, false), LeafAt(n, t.left, n[p].child0))
    else (n, 0)
  }

  lemma HeadLinks(n: Nodes, q: seq<int>, s: nat, i: nat)
    requires q != [] && RingOf(n, q, s, i) && NoDup(q)
    ensures q[0] in n && n[q[0]].fd == Next(q, 0) && n[q[0]].bk == q[|q| - 1]
    ensures Next(q, 0) in n && q[|q| - 1] in n
    ensures n[q[0]].bk == q[0] <==> |q| == 1
  {
    assert Next(q, |q| - 1) == q[0];
  }

  /** The two links written by RingUnlink. */
  ghost predicate Bridged(n: Nodes, n': Nodes, f: int, r: int) {
    && (forall y :: y in n ==> y in n')
    && (forall y :: y in n && y != f && y != r ==> n'[y] == n[y])
    && (forall y :: y in n ==> n'[y].fd == if y == r then f else n[y].fd)
    && (forall y :: y in n ==> n'[y].bk == if y == f then r else n[y].bk)
    && (forall y :: y in n ==> n'[y].(fd := n[y].fd, bk := n[y].bk) == n[y])
  }

  lemma RingUnlinkWrites(n: Nodes, x: int)
    requires x in n && n[x].fd in n && n[x].bk in n
    ensures Bridged(n, RingUnlink(n, x), n[x].fd, n[x].bk)
  {
  }

  lemma BridgeHead(n: Nodes, n': Nodes, q: seq<int>, s: nat, i: nat)
    requires |q| > 1 && RingOf(n, q, s, i) && NoDup(q)
    requires Bridged(n, n', q[1], q[|q| - 1])
    ensures RingOf(n', [q[|q| - 1]] + q[1..|q| - 1], s, i)
  {
    var m := |q| - 1;
    var q' := [q[m]] + q[1..m];
    assert forall k :: 0 <= k < |q'| ==> q'[k] == q[if k == 0 then m else k];
    forall k | 0 <= k < |q'|
      ensures Next(q', k) in n' && n'[q'[k]].fd == Next(q', k) && n'[Next(q', k)].bk == q'[k]
    {
      if k == 0 {
        assert Next(q', 0) == q[1];
      } else {
        assert Next(q, k) == q[k + 1];
        assert Next(q', k) == q[k + 1];
      }
    }
  }

  lemma BridgeLater(n: Nodes, n': Nodes, q: seq<int>, s: nat, i: nat, m: nat)
    requires 0 < m < |q| && RingOf(n, q, s, i) && NoDup(q)
    requires Bridged(n, n', Next(q, m), q[m - 1])
    ensures RingOf(n', q[..m] + q[m + 1..], s, i)
  {
    var q' := q[..m] + q[m + 1..];
    assert forall k :: 0 <= k < |q'| ==> q'[k] == q[if k < m then k else k + 1];
    forall k | 0 <= k < |q'|
      ensures Next(q', k) in n' && n'[q'[k]].fd == Next(q', k) && n'[Next(q', k)].bk == q'[k]
    {
      var j := if k < m then k else k + 1;
      assert Next(q, j) in n && Next(q, m) in n;
      assert Next(q', k) == if k == m - 1 then Next(q, m) else Next(q, j);
      assert k == m - 1 || Next(q, j) != Next(q, m);
    }
  }

  /** The ring after its first chunk was unlinked: the last one now leads. */
  lemma RingUnlinkHead(n: Nodes, q: seq<int>, s: nat, i: nat)
    requires |q| > 1 && RingOf(n, q, s, i) && NoDup(q)
    ensures n[q[0]].fd in n && n[q[0]].bk in n
    ensures var n', q' := RingUnlink(n, q[0]), RingWithout(q, q[0]);
            && q'[0] == n[q[0]].bk && RingOf(n', q', s, i) && Plain(n'[q'[0]])
            && q[0] in n' && n'[q[0]] == n[q[0]]
            && forall y :: y in n && y !in q ==> Same(n, n', y)
  {
    HeadLinks(n, q, s, i);
    var n' := RingUnlink(n, q[0]);
    RingUnlinkWrites(n, q[0]);
    BridgeHead(n, n', q, s, i);
    assert RingWithout(q, q[0]) == [q[|q| - 1]] + q[1..|q| - 1];
    assert Plain(n[q[|q| - 1]]);
  }

  lemma ReplacementOk(n: Nodes, t: Tree, p: int, par: int, i: nat)
    requires t.Node? && Repr(n, t, p, par, i) && Disjoint(t)
    ensures var (n', r) := Replacement(n, t, p);
            && (r == 0 <==> Remove(t, p).Empty?)
            && (r != 0 ==> Adoptable(n', p, r, i, Remove(t, p)))
            && forall y :: y in n && y !in Sizes(t) ==> Same(n, n', y)
  {
    assert p in t.ring;
    HeadLinks(n, t.ring, t.size, i);
    ReprInMap(n, t, p, par, i);
    if |t.ring| > 1 {
      ReplacementFromRing(n, t, p, par, i);
    } else if t.right.Node? {
      ReplacementFromRight(n, t, p, par, i);
    } else if t.left.Node? {
      ReplacementFromLeft(n, t, p, par, i);
    }
  }

  lemma ReplacementFromRing(n: Nodes, t: Tree, p: int, par: int, i: nat)
    requires t.Node? && Repr(n, t, p, par, i) && Disjoint(t) && |t.ring| > 1
    ensures var (n', r) := Replacement(n, t, p);
            && r != 0 && Adoptable(n', p, r, i, Remove(t, p))
            && forall y :: y in n && y !in Sizes(t) ==> Same(n, n', y)
  {
    var (n', r) := Replacement(n, t, p);
    HeadLinks(n, t.ring, t.size, i);
    RingUnlinkHead(n, t.ring, t.size, i);
    RingWithoutOk(t.ring, p);
    RemoveSizes(t, p);
    assert Remove(t, p) == t.(ring := RingWithout(t.ring, p));
    ReprFrame(n, n', t.left, n[p].child0, p, i) by { ReprInMap(n, t.left, n[p].child0, p, i); }
    ReprFrame(n, n', t.right, n[p].child1, p, i) by { ReprInMap(n, t.right, n[p].child1, p, i); }
  }

  lemma ReplacementFromRight(n: Nodes, t: Tree, p: int, par: int, i: nat)
    requires t.Node? && Repr(n, t, p, par, i) && Disjoint(t) && |t.ring| == 1 && t.right.Node?
    ensures var (n', r) := Replacement(n, t, p);
            && r != 0 && Adoptable(n', p, r, i, Remove(t, p))
            && forall y :: y in n && y !in Sizes(t) ==> Same(n, n', y)
  {
    var (n', r) := Replacement(n, t, p);
    assert p in t.ring;
    HeadLinks(n, t.ring, t.size, i);
    RemoveSizes(t, p);
    LeafSizes(t.right);
    LeafAtOk(n, t.right, n[p].child1, p, i);
    CutLeafRepr(n, t.right, n[p].child1, p, i, true);
    assert Remove(t, p) == Node(Leaf(t.right).0, Leaf(t.right).1, t.left, DropLeaf(t.right));
    assert r in Leaf(t.right).1 && Same(n, n', r);
    RingFrame(n, n', Leaf(t.right).1, Leaf(t.right).0, i);
    ReprInMap(n, t.left, n[p].child0, p, i);
    ReprFrame(n, n', t.left, n[p].child0, p, i);
  }

  lemma ReplacementFromLeft(n: Nodes, t: Tree, p: int, par: int, i: nat)
    requires t.Node? && Repr(n, t, p, par, i) && Disjoint(t) && |t.ring| == 1 && t.right.Empty? && t.left.Node?
    ensures var (n', r) := Replacement(n, t, p);
            && r != 0 && Adoptable(n', p, r, i, Remove(t, p))
            && forall y :: y in n && y !in Sizes(t) ==> Same(n, n', y)
  {
    var (n', r) := Replacement(n, t, p);
    assert p in t.ring;
    HeadLinks(n, t.ring, t.size, i);
    RemoveSizes(t, p);
    LeafSizes(t.left);
    LeafAtOk(n, t.left, n[p].child0, p, i);
    CutLeafRepr(n, t.left, n[p].child0, p, i, false);
    assert Remove(t, p) == Node(Leaf(t.left).0, Leaf(t.left).1, DropLeaf(t.left), Empty);
    assert r in Leaf(t.left).1 && Same(n, n', r);
    RingFrame(n, n', Leaf(t.left).1, Leaf(t.left).0, i);
  }

  /** The ring after a later chunk was unlinked. */
  lemma RingUnlinkLater(n: Nodes, q: seq<int>, s: nat, i: nat, x: int)
    requires q != [] && RingOf(n, q, s, i) && NoDup(q) && x in q && x != q[0]
    ensures x in n && n[x].fd in n && n[x].bk in n && n[x].bk != x && Plain(n[x])
    ensures var n', q' := RingUnlink(n, x), RingWithout(q, x);
            && q' != [] && q'[0] == q[0] && RingOf(n', q', s, i)
            && n'[q[0]].parent == n[q[0]].parent && n'[q[0]].child0 == n[q[0]].child0
                && n'[q[0]].child1 == n[q[0]].child1
            && forall y :: y in n && y !in q ==> Same(n, n', y)
  {
    var m :| 0 <= m < |q| && q[m] == x;
    RemoveValueAt(q, m);
    assert Next(q, m - 1) == x && Next(q, m) in n;
    RingUnlinkWrites(n, x);
    BridgeLater(n, RingUnlink(n, x), q, s, i, m);
  }

  lemma {:induction false} RemoveValueAt(q: seq<int>, m: nat)
    requires m < |q| && NoDup(q)
    ensures RemoveValue(q, q[m]) == q[..m] + q[m + 1..]
  {
    if m > 0 {
      RemoveValueAt(q[1..], m - 1);
      assert q[1..][..m - 1] == q[1..m] && q[1..][m..] == q[m + 1..];
    }
  }

  // ---- From a subtree to the whole trie ----

  /** The subtree whose node holds x. */
  ghost function SubAt(t: Tree, x: int): Tree
    requires x in Sizes(t)
    ensures SubAt(t, x).Node? && x in SubAt(t, x).ring
  {
    if x in t.ring then t else if x in Sizes(t.left) then SubAt(t.left, x) else SubAt(t.right, x)
  }

  /** The parent record after its child x was replaced by r. */
  function Rehang(c: TChunk, x: int, r: int): TChunk {
    if c.child0 == x then c.(child0 := r) else c.(child1 := r)
  }

  /**
   * n' differs from n below the node of x and in the child link to it, and
   * below it represents the subtree without x.
   */
  ghost predicate RemovedAt(n: Nodes, n': Nodes, t: Tree, x: int, r: int, i: nat)
    requires x in Sizes(t)
  {
    var s := SubAt(t, x);
    var h := s.ring[0];
    h in n &&
    var par := n[h].parent;
    && Repr(n', Remove(s, x), if x == h then r else h, par, i)
    && (forall y :: y in n && y !in Sizes(s) && y != par ==> Same(n, n', y))
    && (par in n ==> par in n' && n'[par] == if x == h then Rehang(n[par], x, r) else n[par])
  }

  lemma {:induction false} RemovedBelow(n: Nodes, n': Nodes, t: Tree, p: int, par: int, i: nat, x: int, r: int)
    requires Repr(n, t, p, par, i) && Disjoint(t) && x in Sizes(t) && par !in Sizes(t)
    requires RemovedAt(n, n', t, x, r, i)
    ensures Repr(n', Remove(t, x), if x == p then r else p, par, i)
    ensures forall y :: y in n && y !in Sizes(t) && y != par ==> Same(n, n', y)
    ensures par in n ==> par in n' && n'[par] == if x == p then Rehang(n[par], x, r) else n[par]
    decreases t, 1
  {
    assert p in t.ring;
    if x !in t.ring {
      ReprInMap(n, t.left, n[p].child0, p, i);
      ReprInMap(n, t.right, n[p].child1, p, i);
      if x in Sizes(t.left) {
        assert SubAt(t, x) == SubAt(t.left, x);
        RemovedBelow(n, n', t.left, n[p].child0, p, i, x, r);
        RemovedLeft(n, n', t, p, par, i, x, r);
      } else {
        assert SubAt(t, x) == SubAt(t.right, x);
        RemovedBelow(n, n', t.right, n[p].child1, p, i, x, r);
        RemovedRight(n, n', t, p, par, i, x, r);
      }
      assert par in n ==> Same(n, n', par);
    }
  }

  lemma RemovedLeft(n: Nodes, n': Nodes, t: Tree, p: int, par: int, i: nat, x: int, r: int)
    requires t.Node? && Repr(n, t, p, par, i) && Disjoint(t) && x in Sizes(t.left)
    requires Repr(n', Remove(t.left, x), if x == n[p].child0 then r else n[p].child0, p, i)
    requires forall y :: y in n && y !in Sizes(t.left) && y != p ==> Same(n, n', y)
    requires p in n' && n'[p] == if x == n[p].child0 then Rehang(n[p], x, r) else n[p]
    ensures Repr(n', Remove(t, x), p, par, i)
  {
    assert Remove(t, x) == t.(left := Remove(t.left, x));
    HeadFrame(n, n', t.ring, t.size, i);
    ReprInMap(n, t.right, n[p].child1, p, i);
    ReprFrame(n, n', t.right, n[p].child1, p, i);
  }

  lemma RemovedRight(n: Nodes, n': Nodes, t: Tree, p: int, par: int, i: nat, x: int, r: int)
    requires t.Node? && Repr(n, t, p, par, i) && Disjoint(t) && x in Sizes(t.right)
    requires Repr(n', Remove(t.right, x), if x == n[p].child1 then r else n[p].child1, p, i)
    requires forall y :: y in n && y !in Sizes(t.right) && y != p ==> Same(n, n', y)
    requires p in n' && n'[p] == if x == n[p].child1 then Rehang(n[p], x, r) else n[p]
    ensures Repr(n', Remove(t, x), p, par, i)
  {
    assert Remove(t, x) == t.(right := Remove(t.right, x));
    HeadFrame(n, n', t.ring, t.size, i);
    ReprInMap(n, t.right, n[p].child1, p, i);
    ReprInMap(n, t.left, n[p].child0, p, i);
    ReprFrame(n, n', t.left, n[p].child0, p, i);
  }

  /** The subtree that holds x, in memory. */
  lemma {:induction false} SubRepr(n: Nodes, t: Tree, p: int, par: int, i: nat, x: int)
    requires Repr(n, t, p, par, i) && Disjoint(t) && x in Sizes(t) && par !in Sizes(t)
    ensures var s := SubAt(t, x);
            && s.ring != [] && s.ring[0] in n
            && Repr(n, s, s.ring[0], n[s.ring[0]].parent, i) && Disjoint(s)
            && n[s.ring[0]].parent !in Sizes(s)
            && (s.ring[0] == p <==> s == t)
            && (s.ring[0] == p ==> n[s.ring[0]].parent == par)
            && (s.ring[0] != p ==> n[s.ring[0]].parent in n && n[s.ring[0]].parent in Sizes(t))
            && (forall y :: y in Sizes(s) ==> y in Sizes(t))
  {
    assert p in t.ring;
    ReprInMap(n, t, p, par, i);
    if x !in t.ring {
      if x in Sizes(t.left) {
        SubRepr(n, t.left, n[p].child0, p, i, x);
      } else {
        SubRepr(n, t.right, n[p].child1, p, i, x);
      }
    }
  }

  lemma AdoptableFrame(n: Nodes, n': Nodes, x: int, r: int, i: nat, t: Tree)
    requires Adoptable(n, x, r, i, t)
    requires Same(n, n', x) && forall y :: y in Sizes(t) ==> Same(n, n', y)
    ensures Adoptable(n', x, r, i, t)
  {
    assert r in t.ring && Same(n, n', r);
    RingFrame(n, n', t.ring, t.size, i);
    ReprFrame(n, n', t.left, n[x].child0, x, i);
    ReprFrame(n, n', t.right, n[x].child1, x, i);
  }

  /** The writes of unlink_large_chunk for a chunk x that heads its ring. */
  ghost predicate HeadWrites(n: Nodes, s: Tree, x: int, r: int, n1: Nodes, n2: Nodes, n3: Nodes) {
    && x in n && (n1, r) == Replacement(n, s, x)
    && n2 == (if n[x].parent in n && n[x].parent in n1 then n1[n[x].parent := Rehang(n1[n[x].parent], x, r)] else n1)
    && if r == 0 then n3 == n2
       else
         && CanAdopt(n2, x, r)
         && n3 == Adopt(n2, x, r, n[x].parent)
  }

  /** The second half of the writes is possible. */
  lemma HeadReady(n: Nodes, s: Tree, x: int, i: nat)
    requires s.Node? && x in n && Repr(n, s, x, n[x].parent, i) && Disjoint(s) && n[x].parent !in Sizes(s)
    ensures var (n1, r) := Replacement(n, s, x);
            && (r == 0 <==> Remove(s, x).Empty?)
            && (n[x].parent in n ==> Same(n, n1, n[x].parent))
            && var n2 := if n[x].parent in n then n1[n[x].parent := Rehang(n1[n[x].parent], x, r)] else n1;
            && (r != 0 ==> Adoptable(n2, x, r, i, Remove(s, x)))
            && forall y :: y in n && y !in Sizes(s) && y != n[x].parent ==> Same(n, n2, y)
  {
    var (n1, r) := Replacement(n, s, x);
    assert x in s.ring;
    ReplacementOk(n, s, x, n[x].parent, i);
    RemoveSizes(s, x);
    if r != 0 && n[x].parent in n {
      AdoptableFrame(n1, n1[n[x].parent := Rehang(n1[n[x].parent], x, r)], x, r, i, Remove(s, x));
    }
  }

  lemma HeadRemoved(n: Nodes, t: Tree, p: int, par: int, i: nat, x: int, r: int, n1: Nodes, n2: Nodes, n3: Nodes)
    requires Repr(n, t, p, par, i) && Disjoint(t) && x in Sizes(t) && par !in Sizes(t)
    requires SubAt(t, x).ring[0] == x && HeadWrites(n, SubAt(t, x), x, r, n1, n2, n3)
    ensures RemovedAt(n, n3, t, x, r, i)
  {
    var s := SubAt(t, x);
    SubRepr(n, t, p, par, i, x);
    HeadReady(n, s, x, i);
    RemoveSizes(s, x);
    if r != 0 {
      AdoptRepr(n2, x, r, n[x].parent, i, Remove(s, x));
    }
  }

  lemma LaterRemoved(n: Nodes, t: Tree, p: int, par: int, i: nat, x: int)
    requires Repr(n, t, p, par, i) && Disjoint(t) && x in Sizes(t) && par !in Sizes(t)
    requires SubAt(t, x).ring[0] != x
    ensures x in n && n[x].fd in n && n[x].bk in n && n[x].bk != x && n[x].parent == 0
    ensures RemovedAt(n, RingUnlink(n, x), t, x, 0, i)
  {
    var s := SubAt(t, x);
    var h := s.ring[0];
    SubRepr(n, t, p, par, i, x);
    RingUnlinkLater(n, s.ring, s.size, i, x);
    var n' := RingUnlink(n, x);
    ReprInMap(n, s.left, n[h].child0, h, i);
    ReprInMap(n, s.right, n[h].child1, h, i);
    ReprFrame(n, n', s.left, n[h].child0, h, i);
    ReprFrame(n, n', s.right, n[h].child1, h, i);
    assert h in s.ring && h in Sizes(s);
    assert |s.ring| > 1;
    assert Remove(s, x) == s.(ring := RingWithout(s.ring, x));
  }
}
