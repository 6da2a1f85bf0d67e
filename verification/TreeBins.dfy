/**
 * The 32 tree bins of lj_alloc.c: insertion, removal, and the searches of
 * tmalloc_large and tmalloc_small, on linked records.
 */
module TreeBins {
  import opened Words
  import opened BinMap
  import opened TreeIndex
  import opened Tries
  import opened TrieLinks
  import opened TreeSearch

  /** The address of the root pointer of bin i, used as the parent of the root. */
  function BinAddr(i: nat): int {
    -1 - i
  }

  /** The chunks of bin i are those binned chunks whose size has index i. */
  ghost predicate Holds(content: map<int, nat>, i: nat, t: Tree) {
    && (forall x :: x in Sizes(t) <==> x in content && ComputeTreeIndex(content[x]) == i)
    && (forall x :: x in Sizes(t) ==> Sizes(t)[x] == content[x])
  }

  ghost predicate BinValid(n: Nodes, content: map<int, nat>, i: nat, root: int, t: Tree)
    requires i < NTREEBINS
  {
    && Repr(n, t, root, BinAddr(i), i)
    && IsTrie(t, TrieLo(i), TrieExp(i))
    && Disjoint(t)
    && Holds(content, i, t)
  }

  /** Writes to the records of one bin leave the others as they are. */
  lemma OtherBin(n: Nodes, content: map<int, nat>, n': Nodes, content': map<int, nat>, i: nat, j: nat, root: int,
                 t: Tree)
    requires i < NTREEBINS && j < NTREEBINS && i != j && BinValid(n, content, j, root, t)
    requires forall x :: x in n && (x in content ==> ComputeTreeIndex(content[x]) != i)
               && (x in content' ==> ComputeTreeIndex(content'[x]) != i)
               ==> Same(n, n', x)
    requires forall x :: x in content && ComputeTreeIndex(content[x]) == j <==> x in content' && ComputeTreeIndex(content'[x]) == j
    requires forall x :: x in content && x in content' ==> content[x] == content'[x]
    ensures BinValid(n', content', j, root, t)
  {
    ReprInMap(n, t, root, BinAddr(j), j);
    ReprFrame(n, n', t, root, BinAddr(j), j);
  }

  lemma FreshRecord(n: Nodes, t: Tree, root: int, i: nat, x: int, s: nat)
    requires Repr(n, t, root, BinAddr(i), i) && x !in Sizes(t)
    ensures Repr(n[x := TChunk(s, 0, 0, 0, 0, 0, i)], t, root, BinAddr(i), i)
  {
    ReprFrame(n, n[x := TChunk(s, 0, 0, 0, 0, 0, i)], t, root, BinAddr(i), i);
  }

  lemma LoneRecord(n: Nodes, x: int, s: nat, i: nat)
    requires x > 0 && x in n && n[x] == TChunk(s, 0, 0, 0, 0, 0, i)
    ensures Repr(n[x := n[x].(parent := BinAddr(i), fd := x, bk := x)], Node(s, [x], Empty, Empty), x, BinAddr(i), i)
  {
    var n' := n[x := n[x].(parent := BinAddr(i), fd := x, bk := x)];
    assert Next([x], 0) == x;
    assert RingOf(n', [x], s, i);
  }

  /** The bin that received x holds what it should. */
  lemma HoldsAdded(content: map<int, nat>, i: nat, t: Tree, t': Tree, x: int, s: nat)
    requires Holds(content, i, t) && x !in content && i == ComputeTreeIndex(s)
    requires Adds(Sizes(t), Sizes(t'), x, s)
    ensures Holds(content[x := s], i, t')
  {
  }

  lemma HoldsDropped(content: map<int, nat>, i: nat, t: Tree, t': Tree, x: int)
    requires Holds(content, i, t)
    requires Drops(Sizes(t), Sizes(t'), x)
    ensures Holds(content - {x}, i, t')
  {
  }

  ghost predicate AllBins(n: Nodes, content: map<int, nat>, roots: seq<int>, ts: seq<Tree>) {
    && |roots| == NTREEBINS && |ts| == NTREEBINS
    && forall i :: 0 <= i < NTREEBINS ==> BinValid(n, content, i, roots[i], ts[i])
  }

  /** All bins after x of size s was added to or dropped from bin i. */
  lemma OtherBins(n: Nodes, c: map<int, nat>, roots: seq<int>, ts: seq<Tree>,
                  n': Nodes, c': map<int, nat>, roots': seq<int>, ts': seq<Tree>, i: nat, x: int, s: nat)
    requires i == ComputeTreeIndex(s) && AllBins(n, c, roots, ts) && |roots'| == |ts'| == NTREEBINS
    requires roots' == roots[i := roots'[i]] && ts' == ts[i := ts'[i]]
    requires BinValid(n', c', i, roots'[i], ts'[i])
    requires Local(n, n', ts[i], x)
    requires (x !in c && c' == c[x := s]) || (x in c && c[x] == s && c' == c - {x})
    ensures AllBins(n', c', roots', ts')
  {
    assert Holds(c, i, ts[i]);
    forall j | 0 <= j < NTREEBINS && j != i
      ensures BinValid(n', c', j, roots[j], ts[j])
    {
      OtherBin(n, c, n', c', i, j, roots[j], ts[j]);
    }
  }

  /** The invariant of the tree bins. */
  ghost predicate Consistent(n: Nodes, roots: seq<int>, w: nat, ts: seq<Tree>, content: map<int, nat>) {
    && AllBins(n, content, roots, ts)
    && (forall i: nat :: Marked(w, i) <==> i < NTREEBINS && ts[i].Node?)
    && (forall x :: x in content ==> x > 0 && MIN_LARGE_SIZE <= content[x] < SIZE_LIMIT)
    && (forall x :: x in n ==> x > 0)
  }

  /** The bin of size s has a trie that s fits. */
  lemma BinOf(n: Nodes, roots: seq<int>, w: nat, ts: seq<Tree>, content: map<int, nat>, s: nat)
    requires Consistent(n, roots, w, ts, content) && MIN_LARGE_SIZE <= s < SIZE_LIMIT
    ensures var i := ComputeTreeIndex(s);
            && BinValid(n, content, i, roots[i], ts[i])
            && TrieLo(i) <= s < TrieLo(i) + Pow2(TrieExp(i))
            && TrieLo(i) % Pow2(TrieExp(i)) == 0
            && LeftShiftForTreeIndex(i) == 64 - TrieExp(i)
            && (Marked(w, i) <==> ts[i].Node?)
  {
    TreeIndexInTrie(s);
    TrieCoversBin(ComputeTreeIndex(s));
    ShiftIsKey(ComputeTreeIndex(s));
  }

  lemma LoneTrie(x: int, s: nat, lo: nat, e: nat)
    requires lo <= s < lo + Pow2(e)
    ensures var t := Node(s, [x], Empty, Empty);
            IsTrie(t, lo, e) && Disjoint(t) && Adds(Sizes(Empty), Sizes(t), x, s)
  {
  }

  /** The trie that the insertion walk leaves behind. */
  lemma Inserted(n: Nodes, t: Tree, p: int, par: int, i: nat, lo: nat, e: nat, x: int, s: nat) returns (t': Tree)
    requires t.Node? && Repr(n, t, p, par, i) && IsTrie(t, lo, e) && lo <= s < lo + Pow2(e)
    requires Disjoint(t) && x !in Sizes(t)
    requires x > 0 && x in n && n[x] == TChunk(s, 0, 0, 0, 0, 0, i)
    ensures t'.Node? && Disjoint(t') && Adds(Sizes(t), Sizes(t'), x, s) && IsTrie(t', lo, e)
    ensures var n' := InsertWalk(n, t, p, lo, e, x, s);
            Repr(n', t', p, par, i) && Local(n, n', t, x)
  {
    t' := Tries.Insert(t, lo, e, x, s);
    InsertTrie(t, lo, e, x, s);
    InsertSizes(t, lo, e, x, s);
    InsertWalkRepr(n, t, p, par, i, lo, e, x, s);
  }

  /** The insertion walk has come to the trie t at p. */
  ghost predicate OnWalk(n: Nodes, t: Tree, p: int, par: int, i: nat, lo: nat, e: nat, x: int, s: nat) {
    && t.Node? && Repr(n, t, p, par, i) && Disjoint(t) && x in n && x !in Sizes(t)
    && IsTrie(t, lo, e) && e <= 64 && lo % Pow2(e) == 0 && lo <= s < lo + Pow2(e)
  }

  lemma WalkLeft(n: Nodes, t: Tree, p: int, par: int, i: nat, lo: nat, e: nat, x: int, s: nat)
    requires OnWalk(n, t, p, par, i, lo, e, x, s) && e > 0 && s < lo + Pow2(e - 1) && lo % Pow2(e - 1) == 0
    ensures p in n
    ensures n[p].child0 == 0 <==> t.left.Empty?
    ensures t.left.Node? ==> OnWalk(n, t.left, n[p].child0, p, i, lo, e - 1, x, s)
  {
    HeadLinks(n, t.ring, t.size, i);
    NullOrNode(n, t.left, n[p].child0, p, i);
  }

  lemma WalkRight(n: Nodes, t: Tree, p: int, par: int, i: nat, lo: nat, e: nat, x: int, s: nat)
    requires OnWalk(n, t, p, par, i, lo, e, x, s) && e > 0 && s >= lo + Pow2(e - 1)
               && (lo + Pow2(e - 1)) % Pow2(e - 1) == 0
    ensures p in n
    ensures n[p].child1 == 0 <==> t.right.Empty?
    ensures t.right.Node? ==> OnWalk(n, t.right, n[p].child1, p, i, lo + Pow2(e - 1), e - 1, x, s)
  {
    HeadLinks(n, t.ring, t.size, i);
    NullOrNode(n, t.right, n[p].child1, p, i);
  }

  lemma WalkStep(n: Nodes, t: Tree, p: int, par: int, i: nat, lo: nat, e: nat, x: int, s: nat)
    requires OnWalk(n, t, p, par, i, lo, e, x, s)
    ensures p in n && n[p].fd in n && n[p].size == t.size && p == t.ring[0] && e <= 64
    ensures t.size == s ==> InsertWalk(n, t, p, lo, e, x, s) == RingInsert(n, p, x)
    ensures t.size != s ==>
      && e > 0
      && ShiftKey(Key(s, e)) == Key(s, e - 1)
      && var right := TopBit(Key(s, e));
         var c := if right then n[p].child1 else n[p].child0;
         var t' := if right then t.right else t.left;
         var lo' := if right then lo + Pow2(e - 1) else lo;
         if c != 0 then
           && OnWalk(n, t', c, p, i, lo', e - 1, x, s)
           && InsertWalk(n, t, p, lo, e, x, s) == InsertWalk(n, t', c, lo', e - 1, x, s)
         else InsertWalk(n, t, p, lo, e, x, s) == HangBelow(n, p, right, x)
  {
    HeadLinks(n, t.ring, t.size, i);
    if t.size != s {
      Steer(s, e, lo);
      if TopBit(Key(s, e)) {
        WalkRight(n, t, p, par, i, lo, e, x, s);
      } else {
        WalkLeft(n, t, p, par, i, lo, e, x, s);
      }
    }
  }

  /** Consistent again after x of size s went into its bin, whose trie is now t. */
  lemma InsertConsistent(n: Nodes, roots: seq<int>, w: nat, ts: seq<Tree>, content: map<int, nat>,
                         n': Nodes, roots': seq<int>, w': nat, t: Tree, i: nat, x: int, s: nat)
    requires Consistent(n, roots, w, ts, content) && i == ComputeTreeIndex(s) && |roots'| == NTREEBINS
    requires x > 0 && x !in content && MIN_LARGE_SIZE <= s < SIZE_LIMIT
    requires roots' == roots[i := roots'[i]]
    requires t.Node? && Disjoint(t) && Adds(Sizes(ts[i]), Sizes(t), x, s) && IsTrie(t, TrieLo(i), TrieExp(i))
    requires Repr(n', t, roots'[i], BinAddr(i), i) && Local(n, n', ts[i], x)
    requires forall j: nat :: Marked(w', j) <==> Marked(w, j) || j == i
    requires forall y :: y in n' ==> y > 0
    ensures Consistent(n', roots', w', ts[i := t], content[x := s])
  {
    HoldsAdded(content, i, ts[i], t, x, s);
    OtherBins(n, content, roots, ts, n', content[x := s], roots', ts[i := t], i, x, s);
  }

  lemma Removed(n: Nodes, n': Nodes, t: Tree, root: int, i: nat, x: int, r: int, lo: nat, e: nat) returns (t': Tree)
    requires Repr(n, t, root, BinAddr(i), i) && Disjoint(t) && x in Sizes(t) && IsTrie(t, lo, e)
    requires forall y :: y in n ==> y > 0
    requires RemovedAt(n, n', t, x, r, i)
    ensures Repr(n', t', if x == root then r else root, BinAddr(i), i)
    ensures t'.Empty? <==> (if x == root then r else root) == 0
    ensures Disjoint(t') && Drops(Sizes(t), Sizes(t'), x) && IsTrie(t', lo, e)
    ensures Local(n, n', t, x)
  {
    t' := Tries.Remove(t, x);
    ReprInMap(n, t, root, BinAddr(i), i);
    assert BinAddr(i) !in Sizes(t) && BinAddr(i) !in n;
    RemovedBelow(n, n', t, root, BinAddr(i), i, x, r);
    RemoveSizes(t, x);
    RemoveTrie(t, lo, e, x);
    NullOrNode(n', t', if x == root then r else root, BinAddr(i), i);
  }

  /** A chunk without a parent does not head its ring. */
  lemma LaterOnly(n: Nodes, t: Tree, root: int, i: nat, x: int)
    requires Repr(n, t, root, BinAddr(i), i) && Disjoint(t) && x in Sizes(t) && x in n && n[x].parent == 0
    requires forall y :: y in n ==> y > 0
    ensures SubAt(t, x).ring[0] != x
    ensures x != root
  {
    ReprInMap(n, t, root, BinAddr(i), i);
    SubRepr(n, t, root, BinAddr(i), i, x);
  }

  /** A chunk with a parent heads its ring; the root's parent is the bin. */
  lemma HeadOnly(n: Nodes, t: Tree, root: int, i: nat, x: int)
    requires Repr(n, t, root, BinAddr(i), i) && Disjoint(t) && x in Sizes(t) && x in n && n[x].parent != 0
    requires forall y :: y in n ==> y > 0
    ensures var s := SubAt(t, x);
            && s.ring[0] == x && s.Node? && Repr(n, s, x, n[x].parent, i) && Disjoint(s)
            && n[x].parent !in Sizes(s) && n[x].index == i && n[x].fd in n && n[x].bk in n
            && (x == root <==> n[x].parent !in n)
  {
    ReprInMap(n, t, root, BinAddr(i), i);
    SubRepr(n, t, root, BinAddr(i), i, x);
    var s := SubAt(t, x);
    HeadLinks(n, s.ring, s.size, i);
  }

  /** Cutting x loose keeps its parent and index. */
  lemma HeadKeeps(n: Nodes, s: Tree, x: int, i: nat)
    requires s.Node? && x in n && Repr(n, s, x, n[x].parent, i) && Disjoint(s)
    ensures var n1 := Replacement(n, s, x).0;
            x in n1 && n1[x].parent == n[x].parent && n1[x].index == n[x].index
  {
    HeadLinks(n, s.ring, s.size, i);
    assert x in s.ring;
    if |s.ring| > 1 {
      RingUnlinkHead(n, s.ring, s.size, i);
    } else if s.right.Node? {
      CutLeafRepr(n, s.right, n[x].child1, x, i, true);
    } else if s.left.Node? {
      CutLeafRepr(n, s.left, n[x].child0, x, i, false);
    }
  }

  /** What the code relies on between its writes. */
  lemma HeadPlan(n: Nodes, s: Tree, x: int, i: nat)
    requires s.Node? && x in n && Repr(n, s, x, n[x].parent, i) && Disjoint(s) && n[x].parent !in Sizes(s)
    ensures var (n1, r) := Replacement(n, s, x);
            && x in n1 && n1[x].parent == n[x].parent && n1[x].index == n[x].index
            && (n[x].parent in n ==> n[x].parent in n1)
            && (r != 0 ==> CanAdopt(if n[x].parent in n then n1[n[x].parent := Rehang(n1[n[x].parent], x, r)] else n1,
                x, r))
  {
    HeadReady(n, s, x, i);
    HeadKeeps(n, s, x, i);
    var (n1, r) := Replacement(n, s, x);
    if r != 0 {
      AdoptWrites(if n[x].parent in n then n1[n[x].parent := Rehang(n1[n[x].parent], x, r)] else n1, x, r, n[x].parent,
          i, Remove(s, x));
    }
  }

  /** Consistent again after x of size s left its bin, whose trie is now t. */
  lemma RemoveConsistent(n: Nodes, roots: seq<int>, w: nat, ts: seq<Tree>, content: map<int, nat>,
                         n': Nodes, roots': seq<int>, w': nat, t: Tree, i: nat, x: int, s: nat)
    requires Consistent(n, roots, w, ts, content) && i == ComputeTreeIndex(s) && |roots'| == NTREEBINS
    requires x in content && content[x] == s
    requires roots' == roots[i := roots'[i]]
    requires Disjoint(t) && Drops(Sizes(ts[i]), Sizes(t), x) && IsTrie(t, TrieLo(i), TrieExp(i))
    requires Repr(n', t, roots'[i], BinAddr(i), i) && Local(n, n', ts[i], x)
    requires forall j: nat :: Marked(w', j) <==> if j == i then t.Node? else Marked(w, j)
    requires forall y :: y in n' ==> y > 0
    ensures Consistent(n', roots', w', ts[i := t], content - {x})
  {
    HoldsDropped(content, i, ts[i], t, x);
    OtherBins(n, content, roots, ts, n', content - {x}, roots', ts[i := t], i, x, s);
  }

  ghost predicate AnyTrie(t: Tree) {
    exists lo: nat, e: nat :: IsTrie(t, lo, e)
  }

  ghost predicate Within(s: Tree, t: Tree) {
    forall x :: x in Sizes(s) ==> x in Sizes(t)
  }

  /** Ghost side of the path search: current trie, deepest right trie not taken, their parents, the interval. */
  datatype Path = Path(cur: Tree, rt: Tree, par: int, rpar: int, lo: nat, e: nat)

  ghost predicate SearchPath(n: Nodes, m: map<int, nat>, tree: Tree, idx: nat, nb: nat, k: nat,
                             t: int, rst: int, v: int, rsize: nat, g: Path) {
    && g.cur.Node? && Repr(n, g.cur, t, g.par, idx) && t in n && n[t].size == g.cur.size && t > 0
    && PathState(n, m, tree, idx, nb, k, rst, v, rsize, g)
  }

  ghost predicate PathState(n: Nodes, m: map<int, nat>, tree: Tree, idx: nat, nb: nat, k: nat,
                            rst: int, v: int, rsize: nat, g: Path) {
    && Repr(n, g.rt, rst, g.rpar, idx)
    && OnPath(m, nb, k, g.cur, g.lo, g.e, g.rt)
    && Candidate(m, nb, v, rsize) && rsize > 0
    && PathPending(m, Sizes(tree).Keys, nb, v, g.cur, g.rt)
    && Within(g.cur, tree) && Within(g.rt, tree) && (v != 0 ==> v in Sizes(tree))
    && (forall y :: y in m ==> m[y] < SIZE_LIMIT)
  }

  ghost predicate AllFit(t: Tree, nb: nat) {
    forall y :: y in Sizes(t) ==> Sizes(t)[y] >= nb
  }

  /** What the path search hands to the leftmost descent. */
  ghost predicate PathDone(n: Nodes, m: map<int, nat>, tree: Tree, idx: nat, nb: nat, t: int, v: int, rsize: nat,
                           tt: Tree) {
    && Candidate(m, nb, v, rsize)
    && Pending(m, Sizes(tree).Keys, nb, v, tt)
    && PartOf(m, tt) && AnyTrie(tt) && (exists par :: Repr(n, tt, t, par, idx))
    && Within(tt, tree) && (v != 0 ==> v in Sizes(tree))
    && (rsize == 0 || nb >= SIZE_LIMIT || AllFit(tt, nb))
  }

  lemma PathBegin(n: Nodes, m: map<int, nat>, nb: nat, idx: nat, root: int, tree: Tree)
    requires idx < NTREEBINS && tree.Node? && Repr(n, tree, root, BinAddr(idx), idx)
    requires PartOf(m, tree) && IsTrie(tree, TrieLo(idx), TrieExp(idx))
    requires 0 < nb < WORD64 && forall y :: y in m ==> m[y] < SIZE_LIMIT
    requires nb < SIZE_LIMIT ==>
               TrieLo(idx) % Pow2(TrieExp(idx)) == 0 && TrieLo(idx) <= nb < TrieLo(idx) + Pow2(TrieExp(idx))
    requires LeftShiftForTreeIndex(idx) == 64 - TrieExp(idx)
    ensures SearchPath(n, m, tree, idx, nb, (nb * Pow2(LeftShiftForTreeIndex(idx))) % WORD64, root, 0, 0, WORD64 - nb,
                       Path(tree, Empty, BinAddr(idx), 0, TrieLo(idx), TrieExp(idx)))
  {
    NullOrNode(n, tree, root, BinAddr(idx), idx);
  }

  lemma PathAdvance(n: Nodes, m: map<int, nat>, tree: Tree, idx: nat, nb: nat, k: nat,
                    t: int, rst: int, v: int, rsize: nat, g: Path) returns (g': Path)
    requires SearchPath(n, m, tree, idx, nb, k, t, rst, v, rsize, g)
    ensures t in n && n[t].size < WORD64 && nb < WORD64
    ensures var trem := Sub64(n[t].size, nb);
            var v', rsize' := if trem < rsize then t else v, if trem < rsize then trem else rsize;
            if rsize' == 0 then PathDone(n, m, tree, idx, nb, t, v', rsize', g.cur)
            else
              var rt := n[t].child1;
              var t' := if TopBit(k) then rt else n[t].child0;
              var rst' := if rt != 0 && rt != t' then rt else rst;
              && g.cur.Node? && g'.cur == Child(g.cur, TopBit(k))
              && if t' == 0 then PathDone(n, m, tree, idx, nb, rst', v', rsize', g'.rt)
                 else SearchPath(n, m, tree, idx, nb, ShiftKey(k), t', rst', v', rsize', g')
  {
    g' := g;
    TryRoot(m, nb, v, rsize, g.cur, t);
    var trem := Sub64(n[t].size, nb);
    var v', rsize' := if trem < rsize then t else v, if trem < rsize then trem else rsize;
    assert t in g.cur.ring && t in Sizes(g.cur);
    if rsize' == 0 {
      assert IsTrie(g.cur, g.lo, g.e);
      assert PathDone(n, m, tree, idx, nb, t, v', rsize', g.cur);
    } else {
      g' := PathNext(n, m, tree, idx, nb, k, t, rst, v, rsize, g, v', rsize');
      NullOrNode(n, g'.cur, if TopBit(k) then n[t].child1 else n[t].child0, t, idx);
      if g'.cur.Empty? {
        PathStop(n, m, tree, idx, nb, ShiftKey(k), NextRstPtr(n, k, t, rst), v', rsize', g');
      }
    }
  }

  function NextRstPtr(n: Nodes, k: nat, t: int, rst: int): int
    requires t in n
  {
    var rt := n[t].child1;
    if rt != 0 && rt != (if TopBit(k) then rt else n[t].child0) then rt else rst
  }

  lemma PathNext(n: Nodes, m: map<int, nat>, tree: Tree, idx: nat, nb: nat, k: nat,
                 t: int, rst: int, v: int, rsize: nat, g: Path, v': int, rsize': nat) returns (g': Path)
    requires SearchPath(n, m, tree, idx, nb, k, t, rst, v, rsize, g)
    requires Candidate(m, nb, v', rsize') && rsize' > 0 && (v' == v || v' == t)
    requires g.cur.size >= nb ==> Covered(m, v', g.cur.size)
    requires forall s: nat :: Covered(m, v, s) ==> Covered(m, v', s)
    ensures g'.cur == Child(g.cur, TopBit(k)) && g'.par == t
    ensures PathState(n, m, tree, idx, nb, ShiftKey(k), NextRstPtr(n, k, t, rst), v', rsize', g')
    ensures Repr(n, g'.cur, if TopBit(k) then n[t].child1 else n[t].child0, t, idx)
  {
    ChildRepr(n, g.cur, t, g.par, idx, TopBit(k));
    var rpar := RstRepr(n, g.cur, t, g.par, idx, k, g.rt, rst, g.rpar);
    var cur', rt', lo', e' := PathPlan(m, Sizes(tree).Keys, nb, k, g, v, v');
    g' := Path(cur', rt', t, rpar, lo', e');
  }

  /** The trie side of one step. */
  lemma PathPlan(m: map<int, nat>, d: set<int>, nb: nat, k: nat, g: Path, v: int, v': int)
    returns (cur': Tree, rt': Tree, lo': nat, e': nat)
    requires OnPath(m, nb, k, g.cur, g.lo, g.e, g.rt) && g.cur.Node? && g.cur.size != nb
    requires PathPending(m, d, nb, v, g.cur, g.rt)
    requires forall y :: y in m ==> m[y] < SIZE_LIMIT
    requires g.cur.size >= nb ==> Covered(m, v', g.cur.size)
    requires forall s: nat :: Covered(m, v, s) ==> Covered(m, v', s)
    ensures cur' == Child(g.cur, TopBit(k)) && rt' == NextRst(g.cur, TopBit(k), g.rt)
    ensures OnPath(m, nb, ShiftKey(k), cur', lo', e', rt')
    ensures PathPending(m, d, nb, v', cur', rt')
  {
    cur', rt' := Child(g.cur, TopBit(k)), NextRst(g.cur, TopBit(k), g.rt);
    lo', e' := PathStep(m, nb, k, g.cur, g.lo, g.e, g.rt);
    PathPendingStep(m, d, nb, k, v, v', g.cur, g.lo, g.e, g.rt);
  }

  lemma ChildRepr(n: Nodes, t: Tree, p: int, par: int, i: nat, right: bool)
    requires t.Node? && Repr(n, t, p, par, i)
    ensures p in n && p in Sizes(t)
    ensures Repr(n, Child(t, right), if right then n[p].child1 else n[p].child0, p, i)
    ensures Within(Child(t, right), t)
  {
    assert p in t.ring;
  }

  lemma RstRepr(n: Nodes, t: Tree, p: int, par: int, i: nat, k: nat, rt: Tree, rst: int, rpar: int) returns (rpar': int)
    requires t.Node? && Repr(n, t, p, par, i) && Disjoint(t) && p in n && Repr(n, rt, rst, rpar, i)
    ensures Repr(n, NextRst(t, TopBit(k), rt), NextRstPtr(n, k, p, rst), rpar', i)
    ensures forall x :: x in Sizes(NextRst(t, TopBit(k), rt)) ==> x in Sizes(t) || x in Sizes(rt)
  {
    ChildRepr(n, t, p, par, i, true);
    ChildRepr(n, t, p, par, i, false);
    NullOrNode(n, t.right, n[p].child1, p, i);
    NullOrNode(n, t.left, n[p].child0, p, i);
    rpar' := if t.right.Node? && !TopBit(k) then p else rpar;
    LeftNotRight(n, t, p, par, i);
  }

  lemma LeftNotRight(n: Nodes, t: Tree, p: int, par: int, i: nat)
    requires t.Node? && Repr(n, t, p, par, i) && p in n && Disjoint(t)
    ensures n[p].child1 != 0 ==> n[p].child1 != n[p].child0
  {
    ChildRepr(n, t, p, par, i, true);
    ChildRepr(n, t, p, par, i, false);
    NullOrNode(n, t.right, n[p].child1, p, i);
    NullOrNode(n, t.left, n[p].child0, p, i);
  }

  lemma PathStop(n: Nodes, m: map<int, nat>, tree: Tree, idx: nat, nb: nat, k: nat,
                 rst: int, v: int, rsize: nat, g: Path)
    requires g.cur.Empty? && PathState(n, m, tree, idx, nb, k, rst, v, rsize, g)
    ensures PathDone(n, m, tree, idx, nb, rst, v, rsize, g.rt)
  {
    if nb < SIZE_LIMIT {
      RstFits(m, nb, k, g.cur, g.lo, g.e, g.rt);
    }
    if g.rt.Node? {
      var rlo: nat, re: nat :| IsTrie(g.rt, rlo, re) && g.lo + Pow2(g.e) <= rlo;
    } else {
      assert IsTrie(g.rt, 0, 0);
    }
  }

  // ---- The leftmost descent ----

  ghost predicate Descent(n: Nodes, m: map<int, nat>, idx: nat, nb: nat, t: int, v: int, rsize: nat, tt: Tree) {
    && Candidate(m, nb, v, rsize)
    && Pending(m, m.Keys, nb, v, tt)
    && PartOf(m, tt) && AnyTrie(tt) && (exists par :: Repr(n, tt, t, par, idx))
    && (forall y :: y in m ==> m[y] < SIZE_LIMIT)
    && (rsize == 0 || nb >= SIZE_LIMIT || AllFit(tt, nb))
  }

  lemma DescentStep(n: Nodes, m: map<int, nat>, idx: nat, nb: nat, t: int, v: int, rsize: nat, tt: Tree)
    requires Descent(n, m, idx, nb, t, v, rsize, tt) && t != 0
    ensures tt.Node? && t in n && n[t].size == tt.size < WORD64 && nb < WORD64
    ensures var trem := Sub64(n[t].size, nb);
            Descent(n, m, idx, nb, if n[t].child0 != 0 then n[t].child0 else n[t].child1,
                    if trem < rsize then t else v, if trem < rsize then trem else rsize, Leftmost(tt))
  {
    var par :| Repr(n, tt, t, par, idx);
    NullOrNode(n, tt, t, par, idx);
    var lo: nat, e: nat :| IsTrie(tt, lo, e);
    TryRoot(m, nb, v, rsize, tt, t);
    var trem := Sub64(n[t].size, nb);
    var v', rsize' := if trem < rsize then t else v, if trem < rsize then trem else rsize;
    if rsize != 0 && nb < SIZE_LIMIT {
      RootFits(tt, nb, t);
    }
    ZeroCovers(m, nb, v', rsize');
    LeastStep(m, m.Keys, nb, v, v', tt, lo, e);
    var lo', e' := LeftmostTrie(tt, lo, e);
    NullOrNode(n, tt.left, n[t].child0, t, idx);
    NullOrNode(n, tt.right, n[t].child1, t, idx);
    assert Repr(n, Leftmost(tt), if n[t].child0 != 0 then n[t].child0 else n[t].child1, t, idx);
    LeftmostWithin(tt);
  }

  lemma RootFits(t: Tree, nb: nat, p: int)
    requires t.Node? && p in Sizes(t) && t.ring != [] && t.ring[0] == p && Disjoint(t)
    requires AllFit(t, nb)
    ensures t.size >= nb
  {
    assert p in t.ring && Sizes(t)[p] == t.size;
  }

  lemma ZeroCovers(m: map<int, nat>, nb: nat, v: int, rsize: nat)
    requires Candidate(m, nb, v, rsize)
    ensures rsize == 0 ==> forall s: nat :: s >= nb ==> Covered(m, v, s)
  {
  }

  lemma LeftmostWithin(t: Tree)
    requires t.Node? && Disjoint(t)
    ensures forall y :: y in Sizes(Leftmost(t)) ==> y in Sizes(t) && Sizes(t)[y] == Sizes(Leftmost(t))[y]
  {
  }

  lemma DescentDone(n: Nodes, m: map<int, nat>, idx: nat, nb: nat, v: int, rsize: nat, tt: Tree)
    requires Descent(n, m, idx, nb, 0, v, rsize, tt)
    ensures BestFit(m, nb, v)
  {
    var par :| Repr(n, tt, 0, par, idx);
    NullOrNode(n, tt, 0, par, idx);
  }

  // ---- From one bin to all bins ----

  lemma BinHolds(n: Nodes, roots: seq<int>, w: nat, ts: seq<Tree>, content: map<int, nat>, i: nat)
    requires Consistent(n, roots, w, ts, content) && i < NTREEBINS
    ensures BinValid(n, content, i, roots[i], ts[i]) && (Marked(w, i) <==> ts[i].Node?)
    ensures PartOf(content, ts[i]) && IsTrie(ts[i], TrieLo(i), TrieExp(i))
  {
    assert BinValid(n, content, i, roots[i], ts[i]);
  }

  /** A chunk of a higher bin is larger than every chunk of a lower one. */
  lemma HigherBinLarger(s: nat, s': nat)
    requires MIN_LARGE_SIZE <= s < SIZE_LIMIT && MIN_LARGE_SIZE <= s' < SIZE_LIMIT
    requires ComputeTreeIndex(s) < ComputeTreeIndex(s')
    ensures s < s'
  {
    if s' <= s {
      TreeIndexMonotone(s', s);
    }
  }

  /** No chunk of the bin of nb fits. */
  ghost predicate NoneInBin(content: map<int, nat>, nb: nat) {
    forall y :: y in content && ComputeTreeIndex(content[y]) == ComputeTreeIndex(nb) ==> content[y] < nb
  }

  lemma FitIsHigher(content: map<int, nat>, nb: nat, y: int)
    requires NoneInBin(content, nb) && MIN_LARGE_SIZE <= nb && y in content && nb <= content[y] < SIZE_LIMIT
    ensures ComputeTreeIndex(nb) < ComputeTreeIndex(content[y])
  {
    TreeIndexMonotone(nb, content[y]);
  }

  lemma RootSize(n: Nodes, content: map<int, nat>, i: nat, root: int, t: Tree)
    requires i < NTREEBINS && BinValid(n, content, i, root, t) && t.Node?
    ensures root in content && content[root] == t.size && ComputeTreeIndex(t.size) == i
    ensures root in n && n[root].size == t.size && root > 0
  {
    NullOrNode(n, t, root, BinAddr(i), i);
    assert root in t.ring;
  }

  lemma NextBin(n: Nodes, roots: seq<int>, w: nat, ts: seq<Tree>, content: map<int, nat>, nb: nat, next: nat)
    requires Consistent(n, roots, w, ts, content) && MIN_LARGE_SIZE <= nb < WORD64 && NoneInBin(content, nb)
    requires Marked(w, next) && forall j: nat :: Marked(w, j) && j > ComputeTreeIndex(nb) ==> next <= j
    requires next > ComputeTreeIndex(nb)
    ensures next < NTREEBINS && Descent(n, content, next, nb, roots[next], 0, WORD64 - nb, ts[next])
  {
    BinHolds(n, roots, w, ts, content, next);
    var tt := ts[next];
    RootSize(n, content, next, roots[next], tt);
    forall y | y in content && content[y] >= nb
      ensures Among(tt, y, content[y])
    {
      FitIsHigher(content, nb, y);
      var j := ComputeTreeIndex(content[y]);
      BinHolds(n, roots, w, ts, content, j);
      if j > next {
        HigherBinLarger(tt.size, content[y]);
      }
    }
    if nb < SIZE_LIMIT {
      forall y | y in Sizes(tt)
        ensures Sizes(tt)[y] >= nb
      {
        HigherBinLarger(nb, content[y]);
      }
    }
  }

  lemma NoBin(n: Nodes, roots: seq<int>, w: nat, ts: seq<Tree>, content: map<int, nat>, nb: nat)
    requires Consistent(n, roots, w, ts, content) && MIN_LARGE_SIZE <= nb < WORD64 && NoneInBin(content, nb)
    requires forall j: nat :: Marked(w, j) ==> j <= ComputeTreeIndex(nb)
    ensures Descent(n, content, 0, nb, 0, 0, WORD64 - nb, Empty)
  {
    forall y | y in content
      ensures content[y] < nb
    {
      if content[y] >= nb {
        FitIsHigher(content, nb, y);
        BinHolds(n, roots, w, ts, content, ComputeTreeIndex(content[y]));
      }
    }
    assert IsTrie(Empty, 0, 0) && Repr(n, Empty, 0, 0, 0);
  }

  lemma FirstBin(n: Nodes, roots: seq<int>, w: nat, ts: seq<Tree>, content: map<int, nat>, nb: nat, i: nat)
    requires Consistent(n, roots, w, ts, content) && 0 < nb < MIN_LARGE_SIZE
    requires Marked(w, i) && forall j: nat :: Marked(w, j) ==> i <= j
    ensures i < NTREEBINS && roots[i] != 0 && Descent(n, content, i, nb, roots[i], 0, WORD64 - nb, ts[i])
    ensures ts[i].Node? && PartOf(content, ts[i])
    ensures roots[i] in n && roots[i] in content && n[roots[i]].size == content[roots[i]]
  {
    BinHolds(n, roots, w, ts, content, i);
    var tt := ts[i];
    RootSize(n, content, i, roots[i], tt);
    forall y | y in content
      ensures Among(tt, y, content[y])
    {
      var j := ComputeTreeIndex(content[y]);
      BinHolds(n, roots, w, ts, content, j);
      if j > i {
        HigherBinLarger(tt.size, content[y]);
      }
    }
  }

  /** The path search found something that fits in the bin of nb. */
  lemma BestOfBin(n: Nodes, roots: seq<int>, w: nat, ts: seq<Tree>, content: map<int, nat>, nb: nat,
                  t: int, v: int, rsize: nat, tt: Tree)
    requires Consistent(n, roots, w, ts, content) && MIN_LARGE_SIZE <= nb < WORD64
    requires PathDone(n, content, ts[ComputeTreeIndex(nb)], ComputeTreeIndex(nb), nb, t, v, rsize, tt)
    ensures if t == 0 && v == 0 then NoneInBin(content, nb)
              else Descent(n, content, ComputeTreeIndex(nb), nb, t, v, rsize, tt)
  {
    var i := ComputeTreeIndex(nb);
    BinHolds(n, roots, w, ts, content, i);
    var par :| Repr(n, tt, t, par, i);
    NullOrNode(n, tt, t, par, i);
    forall y | y in content && content[y] >= nb
      ensures Covered(content, v, content[y]) || Among(tt, y, content[y])
              || (t == 0 && v == 0 && ComputeTreeIndex(content[y]) != i)
    {
      TreeIndexMonotone(nb, content[y]);
      if ComputeTreeIndex(content[y]) > i {
        if v != 0 {
          HigherBinLarger(content[v], content[y]);
        } else if t != 0 {
          TrieRoot(content, tt, t);
          HigherBinLarger(tt.size, content[y]);
        }
      }
    }
  }

  lemma TrieRoot(content: map<int, nat>, t: Tree, p: int)
    requires t.Node? && PartOf(content, t) && p in Sizes(t) && t.ring != [] && t.ring[0] == p
    ensures content[p] == t.size
  {
    assert p in t.ring;
  }

  class TreeBins {
    var node: Nodes
    var treebins: seq<int>
    var treemap: nat
    /** The trie of every bin. */
    ghost var trees: seq<Tree>
    /** Every binned chunk with its size. */
    ghost var content: map<int, nat>

    ghost predicate Valid()
      reads this
    {
      Consistent(node, treebins, treemap, trees, content)
    }

    constructor ()
      ensures Valid() && content == map[]
    {
      node, treemap, treebins := map[], 0, seq(NTREEBINS, i => 0);
      trees := seq(NTREEBINS, i => Empty);
      content := map[];
      new;
      forall i: nat ensures !Marked(0, i) { ZeroUnmarked(i); }
    }

    /** insert_large_chunk */
    method Insert(x: int, s: nat)
      requires Valid() && x > 0 && x !in content && MIN_LARGE_SIZE <= s < SIZE_LIMIT
      modifies this
      ensures Valid() && content == old(content)[x := s]
    {
      var i := ComputeTreeIndex(s);
      BinOf(node, treebins, treemap, trees, content, s);
      ghost var t := Link(i, x, s, trees[i]);
      InsertConsistent(old(node), old(treebins), old(treemap), trees, content, node, treebins, treemap, t, i, x, s);
      content := content[x := s];
      trees := trees[i := t];
    }

    /** Links x into bin i. */
    method Link(i: nat, x: int, s: nat, ghost tree: Tree) returns (ghost t: Tree)
      requires i < NTREEBINS && |treebins| == NTREEBINS && (Marked(treemap, i) <==> tree.Node?)
      requires Repr(node, tree, treebins[i], BinAddr(i), i) && Disjoint(tree)
      requires IsTrie(tree, TrieLo(i), TrieExp(i)) && TrieLo(i) % Pow2(TrieExp(i)) == 0
      requires TrieLo(i) <= s < TrieLo(i) + Pow2(TrieExp(i)) && LeftShiftForTreeIndex(i) == 64 - TrieExp(i)
      requires x > 0 && x !in Sizes(tree) && forall y :: y in node ==> y > 0
      modifies this`treemap, this`treebins, this`node
      ensures |treebins| == NTREEBINS && treebins == old(treebins)[i := treebins[i]]
      ensures forall j: nat :: Marked(treemap, j) <==> old(Marked(treemap, j)) || j == i
      ensures t.Node? && Disjoint(t) && Adds(Sizes(tree), Sizes(t), x, s)
      ensures IsTrie(t, TrieLo(i), TrieExp(i))
      ensures Repr(node, t, treebins[i], BinAddr(i), i)
      ensures Local(old(node), node, tree, x)
      ensures forall y :: y in node ==> y > 0
    {
      var root := treebins[i];
      FreshRecord(node, tree, root, i, x, s);
      StoreRecord(i, x, s);
      if !Marked(treemap, i) {
        t := InsertFirst(i, x, s, tree);
      } else {
        t := InsertIntoTrie(i, root, x, s, tree);
      }
    }

    method StoreRecord(i: nat, x: int, s: nat)
      modifies this`node
      ensures node == old(node)[x := TChunk(s, 0, 0, 0, 0, 0, i)]
    {
      node := node[x := TChunk(s, 0, 0, 0, 0, 0, i)];
    }

    /** The first chunk of a bin. */
    method InsertFirst(i: nat, x: int, s: nat, ghost tree: Tree) returns (ghost t: Tree)
      requires i < NTREEBINS && |treebins| == NTREEBINS && tree.Empty?
      requires TrieLo(i) <= s < TrieLo(i) + Pow2(TrieExp(i))
      requires x > 0 && x in node && node[x] == TChunk(s, 0, 0, 0, 0, 0, i)
      modifies this`treemap, this`treebins, this`node
      ensures treemap == Mark(old(treemap), i) && treebins == old(treebins)[i := x]
      ensures t.Node? && Disjoint(t) && Adds(Sizes(tree), Sizes(t), x, s)
      ensures IsTrie(t, TrieLo(i), TrieExp(i))
      ensures Repr(node, t, x, BinAddr(i), i)
      ensures forall y :: y in old(node) && y != x ==> Same(old(node), node, y)
      ensures node.Keys == old(node).Keys
    {
      treemap := Mark(treemap, i);
      treebins := treebins[i := x];
      LoneRecord(node, x, s, i);
      node := node[x := node[x].(parent := BinAddr(i), fd := x, bk := x)];
      t := Node(s, [x], Empty, Empty);
      LoneTrie(x, s, TrieLo(i), TrieExp(i));
    }

    /** The walk of insert_large_chunk in a non-empty bin. */
    method InsertIntoTrie(i: nat, root: int, x: int, s: nat, ghost tree: Tree) returns (ghost t: Tree)
      requires i < NTREEBINS && tree.Node? && Repr(node, tree, root, BinAddr(i), i) && Disjoint(tree)
      requires IsTrie(tree, TrieLo(i), TrieExp(i)) && TrieLo(i) % Pow2(TrieExp(i)) == 0
      requires TrieLo(i) <= s < TrieLo(i) + Pow2(TrieExp(i)) && LeftShiftForTreeIndex(i) == 64 - TrieExp(i)
      requires x in node && x !in Sizes(tree)
      requires x > 0 && node[x] == TChunk(s, 0, 0, 0, 0, 0, i)
      requires forall y :: y in node ==> y > 0
      modifies this`node
      ensures t.Node? && Disjoint(t) && Adds(Sizes(tree), Sizes(t), x, s)
      ensures IsTrie(t, TrieLo(i), TrieExp(i))
      ensures Repr(node, t, root, BinAddr(i), i)
      ensures Local(old(node), node, tree, x)
      ensures forall y :: y in node ==> y > 0
    {
      t := Inserted(node, tree, root, BinAddr(i), i, TrieLo(i), TrieExp(i), x, s);
      InsertAtEnd(i, root, x, s, tree);
    }

    method InsertAtEnd(i: nat, root: int, x: int, s: nat, ghost tree: Tree)
      requires i < NTREEBINS && tree.Node? && Repr(node, tree, root, BinAddr(i), i) && Disjoint(tree)
      requires IsTrie(tree, TrieLo(i), TrieExp(i)) && TrieLo(i) % Pow2(TrieExp(i)) == 0
      requires TrieLo(i) <= s < TrieLo(i) + Pow2(TrieExp(i)) && LeftShiftForTreeIndex(i) == 64 - TrieExp(i)
      requires x in node && x !in Sizes(tree)
      requires forall y :: y in node ==> y > 0
      modifies this`node
      ensures node == InsertWalk(old(node), tree, root, TrieLo(i), TrieExp(i), x, s)
      ensures forall y :: y in node ==> y > 0
    {
      ghost var t, par: int, lo: nat, e: nat := tree, BinAddr(i), TrieLo(i), TrieExp(i);
      var p := root;
      var k := (s * Pow2(LeftShiftForTreeIndex(i))) % WORD64;
      while true
        invariant node == old(node)
        invariant OnWalk(node, t, p, par, i, lo, e, x, s)
        invariant k == Key(s, e)
        invariant InsertWalk(node, t, p, lo, e, x, s) == InsertWalk(node, tree, root, TrieLo(i), TrieExp(i), x, s)
        decreases t
      {
        WalkStep(node, t, p, par, i, lo, e, x, s);
        if node[p].size != s {
          var right := TopBit(k);
          var c := if right then node[p].child1 else node[p].child0;
          k := ShiftKey(k);
          if c != 0 {
            t, par, lo, e := if right then t.right else t.left, p, if right then lo + Pow2(e - 1) else lo, e - 1;
            p := c;
          } else {
            node := HangBelow(node, p, right, x);
            break;
          }
        } else {
          node := RingInsert(node, p, x);
          break;
        }
      }
    }

    /** unlink_large_chunk */
    method Unlink(x: int)
      requires Valid() && x in content
      modifies this
      ensures Valid() && content == old(content) - {x}
    {
      ghost var s := content[x];
      ghost var i := ComputeTreeIndex(s);
      BinOf(node, treebins, treemap, trees, content, s);
      ghost var t := Splice(i, x, trees[i]);
      RemoveConsistent(old(node), old(treebins), old(treemap), trees, content, node, treebins, treemap, t, i, x, s);
      content := content - {x};
      trees := trees[i := t];
    }

    /** Takes x out of the trie of bin i. */
    method Splice(ghost i: nat, x: int, ghost tree: Tree) returns (ghost t: Tree)
      requires i < NTREEBINS && |treebins| == NTREEBINS && x in Sizes(tree)
      requires Repr(node, tree, treebins[i], BinAddr(i), i) && Disjoint(tree)
      requires IsTrie(tree, TrieLo(i), TrieExp(i)) && Marked(treemap, i)
      requires forall y :: y in node ==> y > 0
      modifies this`treemap, this`treebins, this`node
      ensures |treebins| == NTREEBINS && treebins == old(treebins)[i := treebins[i]]
      ensures forall j: nat :: Marked(treemap, j) <==> if j == i then t.Node? else old(Marked(treemap, j))
      ensures Disjoint(t) && Drops(Sizes(tree), Sizes(t), x)
      ensures IsTrie(t, TrieLo(i), TrieExp(i))
      ensures Repr(node, t, treebins[i], BinAddr(i), i)
      ensures Local(old(node), node, tree, x)
      ensures forall y :: y in node ==> y > 0
    {
      ghost var root := treebins[i];
      ghost var r := SpliceRecords(i, x, tree);
      t := Removed(old(node), node, tree, root, i, x, r, TrieLo(i), TrieExp(i));
    }

    method SpliceRecords(ghost i: nat, x: int, ghost tree: Tree) returns (ghost r: int)
      requires i < NTREEBINS && |treebins| == NTREEBINS && x in Sizes(tree)
      requires Repr(node, tree, treebins[i], BinAddr(i), i) && Disjoint(tree)
      requires forall y :: y in node ==> y > 0
      modifies this`treemap, this`treebins, this`node
      ensures RemovedAt(old(node), node, tree, x, r, i)
      ensures treebins == if x == old(treebins)[i] then old(treebins)[i := r] else old(treebins)
      ensures treemap == if x == old(treebins)[i] && r == 0 then Clear(old(treemap), i) else old(treemap)
      ensures forall y :: y in node ==> y > 0
    {
      ghost var root := treebins[i];
      ReprInMap(node, tree, root, BinAddr(i), i);
      if node[x].parent == 0 {
        LaterOnly(node, tree, root, i, x);
        LaterRemoved(node, tree, root, BinAddr(i), i, x);
        var _ := CutLoose(x, tree);
        r := 0;
      } else {
        HeadOnly(node, tree, root, i, x);
        ghost var n1, n2;
        r, n1, n2 := SpliceHead(i, x, SubAt(tree, x));
        HeadRemoved(old(node), tree, root, BinAddr(i), i, x, r, n1, n2, node);
      }
    }

    /** x heads its ring: its replacement takes over its parent and children. */
    method SpliceHead(ghost i: nat, x: int, ghost s: Tree) returns (ghost r: int, ghost n1: Nodes, ghost n2: Nodes)
      requires i < NTREEBINS && |treebins| == NTREEBINS && x in node && node[x].index == i
      requires s.Node? && Repr(node, s, x, node[x].parent, i) && Disjoint(s) && node[x].parent !in Sizes(s)
      requires node[x].fd in node && node[x].bk in node
      requires x == treebins[i] <==> node[x].parent !in node
      modifies this`treemap, this`treebins, this`node
      ensures HeadWrites(old(node), s, x, r, n1, n2, node)
      ensures treebins == if x == old(treebins)[i] then old(treebins)[i := r] else old(treebins)
      ensures treemap == if x == old(treebins)[i] && r == 0 then Clear(old(treemap), i) else old(treemap)
      ensures forall y :: y in node <==> y in old(node)
    {
      HeadPlan(node, s, x, i);
      var xp := node[x].parent;
      var r0 := CutLoose(x, s);
      r, n1 := r0, node;
      var index := node[x].index;
      if x == treebins[index] {
        treebins := treebins[index := r0];
        if r0 == 0 {
          treemap := Clear(treemap, index);
        }
      } else {
        node := node[xp := Rehang(node[xp], x, r0)];
      }
      n2 := node;
      if r0 != 0 {
        node := Adopt(node, x, r0, xp);
      }
    }

    /** The first half of unlink_large_chunk: x off its ring, or a leaf in its place. */
    method CutLoose(x: int, ghost s: Tree) returns (r: int)
      requires x in node && node[x].fd in node && node[x].bk in node
      requires node[x].bk == x ==> exists i: nat :: s.Node? && Repr(node, s, x, node[x].parent, i) && Disjoint(s)
      modifies this`node
      ensures old(node[x].bk) != x ==> node == RingUnlink(old(node), x) && r == old(node[x].bk)
      ensures old(node[x].bk) == x ==> (node, r) == Replacement(old(node), s, x)
      ensures forall y :: y in node <==> y in old(node)
    {
      if node[x].bk != x {
        var f := node[x].fd;
        r := node[x].bk;
        node := node[f := node[f].(bk := r)];
        node := node[r := node[r].(fd := f)];
      } else {
        ghost var i: nat :| s.Node? && Repr(node, s, x, node[x].parent, i) && Disjoint(s);
        NullOrNode(node, s.left, node[x].child0, x, i);
        NullOrNode(node, s.right, node[x].child1, x, i);
        if node[x].child1 != 0 {
          r := FindLeaf(x, true, node[x].child1, s.right, i);
        } else if node[x].child0 != 0 {
          r := FindLeaf(x, false, node[x].child0, s.left, i);
        } else {
          r := 0;
        }
      }
    }

    /** Follows right links where possible, else left ones, to a leaf and cuts it off. */
    method FindLeaf(x: int, right: bool, c: int, ghost t: Tree, ghost i: nat) returns (r: int)
      requires x in node && t.Node? && Repr(node, t, c, x, i) && Disjoint(t)
      modifies this`node
      ensures node == CutLeaf(old(node), t, c, x, right) && r == LeafAt(old(node), t, c)
      ensures forall y :: y in node <==> y in old(node)
    {
      var owner, side := x, right;
      r := c;
      ghost var s := t;
      NullOrNode(node, s, r, owner, i);
      while node[r].child1 != 0 || node[r].child0 != 0
        invariant node == old(node)
        invariant s.Node? && r in node && owner in node && Repr(node, s, r, owner, i)
        invariant CutLeaf(node, s, r, owner, side) == CutLeaf(node, t, c, x, right)
        invariant LeafAt(node, s, r) == LeafAt(node, t, c)
        decreases s
      {
        NullOrNode(node, s.left, node[r].child0, r, i);
        NullOrNode(node, s.right, node[r].child1, r, i);
        owner := r;
        if node[r].child1 != 0 {
          side := true;
          r := node[r].child1;
          s := s.right;
        } else {
          side := false;
          r := node[r].child0;
          s := s.left;
        }
      }
      NullOrNode(node, s.left, node[r].child0, r, i);
      NullOrNode(node, s.right, node[r].child1, r, i);
      node := ClearChild(node, owner, side);
    }

    // ---- Searches ----

    /** The path search of tmalloc_large in the bin of nb. */
    method PathSearch(idx: nat, root: int, nb: nat, ghost tree: Tree, ghost m: map<int, nat>)
      returns (t: int, v: int, rsize: nat, ghost tt: Tree)
      requires idx < NTREEBINS && tree.Node? && Repr(node, tree, root, BinAddr(idx), idx)
      requires PartOf(m, tree) && IsTrie(tree, TrieLo(idx), TrieExp(idx))
      requires 0 < nb < WORD64 && forall y :: y in m ==> m[y] < SIZE_LIMIT
      requires nb < SIZE_LIMIT ==>
                 TrieLo(idx) % Pow2(TrieExp(idx)) == 0 && TrieLo(idx) <= nb < TrieLo(idx) + Pow2(TrieExp(idx))
      requires LeftShiftForTreeIndex(idx) == 64 - TrieExp(idx)
      ensures PathDone(node, m, tree, idx, nb, t, v, rsize, tt)
    {
      t, v, rsize := root, 0, WORD64 - nb;
      var sizebits: nat := (nb * Pow2(LeftShiftForTreeIndex(idx))) % WORD64;
      var rst := 0;
      ghost var g := Path(tree, Empty, BinAddr(idx), 0, TrieLo(idx), TrieExp(idx));
      PathBegin(node, m, nb, idx, root, tree);
      while true
        invariant SearchPath(node, m, tree, idx, nb, sizebits, t, rst, v, rsize, g)
        decreases g.cur
      {
        ghost var g' := PathAdvance(node, m, tree, idx, nb, sizebits, t, rst, v, rsize, g);
        var trem := Sub64(node[t].size, nb);
        if trem < rsize {
          v := t;
          rsize := trem;
          if rsize == 0 {
            tt := g.cur;
            return;
          }
        }
        var rt := node[t].child1;
        t := if TopBit(sizebits) then node[t].child1 else node[t].child0;
        if rt != 0 && rt != t {
          rst := rt;
        }
        g := g';
        if t == 0 {
          t := rst;
          tt := g.rt;
          return;
        }
        sizebits := ShiftKey(sizebits);
      }
    }

    /** The leftmost descent shared by tmalloc_large and tmalloc_small. */
    method Descend(t0: int, v0: int, rsize0: nat, nb: nat, ghost t1: Tree, ghost idx: nat, ghost m: map<int, nat>)
      returns (v: int, rsize: nat)
      requires Descent(node, m, idx, nb, t0, v0, rsize0, t1)
      ensures Candidate(m, nb, v, rsize) && BestFit(m, nb, v)
    {
      var t := t0;
      v, rsize := v0, rsize0;
      ghost var tt := t1;
      while t != 0
        invariant Descent(node, m, idx, nb, t, v, rsize, tt)
        decreases tt
      {
        DescentStep(node, m, idx, nb, t, v, rsize, tt);
        var trem := Sub64(node[t].size, nb);
        if trem < rsize {
          rsize := trem;
          v := t;
        }
        t := if node[t].child0 != 0 then node[t].child0 else node[t].child1;
        tt := Leftmost(tt);
      }
      DescentDone(node, m, idx, nb, v, rsize, tt);
    }

    /** The search of tmalloc_large: the best fit over all tree bins, or none. */
    method FindBestFit(nb: nat) returns (v: int, rsize: nat)
      requires Valid() && MIN_LARGE_SIZE <= nb < WORD64
      ensures Candidate(content, nb, v, rsize) && BestFit(content, nb, v)
    {
      var idx := ComputeTreeIndex(nb);
      v, rsize := 0, WORD64 - nb;
      var t := treebins[idx];
      ghost var tt, at := Empty, idx;
      BinHolds(node, treebins, treemap, trees, content, idx);
      NullOrNode(node, trees[idx], t, BinAddr(idx), idx);
      if t != 0 {
        if nb < SIZE_LIMIT {
          TreeIndexInTrie(nb);
        }
        TrieCoversBin(idx);
        ShiftIsKey(idx);
        t, v, rsize, tt := PathSearch(idx, t, nb, trees[idx], content);
        BestOfBin(node, treebins, treemap, trees, content, nb, t, v, rsize, tt);
      }
      if t == 0 && v == 0 {
        assert NoneInBin(content, nb);
        var leftbits := LeftOf(treemap, idx);
        if leftbits != 0 {
          var next := Ffs(leftbits);
          NextBin(node, treebins, treemap, trees, content, nb, next);
          t := treebins[next];
          tt, at := trees[next], next;
        } else {
          forall j: nat ensures !Marked(leftbits, j) { ZeroUnmarked(j); }
          NoBin(node, treebins, treemap, trees, content, nb);
          tt, at := Empty, 0;
        }
      }
      v, rsize := Descend(t, v, rsize, nb, tt, at, content);
    }

    /** The search of tmalloc_small: a smallest chunk of the lowest marked bin. */
    method FindSmallest(nb: nat) returns (v: int, rsize: nat)
      requires Valid() && treemap != 0 && 0 < nb < MIN_LARGE_SIZE
      ensures v in content && rsize == content[v] - nb
      ensures forall y :: y in content ==> content[v] <= content[y]
    {
      var i := Ffs(treemap);
      var t := treebins[i];
      FirstBin(node, treebins, treemap, trees, content, nb, i);
      BinHolds(node, treebins, treemap, trees, content, i);
      v := t;
      rsize := node[t].size - nb;
      ghost var tt := trees[i];
      DescentStep(node, content, i, nb, t, 0, WORD64 - nb, tt);
      v, rsize := Descend(if node[t].child0 != 0 then node[t].child0 else node[t].child1, v, rsize, nb, Leftmost(tt), i,
          content);
    }

    /** A zero bin map means that there are no chunks. */
    lemma NoneMarked()
      requires Valid() && treemap == 0
      ensures content == map[]
    {
      forall x ensures x !in content {
        if x in content {
          var i := ComputeTreeIndex(content[x]);
          BinOf(node, treebins, treemap, trees, content, content[x]);
          ZeroUnmarked(i);
        }
      }
      assert content.Keys == {};
    }
  }
}
