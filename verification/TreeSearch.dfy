/**
 * What the searches of tmalloc_large and tmalloc_small still have to look at.
 * A search keeps the best chunk v seen so far and a current trie; every chunk
 * that fits is either no better than v, or in the current trie, or larger than
 * the root of the current trie.
 */
module TreeSearch {
  import opened Words
  import opened BinMap
  import opened TreeIndex
  import opened Tries
  import opened TrieLinks

  /** v is the best fit for nb among the chunks of m, or 0 if nothing fits. */
  ghost predicate BestFit(m: map<int, nat>, nb: nat, v: int) {
    if v == 0 then forall y :: y in m ==> m[y] < nb
    else v in m && m[v] >= nb && forall y :: y in m && m[y] >= nb ==> m[v] <= m[y]
  }

  /** v and its excess over nb, which is 2^64 - nb as long as there is no v. */
  ghost predicate Candidate(m: map<int, nat>, nb: nat, v: int, rsize: nat) {
    && 0 < nb < WORD64
    && if v == 0 then rsize == WORD64 - nb else v in m && m[v] >= nb && rsize == m[v] - nb
  }

  ghost predicate Covered(m: map<int, nat>, v: int, s: nat) {
    v != 0 && v in m && m[v] <= s
  }

  ghost predicate Among(t: Tree, y: int, s: nat) {
    t.Node? && (y in Sizes(t) || t.size < s)
  }

  ghost predicate Pending(m: map<int, nat>, d: set<int>, nb: nat, v: int, t: Tree) {
    forall y :: y in d && y in m && m[y] >= nb ==> Covered(m, v, m[y]) || Among(t, y, m[y])
  }

  /** The chunks of t are binned with their sizes. */
  ghost predicate PartOf(m: map<int, nat>, t: Tree) {
    Disjoint(t) && forall y :: y in Sizes(t) ==> y in m && m[y] == Sizes(t)[y]
  }

  /** The effect of trying the root of t. */
  lemma TryRoot(m: map<int, nat>, nb: nat, v: int, rsize: nat, t: Tree, p: int)
    requires Candidate(m, nb, v, rsize) && t.Node? && t.ring != [] && t.ring[0] == p && p > 0 && PartOf(m, t)
    requires forall y :: y in m ==> m[y] < SIZE_LIMIT
    ensures t.size < WORD64
    ensures var trem := Sub64(t.size, nb);
            var v', rsize' := if trem < rsize then p else v, if trem < rsize then trem else rsize;
            && Candidate(m, nb, v', rsize')
            && (t.size >= nb ==> Covered(m, v', t.size))
            && (forall s: nat :: Covered(m, v, s) ==> Covered(m, v', s))
            && (rsize' == 0 ==> forall s: nat :: s >= nb ==> Covered(m, v', s))
  {
    assert p in t.ring && p in Sizes(t);
  }

  /** The leftmost child holds everything below t that could be smallest. */
  function Leftmost(t: Tree): Tree
    requires t.Node?
  {
    if t.left.Node? then t.left else t.right
  }

  lemma LeftmostFirst(t: Tree, lo: nat, e: nat)
    requires t.Node? && IsTrie(t, lo, e)
    ensures forall y :: y in Sizes(t) && y !in t.ring ==> Among(Leftmost(t), y, Sizes(t)[y])
  {
    if e > 0 {
      SizesInInterval(t.left, lo, e - 1);
      SizesInInterval(t.right, lo + Pow2(e - 1), e - 1);
    }
  }

  lemma LeftmostTrie(t: Tree, lo: nat, e: nat) returns (lo': nat, e': nat)
    requires t.Node? && IsTrie(t, lo, e)
    ensures IsTrie(Leftmost(t), lo', e')
  {
    if e == 0 {
      lo', e' := lo, e;
    } else {
      lo', e' := if t.left.Node? then lo else lo + Pow2(e - 1), e - 1;
    }
  }

  /** One step of the leftmost descent. */
  lemma LeastStep(m: map<int, nat>, d: set<int>, nb: nat, v: int, v': int, t: Tree, lo: nat, e: nat)
    requires t.Node? && IsTrie(t, lo, e) && PartOf(m, t) && Pending(m, d, nb, v, t)
    requires forall s: nat :: Covered(m, v, s) ==> Covered(m, v', s)
    requires Covered(m, v', t.size) || (forall s: nat :: s >= nb ==> Covered(m, v', s)) || forall y ::
               y in m ==> m[y] < nb
    ensures Pending(m, d, nb, v', Leftmost(t))
    ensures PartOf(m, Leftmost(t))
  {
    LeftmostFirst(t, lo, e);
    forall y | y in d && y in m && m[y] >= nb
      ensures Covered(m, v', m[y]) || Among(Leftmost(t), y, m[y])
    {
      if Among(t, y, m[y]) && y in Sizes(t) && y !in t.ring {
        assert Among(Leftmost(t), y, Sizes(t)[y]);
      }
    }
  }

  // ---- The path search in the bin of nb ----

  /** Interval of the current trie; rst lies above it. */
  ghost predicate OnPath(m: map<int, nat>, nb: nat, k: nat, t: Tree, lo: nat, e: nat, rst: Tree) {
    && IsTrie(t, lo, e) && e <= 64 && PartOf(m, t) && PartOf(m, rst)
    && (nb < SIZE_LIMIT ==> lo % Pow2(e) == 0 && lo <= nb < lo + Pow2(e) && k == Key(nb, e))
    && (rst.Node? ==> (rst.ring != [] && exists rlo: nat, re: nat :: IsTrie(rst, rlo, re) && lo + Pow2(e) <= rlo))
  }

  ghost predicate PathPending(m: map<int, nat>, d: set<int>, nb: nat, v: int, t: Tree, rst: Tree) {
    forall y :: y in d && y in m && m[y] >= nb ==> Covered(m, v, m[y]) || y in Sizes(t) || Among(rst, y, m[y])
  }

  function Child(t: Tree, right: bool): Tree
    requires t.Node?
  {
    if right then t.right else t.left
  }

  /** The deepest right subtree not taken so far. */
  function NextRst(t: Tree, right: bool, rst: Tree): Tree
    requires t.Node?
  {
    if t.right.Node? && !right then t.right else rst
  }

  lemma PathStep(m: map<int, nat>, nb: nat, k: nat, t: Tree, lo: nat, e: nat, rst: Tree) returns (lo': nat, e': nat)
    requires OnPath(m, nb, k, t, lo, e, rst) && t.Node? && t.size != nb
    ensures OnPath(m, nb, ShiftKey(k), Child(t, TopBit(k)), lo', e', NextRst(t, TopBit(k), rst))
    ensures nb < SIZE_LIMIT ==> e > 0 && (TopBit(k) <==> nb >= lo + Pow2(e - 1))
  {
    var right := TopBit(k);
    if e == 0 {
      lo', e' := lo, e;
      return;
    }
    lo', e' := if right then lo + Pow2(e - 1) else lo, e - 1;
    if nb < SIZE_LIMIT {
      Steer(nb, e, lo);
    }
    PathRst(m, nb, k, t, lo, e, rst);
  }

  lemma PathRst(m: map<int, nat>, nb: nat, k: nat, t: Tree, lo: nat, e: nat, rst: Tree)
    requires OnPath(m, nb, k, t, lo, e, rst) && t.Node? && e > 0
    ensures var rst' := NextRst(t, TopBit(k), rst);
            var lo' := if TopBit(k) then lo + Pow2(e - 1) else lo;
            rst'.Node? ==>
                rst'.ring != [] && exists rlo: nat, re: nat :: IsTrie(rst', rlo, re) && lo' + Pow2(e - 1) <= rlo
  {
    if t.right.Node? && !TopBit(k) {
      assert IsTrie(t.right, lo + Pow2(e - 1), e - 1);
    } else if rst.Node? {
      var rlo: nat, re: nat :| IsTrie(rst, rlo, re) && lo + Pow2(e) <= rlo;
    }
  }

  lemma PathPendingStep(m: map<int, nat>, d: set<int>, nb: nat, k: nat, v: int, v': int, t: Tree, lo: nat, e: nat,
                        rst: Tree)
    requires OnPath(m, nb, k, t, lo, e, rst) && t.Node? && t.size != nb
    requires PathPending(m, d, nb, v, t, rst)
    requires forall y :: y in m ==> m[y] < SIZE_LIMIT
    requires nb < SIZE_LIMIT ==> e > 0 && (TopBit(k) <==> nb >= lo + Pow2(e - 1))
    requires forall s: nat :: Covered(m, v, s) ==> Covered(m, v', s)
    requires t.size >= nb ==> Covered(m, v', t.size)
    ensures PathPending(m, d, nb, v', Child(t, TopBit(k)), NextRst(t, TopBit(k), rst))
  {
    forall y | y in d && y in m && m[y] >= nb
      ensures Covered(m, v', m[y]) || y in Sizes(Child(t, TopBit(k))) || Among(NextRst(t, TopBit(k), rst), y, m[y])
    {
      if y in t.ring {
        assert y in Sizes(t) && m[y] == Sizes(t)[y] == t.size;
      } else if y in Sizes(t.left) {
        PathLeft(m, nb, k, t, lo, e, rst, y);
      } else if y in Sizes(t.right) {
        PathRight(m, nb, k, t, lo, e, rst, y);
      } else if !Covered(m, v, m[y]) {
        assert y !in Sizes(t) && Among(rst, y, m[y]);
        PathBeyond(m, nb, k, t, lo, e, rst, y);
      }
    }
  }

  /** On the left of the root: the search goes there, or it is too small. */
  lemma PathLeft(m: map<int, nat>, nb: nat, k: nat, t: Tree, lo: nat, e: nat, rst: Tree, y: int)
    requires OnPath(m, nb, k, t, lo, e, rst) && t.Node? && e > 0
    requires nb < SIZE_LIMIT ==> (TopBit(k) <==> nb >= lo + Pow2(e - 1))
    requires y in Sizes(t.left) && y in m && nb <= m[y] < SIZE_LIMIT
    ensures y in Sizes(Child(t, TopBit(k)))
  {
    SizesInInterval(t.left, lo, e - 1);
    assert y in Sizes(t) && Sizes(t)[y] == Sizes(t.left)[y] == m[y];
  }

  /** On the right of the root: the search goes there, or that subtree is kept. */
  lemma PathRight(m: map<int, nat>, nb: nat, k: nat, t: Tree, lo: nat, e: nat, rst: Tree, y: int)
    requires OnPath(m, nb, k, t, lo, e, rst) && t.Node? && y in Sizes(t.right) && y in m
    ensures y in Sizes(Child(t, TopBit(k))) || Among(NextRst(t, TopBit(k), rst), y, m[y])
  {
    assert t.right.Node?;
  }

  /** In the subtree kept so far: it is still kept, or all of it is larger than the one kept now. */
  lemma PathBeyond(m: map<int, nat>, nb: nat, k: nat, t: Tree, lo: nat, e: nat, rst: Tree, y: int)
    requires OnPath(m, nb, k, t, lo, e, rst) && t.Node? && e > 0 && y in m && Among(rst, y, m[y])
    ensures Among(NextRst(t, TopBit(k), rst), y, m[y])
  {
    if t.right.Node? && !TopBit(k) { RstAbove(m, nb, k, t, lo, e, rst, y); }
  }

  lemma RstAbove(m: map<int, nat>, nb: nat, k: nat, t: Tree, lo: nat, e: nat, rst: Tree, y: int)
    requires OnPath(m, nb, k, t, lo, e, rst) && t.Node? && e > 0 && t.right.Node?
    requires y in m && Among(rst, y, m[y])
    ensures t.right.size < m[y]
  {
    var rlo: nat, re: nat :| IsTrie(rst, rlo, re) && lo + Pow2(e) <= rlo;
    SizesInInterval(rst, rlo, re);
    assert IsTrie(t.right, lo + Pow2(e - 1), e - 1) && Pow2(e) == 2 * Pow2(e - 1);
    assert y in Sizes(rst) ==> m[y] == Sizes(rst)[y];
  }

  /** The search turns to the deepest right subtree not taken: all of it fits. */
  lemma RstFits(m: map<int, nat>, nb: nat, k: nat, t: Tree, lo: nat, e: nat, rst: Tree)
    requires OnPath(m, nb, k, t, lo, e, rst) && nb < SIZE_LIMIT
    ensures forall y :: y in Sizes(rst) ==> Sizes(rst)[y] >= nb
  {
    if rst.Node? {
      var rlo: nat, re: nat :| IsTrie(rst, rlo, re) && lo + Pow2(e) <= rlo;
      SizesInInterval(rst, rlo, re);
    }
  }
}
