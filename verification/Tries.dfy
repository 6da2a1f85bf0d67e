/**
 * The tries of lj_alloc.c as values: a node holds the ring of all chunks of
 * one size; its subtrees split the size interval of the node in half. A node's
 * own size may lie anywhere in its interval.
 */
module Tries {
  import opened Words

  datatype Tree = Empty | Node(size: nat, ring: seq<int>, left: Tree, right: Tree)

  /** Sizes of t lie in [lo, lo + 2^e), halved at every level by one size bit. */
  ghost predicate IsTrie(t: Tree, lo: nat, e: nat) {
    t.Node? ==>
      && lo <= t.size < lo + Pow2(e)
      && t.ring != []
      && if e == 0 then t.left.Empty? && t.right.Empty?
         else IsTrie(t.left, lo, e - 1) && IsTrie(t.right, lo + Pow2(e - 1), e - 1)
  }

  /** Every chunk of the trie with its size. */
  function Sizes(t: Tree): map<int, nat> {
    if t.Empty? then map[] else (map x | x in t.ring :: t.size) + Sizes(t.left) + Sizes(t.right)
  }

  ghost predicate NoDup(q: seq<int>) {
    forall a, b :: 0 <= a < b < |q| ==> q[a] != q[b]
  }

  ghost predicate Apart(l: Tree, r: Tree) {
    forall x :: x in Sizes(l) ==> x !in Sizes(r)
  }

  /** No chunk occurs twice. */
  ghost predicate Disjoint(t: Tree) {
    t.Node? ==>
      && NoDup(t.ring)
      && (forall x :: x in t.ring ==> x !in Sizes(t.left) && x !in Sizes(t.right))
      && Apart(t.left, t.right)
      && Disjoint(t.left) && Disjoint(t.right)
  }

  lemma {:induction false} SizesInInterval(t: Tree, lo: nat, e: nat)
    requires IsTrie(t, lo, e)
    ensures forall x :: x in Sizes(t) ==> lo <= Sizes(t)[x] < lo + Pow2(e)
  {
    if t.Node? && e > 0 {
      SizesInInterval(t.left, lo, e - 1);
      SizesInInterval(t.right, lo + Pow2(e - 1), e - 1);
    }
  }

  // ---- Insertion ----

  function Insert(t: Tree, lo: nat, e: nat, x: int, s: nat): Tree {
    match t
    case Empty => Node(s, [x], Empty, Empty)
    case Node(size, ring, left, right) =>
      if size == s then t.(ring := if ring == [] then [x] else [ring[0], x] + ring[1..])
      else if e == 0 then t
      else if s < lo + Pow2(e - 1) then t.(left := Insert(left, lo, e - 1, x, s))
      else t.(right := Insert(right, lo + Pow2(e - 1), e - 1, x, s))
  }

  lemma {:induction false} InsertTrie(t: Tree, lo: nat, e: nat, x: int, s: nat)
    requires IsTrie(t, lo, e) && lo <= s < lo + Pow2(e)
    ensures IsTrie(Insert(t, lo, e, x, s), lo, e)
  {
    if t.Node? && t.size != s && e > 0 {
      if s < lo + Pow2(e - 1) {
        InsertTrie(t.left, lo, e - 1, x, s);
      } else {
        InsertTrie(t.right, lo + Pow2(e - 1), e - 1, x, s);
      }
    }
  }

  lemma RingInsertOk(q: seq<int>, x: int)
    requires q != [] && NoDup(q) && x !in q
    ensures NoDup([q[0], x] + q[1..])
    ensures forall y :: y in [q[0], x] + q[1..] <==> y == x || y in q
  {
    assert q == [q[0]] + q[1..];
  }

  /** s1 is s0 with the binding of x to s added. */
  ghost predicate Adds(s0: map<int, nat>, s1: map<int, nat>, x: int, s: nat) {
    && (forall y :: y in s1 <==> y in s0 || y == x)
    && (forall y :: y in s1 ==> s1[y] == if y == x then s else s0[y])
  }

  lemma AddsLeft(t: Tree, l: Tree, x: int, s: nat)
    requires t.Node? && Disjoint(t) && x !in Sizes(t)
    requires Disjoint(l) && Adds(Sizes(t.left), Sizes(l), x, s)
    ensures Disjoint(t.(left := l)) && Adds(Sizes(t), Sizes(t.(left := l)), x, s)
  {
  }

  lemma AddsRight(t: Tree, r: Tree, x: int, s: nat)
    requires t.Node? && Disjoint(t) && x !in Sizes(t)
    requires Disjoint(r) && Adds(Sizes(t.right), Sizes(r), x, s)
    ensures Disjoint(t.(right := r)) && Adds(Sizes(t), Sizes(t.(right := r)), x, s)
  {
  }

  lemma {:induction false} InsertSizes(t: Tree, lo: nat, e: nat, x: int, s: nat)
    requires IsTrie(t, lo, e) && Disjoint(t) && x !in Sizes(t) && lo <= s < lo + Pow2(e)
    ensures Disjoint(Insert(t, lo, e, x, s))
    ensures Adds(Sizes(t), Sizes(Insert(t, lo, e, x, s)), x, s)
  {
    if t.Empty? {
      assert Insert(t, lo, e, x, s) == Node(s, [x], Empty, Empty);
    } else if t.size == s {
      RingInsertOk(t.ring, x);
    } else if s < lo + Pow2(e - 1) {
      InsertSizes(t.left, lo, e - 1, x, s);
      AddsLeft(t, Insert(t.left, lo, e - 1, x, s), x, s);
    } else {
      InsertSizes(t.right, lo + Pow2(e - 1), e - 1, x, s);
      AddsRight(t, Insert(t.right, lo + Pow2(e - 1), e - 1, x, s), x, s);
    }
  }

  // ---- Removal ----

  /** Size and ring of the leaf reached by going right where possible, else left. */
  function Leaf(t: Tree): (nat, seq<int>)
    requires t.Node?
  {
    if t.right.Node? then Leaf(t.right) else if t.left.Node? then Leaf(t.left) else (t.size, t.ring)
  }

  function DropLeaf(t: Tree): Tree
    requires t.Node?
  {
    if t.right.Node? then t.(right := DropLeaf(t.right))
    else if t.left.Node? then t.(left := DropLeaf(t.left))
    else Empty
  }

  /** What takes the place of a removed node: one of its descendant leaves. */
  function Join(l: Tree, r: Tree): Tree {
    if r.Node? then Node(Leaf(r).0, Leaf(r).1, l, DropLeaf(r))
    else if l.Node? then Node(Leaf(l).0, Leaf(l).1, DropLeaf(l), Empty)
    else Empty
  }

  function RemoveValue(q: seq<int>, x: int): seq<int> {
    if q == [] then [] else if q[0] == x then q[1..] else [q[0]] + RemoveValue(q[1..], x)
  }

  /** The ring without x; the last chunk of the ring takes over from the first. */
  function RingWithout(q: seq<int>, x: int): seq<int>
    requires x in q
  {
    var n := |q| - 1;
    if q[0] != x then RemoveValue(q, x)
    else if n == 0 then [] else [q[n]] + q[1..n]
  }

  function Remove(t: Tree, x: int): Tree {
    match t
    case Empty => Empty
    case Node(size, ring, left, right) =>
      if x in ring then
        if |ring| == 1 then Join(left, right) else t.(ring := RingWithout(ring, x))
      else if x in Sizes(left) then t.(left := Remove(left, x))
      else t.(right := Remove(right, x))
  }

  lemma {:induction false} LeafTrie(t: Tree, lo: nat, e: nat)
    requires t.Node? && IsTrie(t, lo, e)
    ensures Leaf(t).1 != [] && lo <= Leaf(t).0 < lo + Pow2(e)
    ensures IsTrie(DropLeaf(t), lo, e)
  {
    if t.right.Node? {
      LeafTrie(t.right, lo + Pow2(e - 1), e - 1);
    } else if t.left.Node? {
      LeafTrie(t.left, lo, e - 1);
    }
  }

  lemma {:induction false} LeafSizes(t: Tree)
    requires t.Node? && Disjoint(t)
    ensures NoDup(Leaf(t).1) && Disjoint(DropLeaf(t))
    ensures forall x :: x in Leaf(t).1 ==> x in Sizes(t) && Sizes(t)[x] == Leaf(t).0
    ensures forall x :: x in Sizes(DropLeaf(t)) <==> x in Sizes(t) && x !in Leaf(t).1
    ensures forall x :: x in Sizes(DropLeaf(t)) ==> Sizes(DropLeaf(t))[x] == Sizes(t)[x]
  {
    if t.right.Node? {
      LeafSizes(t.right);
    } else if t.left.Node? {
      LeafSizes(t.left);
    }
  }

  lemma RemoveValueOk(q: seq<int>, x: int)
    requires NoDup(q) && x in q
    ensures NoDup(RemoveValue(q, x))
    ensures forall y :: y in RemoveValue(q, x) <==> y in q && y != x
    ensures |RemoveValue(q, x)| == |q| - 1
  {
    if q[0] != x {
      RemoveValueOk(q[1..], x);
      assert q[0] !in q[1..];
    }
  }

  lemma RingWithoutOk(q: seq<int>, x: int)
    requires NoDup(q) && x in q
    ensures NoDup(RingWithout(q, x)) && |RingWithout(q, x)| == |q| - 1
    ensures forall y :: y in RingWithout(q, x) <==> y in q && y != x
  {
    if q[0] != x {
      RemoveValueOk(q, x);
    } else if |q| > 1 {
      var n := |q| - 1;
      assert q == [q[0]] + q[1..n] + [q[n]];
    }
  }

  lemma JoinTrie(l: Tree, r: Tree, lo: nat, e: nat)
    requires e > 0 && IsTrie(l, lo, e - 1) && IsTrie(r, lo + Pow2(e - 1), e - 1)
    ensures IsTrie(Join(l, r), lo, e)
  {
    if r.Node? {
      LeafTrie(r, lo + Pow2(e - 1), e - 1);
    } else if l.Node? {
      LeafTrie(l, lo, e - 1);
    }
  }

  lemma JoinSizes(l: Tree, r: Tree)
    requires Disjoint(l) && Disjoint(r) && Apart(l, r)
    ensures Disjoint(Join(l, r))
    ensures forall y :: y in Sizes(Join(l, r)) <==> y in Sizes(l) || y in Sizes(r)
    ensures forall y :: y in Sizes(Join(l, r)) ==> Sizes(Join(l, r))[y] == if y in Sizes(l) then Sizes(l)[y]
              else Sizes(r)[y]
  {
    if r.Node? {
      LeafSizes(r);
      assert Join(l, r) == Node(Leaf(r).0, Leaf(r).1, l, DropLeaf(r));
    } else if l.Node? {
      LeafSizes(l);
      assert Join(l, r) == Node(Leaf(l).0, Leaf(l).1, DropLeaf(l), Empty);
    }
  }

  lemma {:induction false} RemoveTrie(t: Tree, lo: nat, e: nat, x: int)
    requires IsTrie(t, lo, e)
    ensures IsTrie(Remove(t, x), lo, e)
  {
    if t.Empty? {
    } else if x in t.ring {
      if |t.ring| == 1 {
        if e > 0 {
          JoinTrie(t.left, t.right, lo, e);
        }
      } else if t.ring[0] != x {
        assert RingWithout(t.ring, x)[0] == t.ring[0];
      }
    } else if e > 0 {
      RemoveTrie(t.left, lo, e - 1, x);
      RemoveTrie(t.right, lo + Pow2(e - 1), e - 1, x);
    }
  }

  /** s1 is s0 without x. */
  ghost predicate Drops(s0: map<int, nat>, s1: map<int, nat>, x: int) {
    && (forall y :: y in s1 <==> y in s0 && y != x)
    && (forall y :: y in s1 ==> s1[y] == s0[y])
  }

  /** A chunk of the root's own ring. */
  lemma RemoveRoot(t: Tree, x: int)
    requires Disjoint(t) && t.Node? && x in t.ring
    ensures Disjoint(Remove(t, x)) && Drops(Sizes(t), Sizes(Remove(t, x)), x)
  {
    if |t.ring| == 1 {
      assert t.ring == [x];
      JoinSizes(t.left, t.right);
      assert Remove(t, x) == Join(t.left, t.right);
    } else {
      RingWithoutOk(t.ring, x);
      assert Remove(t, x) == t.(ring := RingWithout(t.ring, x));
    }
  }

  lemma {:induction false} RemoveSizes(t: Tree, x: int)
    requires Disjoint(t) && x in Sizes(t)
    ensures Disjoint(Remove(t, x))
    ensures Drops(Sizes(t), Sizes(Remove(t, x)), x)
  {
    var t' := Remove(t, x);
    if x in t.ring {
      RemoveRoot(t, x);
    } else if x in Sizes(t.left) {
      RemoveSizes(t.left, x);
      assert t' == t.(left := Remove(t.left, x));
    } else {
      RemoveSizes(t.right, x);
      assert t' == t.(right := Remove(t.right, x));
    }
  }
}
