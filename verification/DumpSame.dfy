/**
 * What a prototype that was read from a dump (lj_bcread.c) has in common with
 * the one that was written, without regard to how either is computed.
 */
module DumpSame {
  import opened Words
  import opened DumpFormat

  /** Table t maps the key to that value, which is not nil. */
  predicate Maps(t: Table, key: Value, v: Value) {
    v != Nil &&
      ((key.Int? && 0 <= key.k < |t.arr| && t.arr[key.k] == v) || Node(key, v) in t.nodes)
  }

  predicate MapsBack(t: ReadTable, key: Value, v: Value) {
    v != Nil &&
      ((key.Int? && 0 <= key.k < |t.arr| && t.arr[key.k] == v) || (key in t.hash && t.hash[key] == v))
  }

  /** The same entries, in whichever part they are. */
  ghost predicate SameTable(t: Table, r: ReadTable) {
    forall key, v {:trigger Maps(t, key, v)} {:trigger MapsBack(r, key, v)} :: Maps(t, key, v) <==> MapsBack(r, key, v)
  }

  /** A constant, apart from what is inside of a child. */
  ghost predicate SameConst(c: Const, r: ReadConst) {
    match c
    case KStr(s) => r == RStr(s)
    case KTab(t) => r.RTab? && SameTable(t, r.t)
    case KChild(_) => r.RChild?
  }

  /** The flags that a dump keeps: whether there are children, varargs and FFI calls. */
  predicate SameFlags(a: int, b: int) {
    0 <= b < 8 && a % 2 == b % 2 && a / 2 % 2 == b / 2 % 2 && a / 4 % 2 == b / 4 % 2
  }

  /** A prototype, apart from what is inside of its children. */
  ghost predicate SamePlain(pt: Proto, r: ReadProto, strip: bool) {
    && SameFlags(pt.flags, r.flags) && r.numparams == pt.numparams && r.framesize == pt.framesize
    && r.bc == pt.bc && r.uv == pt.uv && r.kn == pt.kn
    && |r.kgc| == |pt.kgc| && (forall i :: 0 <= i < |pt.kgc| ==> SameConst(pt.kgc[i], r.kgc[i]))
    && if strip then r.debug == [] && r.firstline == 0 && r.numline == 0
       else r.debug == pt.debug && (pt.debug != [] ==> r.firstline == pt.firstline && r.numline == pt.numline)
  }

  /** A prototype with all its descendants. */
  ghost predicate SameTree(pt: Proto, r: ReadProto, strip: bool)
    decreases pt
  {
    && SamePlain(pt, r, strip)
    && forall i :: 0 <= i < |pt.kgc| && pt.kgc[i].KChild? ==> SameTree(pt.kgc[i].pt, r.kgc[i].pt, strip)
  }

  /** Every value that is not nil comes from the writer's nodes. */
  lemma NodesIn(nodes: seq<Node>, key: Value, v: Value)
    requires v != Nil
    requires forall i, j :: 0 <= i < j < |nodes| && nodes[i].val != Nil && nodes[j].val != Nil
               ==> nodes[i].key != nodes[j].key
    ensures Node(key, v) in nodes <==> key in ReadNodes(nodes) && ReadNodes(nodes)[key] == v
  {
    FindBack(nodes, key);
    FoundIn(nodes, key);
    if Node(key, v) in nodes {
      var i :| 0 <= i < |nodes| && nodes[i] == Node(key, v);
      assert nodes[i].key == key;
      FoundAt(nodes, i);
    }
  }

  lemma {:induction false} FoundIn(nodes: seq<Node>, key: Value)
    ensures Find(nodes, key) != Nil ==> Node(key, Find(nodes, key)) in nodes
  {
    if nodes != [] {
      var n := nodes[|nodes| - 1];
      assert n == Node(n.key, n.val);
      FoundIn(nodes[..|nodes| - 1], key);
    }
  }

  lemma {:induction false} FoundAt(nodes: seq<Node>, i: nat)
    requires i < |nodes| && nodes[i].val != Nil
    requires forall i, j :: 0 <= i < j < |nodes| && nodes[i].val != Nil && nodes[j].val != Nil
               ==> nodes[i].key != nodes[j].key
    ensures Find(nodes, nodes[i].key) == nodes[i].val
  {
    if i < |nodes| - 1 {
      FoundAt(nodes[..|nodes| - 1], i);
    }
  }

  lemma TableSame(t: Table)
    requires TableOk(t)
    ensures SameTable(t, TableBack(t))
  {
    var r, nodes := TableBack(t), HashNodes(t);
    assert nodes == t.nodes;
    forall key, v ensures Maps(t, key, v) <==> MapsBack(r, key, v) {
      if v != Nil {
        NodesIn(nodes, key, v);
      }
    }
  }

  lemma ConstSame(c: Const, strip: bool)
    requires ConstOk(c)
    ensures SameConst(c, ConstBack(c, strip))
  {
    if c.KTab? { TableSame(c.t); }
  }

  lemma FlagsSame(a: int)
    requires 0 <= a < 256
    ensures SameFlags(a, a % 8)
  {
  }

  lemma PlainSame(pt: Proto, strip: bool)
    requires PlainOk(pt)
    ensures SamePlain(pt, Back(pt, strip), strip)
  {
    FlagsSame(pt.flags);
    forall i | 0 <= i < |pt.kgc| ensures SameConst(pt.kgc[i], Back(pt, strip).kgc[i]) {
      ConstSame(pt.kgc[i], strip);
    }
  }

  /** What comes back is the same tree. */
  lemma {:induction false} TreeSame(pt: Proto, strip: bool)
    requires ProtoOk(pt, strip)
    ensures SameTree(pt, Back(pt, strip), strip)
    decreases pt
  {
    assert PartOk(pt, strip, 0);
    PlainSame(pt, strip);
    forall i | 0 <= i < |pt.kgc| && pt.kgc[i].KChild?
      ensures SameTree(pt.kgc[i].pt, Back(pt, strip).kgc[i].pt, strip)
    {
      assert PartOk(pt, strip, i + 1);
      TreeSame(pt.kgc[i].pt, strip);
    }
  }
}
