/**
 * Prototypes and their bytecode dumps (lj_bcdump.h): what the writer puts into a
 * dump, and what the reader makes of it. Bytes are integers below 256; 32-bit
 * and 16-bit words appear as the bytes in memory.
 */
module DumpFormat {
  import opened Words
  import opened Uleb128

  /** Larger allocations are refused. */
  const MAX_MEM: nat := 0x7fff_ff00
  const HEAD1: int := 0x1b
  const HEAD2: int := 0x4c
  const HEAD3: int := 0x4a
  const VERSION: int := 1
  const F_STRIP: int := 2
  const F_FFI: int := 4
  const PROTO_CHILD: int := 1
  const PROTO_FFI: int := 4

  const KGC_CHILD: nat := 0
  const KGC_TAB: nat := 1
  const KGC_STR: nat := 5
  const KTAB_NIL: nat := 0
  const KTAB_FALSE: nat := 1
  const KTAB_TRUE: nat := 2
  const KTAB_INT: nat := 3
  const KTAB_NUM: nat := 4
  const KTAB_STR: nat := 5

  /** A value in a template table; numbers are the two words of a double. */
  datatype Value = Nil | False | True | Int(k: int) | Num(lo: nat, hi: nat) | Str(s: seq<int>)
  datatype Node = Node(key: Value, val: Value)
  /** The array part, from index 0, and the slots of the hash part. */
  datatype Table = Table(arr: seq<Value>, nodes: seq<Node>)
  /** A table as the reader builds it. */
  datatype ReadTable = ReadTable(arr: seq<Value>, hash: map<Value, Value>)
  datatype Number = KInt(k: int) | KNum(lo: nat, hi: nat)
  datatype Const = KStr(s: seq<int>) | KTab(t: Table) | KChild(pt: Proto)
  datatype Proto = Proto(flags: int, numparams: int, framesize: int, bc: seq<int>, uv: seq<int>,
                         kgc: seq<Const>, kn: seq<Number>, firstline: nat, numline: nat, debug: seq<int>)
  /** What the reader returns. */
  datatype ReadConst = RStr(s: seq<int>) | RTab(t: ReadTable) | RChild(pt: ReadProto)
  datatype ReadProto = ReadProto(flags: int, numparams: int, framesize: int, bc: seq<int>, uv: seq<int>,
                                 kgc: seq<ReadConst>, kn: seq<Number>, firstline: nat, numline: nat, debug: seq<int>)

  // ---- What can be dumped ----

  predicate IsBytes(s: seq<int>) {
    |s| + 5 < U32 && forall i :: 0 <= i < |s| ==> 0 <= s[i] < 256
  }

  predicate IsInt(k: int) { -0x8000_0000 <= k < 0x8000_0000 }

  predicate ValueOk(v: Value) {
    match v
    case Int(k) => IsInt(k)
    case Num(lo, hi) => lo < U32 && hi < U32
    case Str(s) => IsBytes(s)
    case _ => true
  }

  predicate NumberOk(n: Number) {
    match n
    case KInt(k) => IsInt(k)
    case KNum(lo, hi) => lo < U32 && hi < U32
  }

  /** The double with these words equals a 32-bit integer. */
  predicate IsIntDouble(lo: nat, hi: nat) {
    var e, m := hi / 0x10_0000 % 0x800, hi % 0x10_0000 * U32 + lo;
    (e == 0 && m == 0) || (1023 <= e < 1054 && m % Pow2(1075 - e) == 0) || (e == 1054 && hi >= SIGN && m == 0)
  }

  /** Keys of a table are not nil, and lj_tab_set made those integers that can be. */
  predicate KeyOk(key: Value) {
    key != Nil && (key.Num? ==> !IsIntDouble(key.lo, key.hi))
  }

  /** Hash keys differ and are no indices of the array part. */
  predicate TableOk(t: Table) {
    && |t.arr| < U32 && |t.nodes| < U32 && |t.nodes| != 1
    && (forall i :: 0 <= i < |t.arr| ==> ValueOk(t.arr[i]))
    && (forall i :: 0 <= i < |t.nodes| ==> ValueOk(t.nodes[i].key) && ValueOk(t.nodes[i].val))
    && (forall i :: 0 <= i < |t.nodes| && t.nodes[i].val != Nil ==>
          KeyOk(t.nodes[i].key) && !(t.nodes[i].key.Int? && 0 <= t.nodes[i].key.k < |t.arr|))
    && (forall i, j :: 0 <= i < j < |t.nodes| && t.nodes[i].val != Nil && t.nodes[j].val != Nil ==> t.nodes[i].key != t.nodes[j].key)
  }

  // ---- The bytes of a dump ----

  /** An integer as a 32-bit word. */
  function ToU32(k: int): (u: nat)
    ensures u < U32
  {
    k % U32
  }

  function ToInt(u: nat): int {
    if u < SIGN then u else u - U32
  }

  function ValueBytes(v: Value): seq<int>
  {
    match v
    case Nil => [KTAB_NIL]
    case False => [KTAB_FALSE]
    case True => [KTAB_TRUE]
    case Int(k) => [KTAB_INT] + Uleb(ToU32(k))
    case Num(lo, hi) => [KTAB_NUM] + Uleb(lo) + Uleb(hi)
    case Str(s) => Uleb(KTAB_STR + |s|) + s
  }

  /** The array part ends with its last value that is not nil. */
  function ArrayLen(a: seq<Value>): (n: nat)
    ensures n <= |a| && (n > 0 ==> a[n - 1] != Nil) && forall i :: n <= i < |a| ==> a[i] == Nil
  {
    if a == [] then 0 else if a[|a| - 1] != Nil then |a| else ArrayLen(a[..|a| - 1])
  }

  function NodesUsed(nodes: seq<Node>): (n: nat)
    ensures n <= |nodes|
  {
    if nodes == [] then 0 else NodesUsed(nodes[..|nodes| - 1]) + if nodes[|nodes| - 1].val != Nil then 1 else 0
  }

  /** Nodes of a hash part with a single slot do not count. */
  function HashNodes(t: Table): seq<Node> {
    if |t.nodes| > 1 then t.nodes else []
  }

  function ArrayBytes(a: seq<Value>): seq<int>
  {
    if a == [] then [] else ArrayBytes(a[..|a| - 1]) + ValueBytes(a[|a| - 1])
  }

  /** The slots of the hash part are written from the last one to the first. */
  function NodeBytes(nodes: seq<Node>): seq<int>
  {
    if nodes == [] then []
    else
      var n := nodes[|nodes| - 1];
      (if n.val != Nil then ValueBytes(n.key) + ValueBytes(n.val) else []) + NodeBytes(nodes[..|nodes| - 1])
  }

  function TableBytes(t: Table): seq<int>
  {
    var n := ArrayLen(t.arr);
    Uleb(n) + Uleb(NodesUsed(HashNodes(t))) + ArrayBytes(t.arr[..n]) + NodeBytes(HashNodes(t))
  }

  function NumberBytes(n: Number): seq<int>
  {
    match n
    case KInt(k) => Uleb(2 * ToU32(k))
    case KNum(lo, hi) => Uleb(2 * lo + 1) + Uleb(hi)
  }

  function NumbersBytes(kn: seq<Number>): seq<int>
  {
    if kn == [] then [] else NumbersBytes(kn[..|kn| - 1]) + NumberBytes(kn[|kn| - 1])
  }

  predicate ConstOk(c: Const) {
    match c
    case KStr(s) => IsBytes(s)
    case KTab(t) => TableOk(t)
    case KChild(_) => true
  }

  function ConstBytes(c: Const): seq<int>
  {
    match c
    case KStr(s) => Uleb(KGC_STR + |s|) + s
    case KTab(t) => Uleb(KGC_TAB) + TableBytes(t)
    case KChild(_) => Uleb(KGC_CHILD)
  }

  function ConstsBytes(kgc: seq<Const>): seq<int>
  {
    if kgc == [] then [] else ConstsBytes(kgc[..|kgc| - 1]) + ConstBytes(kgc[|kgc| - 1])
  }

  /** The prototype itself, apart from its children. */
  predicate PlainOk(pt: Proto) {
    && 0 <= pt.flags < 256 && 0 <= pt.numparams < 256 && 0 <= pt.framesize < 256
    && IsBytes(pt.bc) && |pt.bc| % 4 == 0 && IsBytes(pt.uv) && |pt.uv| % 2 == 0 && |pt.uv| / 2 < 256
    && |pt.kgc| < U32 && |pt.kn| < U32 && IsBytes(pt.debug) && pt.firstline < U32 && pt.numline < U32
    && (forall i :: 0 <= i < |pt.kgc| ==> ConstOk(pt.kgc[i]))
    && (forall i :: 0 <= i < |pt.kn| ==> NumberOk(pt.kn[i]))
    && (pt.flags % 2 == 0 ==> forall i :: 0 <= i < |pt.kgc| ==> !pt.kgc[i].KChild?)
  }

  function DebugHead(pt: Proto, strip: bool): seq<int> {
    if strip then [] else if pt.debug == [] then Uleb(0) else Uleb(|pt.debug|) + Uleb(pt.firstline) + Uleb(pt.numline)
  }

  function HeadBytes(pt: Proto, strip: bool): seq<int> {
    [pt.flags % 8, pt.numparams, pt.framesize, |pt.uv| / 2]
    + Uleb(|pt.kgc|) + Uleb(|pt.kn|) + Uleb(|pt.bc| / 4) + DebugHead(pt, strip)
  }

  function Body(pt: Proto, strip: bool): seq<int>
  {
    HeadBytes(pt, strip) + pt.bc + pt.uv + ConstsBytes(pt.kgc) + NumbersBytes(pt.kn) + if strip then [] else pt.debug
  }

  /** A body behind its length. */
  function Framed(body: seq<int>): seq<int> {
    Uleb(|body|) + body
  }

  /** Part 0 is the prototype without its children, part i + 1 the constant i, which may be a child. */
  ghost predicate PartOk(pt: Proto, strip: bool, k: nat)
    decreases pt, 0
  {
    if k == 0 then PlainOk(pt) && |Body(pt, strip)| < MAX_MEM
    else k <= |pt.kgc| && pt.kgc[k - 1].KChild? ==> ProtoOk(pt.kgc[k - 1].pt, strip)
  }

  /** All prototypes of the tree can be written, with lengths that fit 32 bits. */
  ghost predicate ProtoOk(pt: Proto, strip: bool)
    decreases pt, 1
  {
    forall k: nat {:trigger PartOk(pt, strip, k)} :: PartOk(pt, strip, k)
  }

  /** The children among the first i constants, the last one first. */
  ghost function ChildrenBytes(pt: Proto, i: nat, strip: bool): seq<int>
    requires i <= |pt.kgc|
    decreases pt, i
  {
    if i == 0 then []
    else
      (if pt.kgc[i - 1].KChild? then ProtoBytes(pt.kgc[i - 1].pt, strip) else []) + ChildrenBytes(pt, i - 1, strip)
  }

  ghost function ProtoBytes(pt: Proto, strip: bool): seq<int>
    decreases pt, |pt.kgc| + 1
  {
    ChildrenBytes(pt, |pt.kgc|, strip) + Framed(Body(pt, strip))
  }

  function Header(pt: Proto, chunkname: seq<int>, strip: bool): seq<int> {
    [HEAD1, HEAD2, HEAD3, VERSION, (if strip then F_STRIP else 0) + (if pt.flags / 4 % 2 == 1 then F_FFI else 0)]
    + if strip then [] else Uleb(|chunkname|) + chunkname
  }

  ghost function Dump(pt: Proto, chunkname: seq<int>, strip: bool): seq<int>
  {
    Header(pt, chunkname, strip) + ProtoBytes(pt, strip) + [0]
  }

  /** A prototype with one instruction, one string and one number. */
  function Example(): Proto {
    Proto(2, 0, 2, [75, 0, 1, 0], [], [KStr([104, 105])], [KInt(3)], 0, 0, [])
  }

  lemma ExampleConsts()
    ensures ConstsBytes(Example().kgc) == [7, 104, 105] && NumbersBytes(Example().kn) == [6]
  {
    var pt := Example();
    assert pt.kgc[..0] == [] && pt.kn[..0] == [];
    assert Uleb(7) == [7] && Uleb(6) == [6];
    assert ConstsBytes(pt.kgc) == [] + ConstBytes(pt.kgc[0]) && NumbersBytes(pt.kn) == [] + NumberBytes(pt.kn[0]);
  }

  lemma ExampleBody()
    ensures Body(Example(), true) == [2, 0, 2, 0, 1, 1, 1, 75, 0, 1, 0, 7, 104, 105, 6]
  {
    ExampleConsts();
    assert Uleb(1) == [1];
    assert HeadBytes(Example(), true) == [2, 0, 2, 0, 1, 1, 1];
  }

  /** Its dump, without debug information, byte by byte. */
  lemma ExampleDump()
    ensures Dump(Example(), [], true)
         == [0x1b, 0x4c, 0x4a, 1, 2, 15, 2, 0, 2, 0, 1, 1, 1, 75, 0, 1, 0, 7, 104, 105, 6, 0]
  {
    var pt := Example();
    ExampleBody();
    assert Uleb(15) == [15];
    assert ChildrenBytes(pt, 1, true) == [];
    assert ProtoBytes(pt, true) == Framed(Body(pt, true));
  }

  // ---- One more element ----

  lemma ArrayMore(a: seq<Value>, i: nat)
    requires i < |a|
    ensures ArrayBytes(a[..i + 1]) == ArrayBytes(a[..i]) + ValueBytes(a[i])
  {
    assert a[..i + 1][..i] == a[..i];
  }

  lemma ConstsMore(kgc: seq<Const>, i: nat)
    requires i < |kgc|
    ensures ConstsBytes(kgc[..i + 1]) == ConstsBytes(kgc[..i]) + ConstBytes(kgc[i])
  {
    assert kgc[..i + 1][..i] == kgc[..i];
  }

  lemma NumbersMore(kn: seq<Number>, i: nat)
    requires i < |kn|
    ensures NumbersBytes(kn[..i + 1]) == NumbersBytes(kn[..i]) + NumberBytes(kn[i])
  {
    assert kn[..i + 1][..i] == kn[..i];
  }

  // ---- What comes back ----

  function ReadNodes(nodes: seq<Node>): map<Value, Value> {
    if nodes == [] then map[]
    else
      var n := nodes[|nodes| - 1];
      var rest := ReadNodes(nodes[..|nodes| - 1]);
      if n.val == Nil then rest else map[n.key := n.val] + rest
  }

  function TableBack(t: Table): ReadTable {
    ReadTable(t.arr[..ArrayLen(t.arr)], ReadNodes(HashNodes(t)))
  }

  /** Flags are masked; without debug info there are no line numbers. */
  function ConstBack(c: Const, strip: bool): ReadConst
    decreases c, 0
  {
    match c
    case KStr(s) => RStr(s)
    case KTab(t) => RTab(TableBack(t))
    case KChild(pt) => RChild(Back(pt, strip))
  }

  function Back(pt: Proto, strip: bool): ReadProto
    decreases pt, 1
  {
    var debug := !strip && pt.debug != [];
    ReadProto(pt.flags % 8, pt.numparams, pt.framesize, pt.bc, pt.uv,
              seq(|pt.kgc|, i requires 0 <= i < |pt.kgc| => ConstBack(pt.kgc[i], strip)), pt.kn,
              if debug then pt.firstline else 0, if debug then pt.numline else 0, if debug then pt.debug else [])
  }

  // ---- Template tables come back equal as maps ----

  /** Looking up a key in a table of the writer's. */
  function Get(t: Table, key: Value): Value {
    if key.Int? && 0 <= key.k < |t.arr| then t.arr[key.k] else Find(HashNodes(t), key)
  }

  function Find(nodes: seq<Node>, key: Value): Value {
    if nodes == [] then Nil
    else if nodes[|nodes| - 1].key == key && nodes[|nodes| - 1].val != Nil then nodes[|nodes| - 1].val
    else Find(nodes[..|nodes| - 1], key)
  }

  function GetBack(t: ReadTable, key: Value): Value {
    if key.Int? && 0 <= key.k < |t.arr| then t.arr[key.k]
    else if key in t.hash then t.hash[key] else Nil
  }

  lemma {:induction false} FindBack(nodes: seq<Node>, key: Value)
    requires forall i, j :: 0 <= i < j < |nodes| && nodes[i].val != Nil && nodes[j].val != Nil
               ==> nodes[i].key != nodes[j].key
    ensures key in ReadNodes(nodes) <==> exists i :: 0 <= i < |nodes| && nodes[i].key == key && nodes[i].val != Nil
    ensures Find(nodes, key) == if key in ReadNodes(nodes) then ReadNodes(nodes)[key] else Nil
  {
    if nodes != [] {
      var front := nodes[..|nodes| - 1];
      FindBack(front, key);
      assert forall i :: 0 <= i < |front| ==> front[i] == nodes[i];
      if key in ReadNodes(front) {
        var i :| 0 <= i < |front| && front[i].key == key && front[i].val != Nil;
        assert nodes[i].key == key;
      }
    }
  }

  lemma TableComesBack(t: Table, key: Value)
    requires TableOk(t)
    ensures GetBack(TableBack(t), key) == Get(t, key)
  {
    FindBack(HashNodes(t), key);
  }

  // ---- The order of prototypes in a dump, and the reader's stack ----

  /** The prototypes of a tree in the order in which they are written: children before parents. */
  function PostOrder(pt: Proto): seq<Proto>
    decreases pt, |pt.kgc| + 1
  {
    ChildrenOrder(pt, |pt.kgc|) + [pt]
  }

  function ChildrenOrder(pt: Proto, i: nat): seq<Proto>
    requires i <= |pt.kgc|
    decreases pt, i
  {
    if i == 0 then []
    else (if pt.kgc[i - 1].KChild? then PostOrder(pt.kgc[i - 1].pt) else []) + ChildrenOrder(pt, i - 1)
  }

  ghost predicate PlainAt(ps: seq<Proto>, strip: bool, i: int) {
    0 <= i < |ps| ==> PlainOk(ps[i]) && 0 < |Body(ps[i], strip)| < MAX_MEM
  }

  ghost predicate AllPlain(ps: seq<Proto>, strip: bool) {
    forall i {:trigger PlainAt(ps, strip, i)} :: PlainAt(ps, strip, i)
  }

  /** The bytes that the writer passes on for a prototype without its children. */
  ghost function FramedBody(pt: Proto, strip: bool): seq<int> {
    if PlainOk(pt) then Framed(Body(pt, strip)) else []
  }

  function Concat(bs: seq<seq<int>>): seq<int> {
    if bs == [] then [] else bs[0] + Concat(bs[1..])
  }

  lemma {:induction false} ConcatBoth(as_: seq<seq<int>>, bs: seq<seq<int>>)
    ensures Concat(as_ + bs) == Concat(as_) + Concat(bs)
  {
    if as_ == [] {
      assert as_ + bs == bs;
    } else {
      ConcatBoth(as_[1..], bs);
      assert (as_ + bs)[1..] == as_[1..] + bs;
    }
  }

  ghost function Framer(strip: bool): Proto -> seq<int> {
    pt => FramedBody(pt, strip)
  }

  ghost function Mapped(f: Proto -> seq<int>, ps: seq<Proto>): seq<seq<int>> {
    seq(|ps|, i requires 0 <= i < |ps| => f(ps[i]))
  }

  lemma MappedBoth(f: Proto -> seq<int>, ps: seq<Proto>, qs: seq<Proto>)
    ensures Mapped(f, ps + qs) == Mapped(f, ps) + Mapped(f, qs)
  {
  }

  /** The bytes of prototypes one after the other. */
  ghost function FlatBytes(ps: seq<Proto>, strip: bool): seq<int> {
    Concat(Mapped(Framer(strip), ps))
  }

  lemma FlatBoth(ps: seq<Proto>, qs: seq<Proto>, strip: bool)
    ensures FlatBytes(ps + qs, strip) == FlatBytes(ps, strip) + FlatBytes(qs, strip)
  {
    MappedBoth(Framer(strip), ps, qs);
    ConcatBoth(Mapped(Framer(strip), ps), Mapped(Framer(strip), qs));
  }

  lemma PlainBoth(ps: seq<Proto>, qs: seq<Proto>, strip: bool)
    requires AllPlain(ps, strip) && AllPlain(qs, strip)
    ensures AllPlain(ps + qs, strip)
  {
    forall i ensures PlainAt(ps + qs, strip, i) {
      if 0 <= i < |ps + qs| {
        var x := if i < |ps| then ps[i] else qs[i - |ps|];
        assert (ps + qs)[i] == x;
        assert PlainAt(ps, strip, i) && PlainAt(qs, strip, i - |ps|);
      }
    }
  }

  /** The bytes of a tree are those of its prototypes, one after the other. */
  lemma {:induction false} FlatTree(pt: Proto, strip: bool)
    requires ProtoOk(pt, strip)
    ensures AllPlain(PostOrder(pt), strip) && FlatBytes(PostOrder(pt), strip) == ProtoBytes(pt, strip)
    decreases pt, |pt.kgc| + 1
  {
    FlatChildren(pt, |pt.kgc|, strip);
    FlatOne(pt, strip);
    FlatBoth(ChildrenOrder(pt, |pt.kgc|), [pt], strip);
    PlainBoth(ChildrenOrder(pt, |pt.kgc|), [pt], strip);
  }

  lemma FlatSingle(f: Proto -> seq<int>, pt: Proto)
    ensures Concat(Mapped(f, [pt])) == f(pt)
  {
    assert Mapped(f, [pt]) == [f(pt)];
    assert [f(pt)][1..] == [] && f(pt) + [] == f(pt);
  }

  lemma FlatNone(ps: seq<Proto>, strip: bool)
    requires ps == []
    ensures AllPlain(ps, strip) && FlatBytes(ps, strip) == []
  {
    forall k ensures PlainAt(ps, strip, k) { }
  }

  lemma FlatOne(pt: Proto, strip: bool)
    requires ProtoOk(pt, strip)
    ensures PlainOk(pt) && AllPlain([pt], strip) && FlatBytes([pt], strip) == Framed(Body(pt, strip))
  {
    assert PartOk(pt, strip, 0);
    forall i ensures PlainAt([pt], strip, i) { }
    FlatSingle(Framer(strip), pt);
  }

  /** The next prototype of several is framed by its length, which is not zero. */
  lemma FlatNext(ps: seq<Proto>, strip: bool)
    requires ps != [] && AllPlain(ps, strip)
    ensures PlainOk(ps[0]) && 0 < |Body(ps[0], strip)| < MAX_MEM && AllPlain(ps[1..], strip)
    ensures FlatBytes(ps, strip) == Framed(Body(ps[0], strip)) + FlatBytes(ps[1..], strip)
  {
    assert PlainAt(ps, strip, 0);
    PlainTail(ps, strip);
    ConcatNext(Framer(strip), ps);
  }

  lemma PlainTail(ps: seq<Proto>, strip: bool)
    requires ps != [] && AllPlain(ps, strip)
    ensures AllPlain(ps[1..], strip)
  {
    forall i ensures PlainAt(ps[1..], strip, i) {
      assert PlainAt(ps, strip, i + 1);
    }
  }

  lemma ConcatNext(f: Proto -> seq<int>, ps: seq<Proto>)
    requires ps != []
    ensures Concat(Mapped(f, ps)) == f(ps[0]) + Concat(Mapped(f, ps[1..]))
  {
    assert Mapped(f, ps)[1..] == Mapped(f, ps[1..]);
  }

  ghost predicate ChildrenFlat(pt: Proto, i: nat, strip: bool)
    requires i <= |pt.kgc|
  {
    AllPlain(ChildrenOrder(pt, i), strip) && FlatBytes(ChildrenOrder(pt, i), strip) == ChildrenBytes(pt, i, strip)
  }

  lemma NoChildFlat(pt: Proto, i: nat, strip: bool)
    requires ProtoOk(pt, strip) && 0 < i <= |pt.kgc| && !pt.kgc[i - 1].KChild? && ChildrenFlat(pt, i - 1, strip)
    ensures ChildrenFlat(pt, i, strip)
  {
    var rest, rb := ChildrenOrder(pt, i - 1), ChildrenBytes(pt, i - 1, strip);
    assert [] + rest == rest && [] + rb == rb;
  }

  lemma ChildFlat(pt: Proto, i: nat, c: Proto, strip: bool)
    requires ProtoOk(pt, strip) && 0 < i <= |pt.kgc| && pt.kgc[i - 1] == KChild(c) && ChildrenFlat(pt, i - 1, strip)
    requires ProtoOk(c, strip) && AllPlain(PostOrder(c), strip)
               && FlatBytes(PostOrder(c), strip) == ProtoBytes(c, strip)
    ensures ChildrenFlat(pt, i, strip)
  {
    FlatBoth(PostOrder(c), ChildrenOrder(pt, i - 1), strip);
    PlainBoth(PostOrder(c), ChildrenOrder(pt, i - 1), strip);
  }

  lemma FlatStart(pt: Proto, i: nat, strip: bool)
    requires ProtoOk(pt, strip) && i == 0
    ensures ChildrenFlat(pt, i, strip)
  {
    FlatNone([], strip);
  }

  lemma {:induction false} FlatChild(pt: Proto, i: nat, c: Proto, strip: bool)
    requires ProtoOk(pt, strip) && 0 < i <= |pt.kgc| && pt.kgc[i - 1] == KChild(c) && ChildrenFlat(pt, i - 1, strip)
    ensures ChildrenFlat(pt, i, strip)
    decreases pt, 0
  {
    assert PartOk(pt, strip, i);
    FlatTree(c, strip);
    ChildFlat(pt, i, c, strip);
  }

  lemma {:induction false} FlatChildren(pt: Proto, i: nat, strip: bool)
    requires ProtoOk(pt, strip) && i <= |pt.kgc|
    ensures ChildrenFlat(pt, i, strip)
    decreases pt, i
  {
    if i == 0 {
      FlatStart(pt, i, strip);
    } else {
      FlatChildren(pt, i - 1, strip);
      if pt.kgc[i - 1].KChild? {
        FlatChild(pt, i, pt.kgc[i - 1].pt, strip);
      } else {
        NoChildFlat(pt, i, strip);
      }
    }
  }

  /** The children among the constants from i on are on top of the stack, in the order in which they are popped. */
  ghost predicate OnTop(stack: seq<ReadProto>, kgc: seq<Const>, i: nat, strip: bool)
    requires i <= |kgc|
    decreases |kgc| - i
  {
    i < |kgc| ==>
      if kgc[i].KChild? then stack != [] && stack[|stack| - 1] == Back(kgc[i].pt, strip)
          && OnTop(stack[..|stack| - 1], kgc, i + 1, strip)
      else OnTop(stack, kgc, i + 1, strip)
  }

  function Popped(stack: seq<ReadProto>, kgc: seq<Const>, i: nat): seq<ReadProto>
    requires i <= |kgc|
    decreases |kgc| - i
  {
    if i == |kgc| then stack
    else Popped(if kgc[i].KChild? && stack != [] then stack[..|stack| - 1] else stack, kgc, i + 1)
  }

  /** Reading prototypes one after the other leads from one stack to another. */
  ghost predicate Runs(stack: seq<ReadProto>, ps: seq<Proto>, goal: seq<ReadProto>, strip: bool)
    decreases |ps|
  {
    if ps == [] then stack == goal
    else
      && OnTop(stack, ps[0].kgc, 0, strip)
      && Runs(Popped(stack, ps[0].kgc, 0) + [Back(ps[0], strip)], ps[1..], goal, strip)
  }

  /** The children among the first i constants, as they lie on the stack. */
  function Pushed(pt: Proto, i: nat, strip: bool): seq<ReadProto>
    requires i <= |pt.kgc|
  {
    if i == 0 then []
    else (if pt.kgc[i - 1].KChild? then [Back(pt.kgc[i - 1].pt, strip)] else []) + Pushed(pt, i - 1, strip)
  }

  /** Those from i on. */
  function PushedFrom(pt: Proto, i: nat, strip: bool): seq<ReadProto>
    requires i <= |pt.kgc|
    decreases |pt.kgc| - i
  {
    if i == |pt.kgc| then []
    else PushedFrom(pt, i + 1, strip) + if pt.kgc[i].KChild? then [Back(pt.kgc[i].pt, strip)] else []
  }

  lemma {:induction false} PushedSplit(pt: Proto, i: nat, strip: bool)
    requires i <= |pt.kgc|
    ensures Pushed(pt, |pt.kgc|, strip) == PushedFrom(pt, i, strip) + Pushed(pt, i, strip)
    decreases |pt.kgc| - i
  {
    if i < |pt.kgc| {
      PushedSplit(pt, i + 1, strip);
      var c := if pt.kgc[i].KChild? then [Back(pt.kgc[i].pt, strip)] else [];
      assert Pushed(pt, i + 1, strip) == c + Pushed(pt, i, strip);
      assert (PushedFrom(pt, i + 1, strip) + c) + Pushed(pt, i, strip) == PushedFrom(pt, i + 1,
          strip) + (c + Pushed(pt, i, strip));
    }
  }

  /** Popping in ascending order undoes pushing in descending order. */
  lemma {:induction false} PopsPushed(stack: seq<ReadProto>, pt: Proto, i: nat, strip: bool)
    requires i <= |pt.kgc|
    ensures OnTop(stack + PushedFrom(pt, i, strip), pt.kgc, i, strip)
    ensures Popped(stack + PushedFrom(pt, i, strip), pt.kgc, i) == stack
    decreases |pt.kgc| - i
  {
    if i < |pt.kgc| {
      PopsPushed(stack, pt, i + 1, strip);
      var s := stack + PushedFrom(pt, i, strip);
      if pt.kgc[i].KChild? {
        assert s == (stack + PushedFrom(pt, i + 1, strip)) + [Back(pt.kgc[i].pt, strip)];
        assert s[..|s| - 1] == stack + PushedFrom(pt, i + 1, strip);
      } else {
        assert PushedFrom(pt, i, strip) == PushedFrom(pt, i + 1, strip);
      }
    }
  }

  /** Each subtree nets exactly one stack entry, what comes back of its root. */
  lemma {:induction false} SubtreeNetsOne(pt: Proto, stack: seq<ReadProto>, rest: seq<Proto>, goal: seq<ReadProto>,
                                          strip: bool)
    requires Runs(stack + [Back(pt, strip)], rest, goal, strip)
    ensures Runs(stack, PostOrder(pt) + rest, goal, strip)
    decreases pt, |pt.kgc| + 1
  {
    var n := |pt.kgc|;
    var rest' := [pt] + rest;
    var s := stack + Pushed(pt, n, strip);
    PushedSplit(pt, 0, strip);
    assert PushedFrom(pt, 0, strip) + [] == PushedFrom(pt, 0, strip);
    PopsPushed(stack, pt, 0, strip);
    assert rest'[1..] == rest;
    assert Runs(s, rest', goal, strip);
    ChildrenNetTheirs(pt, n, stack, rest', goal, strip);
    assert PostOrder(pt) + rest == ChildrenOrder(pt, n) + rest';
  }

  lemma {:induction false} ChildrenNetTheirs(pt: Proto, i: nat, stack: seq<ReadProto>, rest: seq<Proto>,
                                             goal: seq<ReadProto>, strip: bool)
    requires i <= |pt.kgc| && Runs(stack + Pushed(pt, i, strip), rest, goal, strip)
    ensures Runs(stack, ChildrenOrder(pt, i) + rest, goal, strip)
    decreases pt, i
  {
    if i == 0 {
      assert stack + [] == stack && [] + rest == rest;
    } else if pt.kgc[i - 1].KChild? {
      var child := pt.kgc[i - 1].pt;
      var stack' := stack + [Back(child, strip)];
      assert stack + Pushed(pt, i, strip) == stack' + Pushed(pt, i - 1, strip);
      ChildrenNetTheirs(pt, i - 1, stack', rest, goal, strip);
      SubtreeNetsOne(child, stack, ChildrenOrder(pt, i - 1) + rest, goal, strip);
      assert ChildrenOrder(pt, i) + rest == PostOrder(child) + (ChildrenOrder(pt, i - 1) + rest);
    } else {
      assert Pushed(pt, i, strip) == Pushed(pt, i - 1, strip) && ChildrenOrder(pt, i) == ChildrenOrder(pt, i - 1);
      ChildrenNetTheirs(pt, i - 1, stack, rest, goal, strip);
    }
  }
}
