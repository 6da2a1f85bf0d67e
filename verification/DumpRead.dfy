/**
 * The bytecode reader (lj_bcread.c): it refills its buffer from a callback that
 * returns the dump in chunks of any size, and pushes prototypes on a stack from
 * which their parents pop them. Errors end the run: ok is false.
 */
module DumpRead {
  import opened Words
  import opened Uleb128
  import opened DumpFormat
  import opened DumpSame

  /** The header of a prototype. */
  datatype Head = Head(flags: int, numparams: int, framesize: int, sizeuv: int, sizekgc: nat, sizekn: nat, sizebc: nat,
                       sizedbg: nat, firstline: nat, numline: nat)

  ghost function HeadOf(pt: Proto, strip: bool): Head {
    var debug := !strip && pt.debug != [];
    Head(pt.flags % 8, pt.numparams, pt.framesize, |pt.uv| / 2, |pt.kgc|, |pt.kn|, |pt.bc| / 4 + 1,
         if debug then |pt.debug| else 0, if debug then pt.firstline else 0, if debug then pt.numline else 0)
  }

  function Flat(chunks: seq<seq<int>>): seq<int> {
    if chunks == [] then [] else chunks[0] + Flat(chunks[1..])
  }

  /** The invariant of the reader has two parts. */
  datatype Part = Window | Source

  class Reader {
    /** What ls->p points into: the buffer, or a chunk of the callback. */
    var data: seq<int>
    var p: nat
    var n: nat
    /** The buffer's contents, if it is in use. */
    var sb: seq<int>
    /** What the callback returns next; an empty chunk, or none, is the end. */
    var chunks: seq<seq<int>>
    /** Negative behind the end of the input. */
    var current: int
    var flags: int
    var chunkname: seq<int>
    const chunkarg: seq<int>
    var stack: seq<ReadProto>
    /** The bytes at p. */
    ghost var left: seq<int>

    ghost predicate Holds(part: Part)
      reads this`data, this`p, this`n, this`sb, this`chunks, this`current, this`left
    {
      match part
      case Window => p + n <= |data| && data[p..p + n] == left && (sb != [] ==> sb == data)
      case Source => (forall i :: 0 <= i < |chunks| ==> chunks[i] != []) && (current < 0 ==> chunks == [])
    }

    ghost predicate Valid()
      reads this`data, this`p, this`n, this`sb, this`chunks, this`current, this`left
    {
      n == |left| && forall part {:trigger Holds(part)} :: Holds(part)
    }

    lemma Opened()
      requires Valid()
      ensures p + n <= |data| && data[p..p + n] == left && (sb != [] ==> sb == data)
      ensures (forall i :: 0 <= i < |chunks| ==> chunks[i] != []) && (current < 0 ==> chunks == [])
    {
      assert Holds(Window) && Holds(Source);
    }

    /** The next byte, which stays there. */
    method First() returns (b: int)
      requires Valid() && n > 0
      ensures b == left[0]
    {
      Opened();
      b := data[p];
    }

    ghost function Rest(): seq<int>
      reads this`left, this`chunks
    {
      left + Flat(chunks)
    }

    /** The state in which the lexer hands over: the first byte of the dump was read. */
    constructor (data: seq<int>, chunks: seq<seq<int>>, chunkarg: seq<int>)
      requires forall i :: 0 <= i < |chunks| ==> chunks[i] != []
      ensures Valid() && left == data && this.chunks == chunks && current == HEAD1 && this.chunkarg == chunkarg
                && stack == []
    {
      this.data, p, n, sb := data, 0, |data|, [];
      this.chunks, current, flags, chunkname, stack := chunks, HEAD1, 0, [], [];
      this.chunkarg := chunkarg;
      left := data;
    }

    // ---- Input buffer ----

    /** bcread_fill */
    method Fill(len: nat, need: bool) returns (ok: bool)
      requires Valid() && n < len
      modifies this`data, this`p, this`n, this`sb, this`chunks, this`current, this`left
      ensures Valid() && Rest() == old(Rest()) && |left| >= old(|left|)
      ensures ok && n < len ==> !need && chunks == [] && current < 0
      ensures ok <==> len <= MAX_MEM && old(current) >= 0 && (need ==> |Rest()| >= len)
    {
      ok := true;
      if len > MAX_MEM || current < 0 {
        return false;
      }
      while true
        invariant Valid() && n < len && Rest() == old(Rest()) && current == old(current) && |left| >= old(|left|)
        decreases |chunks|
      {
        Opened();
        Buffer();
        if chunks == [] || chunks[0] == [] {
          if need {
            NoMore();
            return false;
          }
          Opened();
          current := -1;
          break;
        }
        Append();
        if n >= len {
          break;
        }
      }
    }

    /** The bytes at p go to the start of the buffer. */
    method Buffer()
      requires Valid()
      modifies this`data, this`p, this`sb
      ensures Valid() && sb == left
    {
      Opened();
      sb := data[p..p + n];
      if n > 0 {
        data, p := sb, 0;
      }
    }

    /** One more chunk, in the buffer or in place. */
    method Append()
      requires Valid() && chunks != [] && sb == left
      modifies this`data, this`p, this`n, this`sb, this`chunks, this`left
      ensures Valid() && Rest() == old(Rest()) && chunks == old(chunks)[1..] && left == old(left) + old(chunks)[0]
                && n > old(n)
    {
      Opened();
      var chunk := chunks[0];
      Regroup(left, chunk, Flat(chunks[1..]));
      if |sb| > 0 {
        sb := sb + chunk;
        n := |sb|;
        data, p := sb, 0;
        left := sb;
      } else {
        assert left + chunk == chunk;
        n := |chunk|;
        data, p := chunk, 0;
        left := chunk;
      }
      chunks := chunks[1..];
    }

    static lemma Regroup(a: seq<int>, b: seq<int>, c: seq<int>)
      ensures a + (b + c) == (a + b) + c
    {
    }

    lemma NoMore()
      requires Valid() && chunks == []
      ensures Rest() == left
    {
    }

    /** Behind the end of the input there are no more chunks. */
    lemma AtEnd()
      requires Valid()
      ensures current < 0 ==> Rest() == left
    {
      Opened();
    }

    /** bcread_need */
    method NeedBytes(len: nat) returns (ok: bool)
      requires Valid() && len <= MAX_MEM
      modifies this`data, this`p, this`n, this`sb, this`chunks, this`current, this`left
      ensures Valid() && Rest() == old(Rest()) && |left| >= old(|left|)
      ensures ok ==> n >= len
      ensures |Rest()| >= len ==> ok
    {
      ok := true;
      if n < len {
        AtEnd();
        ok := Fill(len, true);
      }
    }

    /** bcread_want */
    method WantBytes(len: nat) returns (ok: bool)
      requires Valid() && len <= MAX_MEM
      modifies this`data, this`p, this`n, this`sb, this`chunks, this`current, this`left
      ensures Valid() && Rest() == old(Rest()) && |left| >= old(|left|)
      ensures ok <==> old(n) >= len || old(current) >= 0
      ensures ok ==> n >= len || left == Rest()
    {
      ok := true;
      if n < len {
        ok := Fill(len, false);
        AtEnd();
      }
    }

    /** bcread_mem */
    method Mem(len: nat) returns (s: seq<int>)
      requires Valid() && len <= n
      modifies this`p, this`n, this`left
      ensures Valid() && s == old(left)[..len] && left == old(left)[len..]
    {
      Opened();
      WindowMoves(data, p, n, left, len);
      s := data[p..p + len];
      n := n - len;
      p := p + len;
      left := left[len..];
    }

    /** bcread_byte */
    method Byte() returns (b: int)
      requires Valid() && n > 0
      modifies this`p, this`n, this`left
      ensures Valid() && b == old(left)[0] && left == old(left)[1..]
    {
      Opened();
      WindowMoves(data, p, n, left, 1);
      n := n - 1;
      b := data[p];
      p := p + 1;
      left := left[1..];
    }

    static lemma WindowMoves(data: seq<int>, p: nat, n: nat, left: seq<int>, k: nat)
      requires p + n <= |data| && data[p..p + n] == left && k <= n
      ensures data[p..p + k] == left[..k] && data[p + k..p + n] == left[k..] && (k > 0 ==> data[p] == left[0])
    {
    }

    /** The digits of a number from the second one on, the first of which counts from bit sh0. */
    method Digits(v0: nat, sh0: nat, ghost w: nat, ghost more: seq<int>) returns (v: nat)
      requires Valid() && left == Uleb(w) + more && v0 + w * Pow2(sh0) < U32
      modifies this`p, this`n, this`left
      ensures Valid() && left == more && v == v0 + w * Pow2(sh0)
    {
      v := v0;
      var sh, b := sh0, 0x80;
      ghost var rest: nat := w;
      while b >= 0x80
        invariant Valid() && Partial(v, rest, sh, b >= 0x80, v0 + w * Pow2(sh0))
                    && left == (if b >= 0x80 then Uleb(rest) else []) + more
        decreases if b >= 0x80 then rest + 1 else 0
      {
        b := UlebByte(rest, more);
        PartialNext(v, rest, sh, v0 + w * Pow2(sh0));
        v := (v + b % 0x80 * Pow2(sh)) % U32;
        sh := sh + 7;
        rest := rest / 0x80;
      }
      NothingMore(more);
    }

    /** v and the digits that are left make up the total. */
    static ghost predicate Partial(v: nat, rest: nat, sh: nat, goesOn: bool, total: nat) {
      v <= total < U32 && if goesOn then v + rest * Pow2(sh) == total else v == total
    }

    static lemma PartialNext(v: nat, rest: nat, sh: nat, total: nat)
      requires Partial(v, rest, sh, true, total)
      ensures Partial((v + rest % 0x80 * Pow2(sh)) % U32, rest / 0x80, sh + 7, rest >= 0x80, total)
    {
      Digit(v, rest, sh);
    }

    /** The next byte of a number. */
    method UlebByte(ghost w: nat, ghost more: seq<int>) returns (b: int)
      requires Valid() && left == Uleb(w) + more
      modifies this`p, this`n, this`left
      ensures Valid() && 0 <= b && b % 0x80 == w % 0x80 && (b >= 0x80 <==> w >= 0x80) && b == Uleb(w)[0] && b < 0x100
      ensures left == (if b >= 0x80 then Uleb(w / 0x80) else []) + more
    {
      TailOf(Uleb(w), more);
      b := Byte();
    }

    static lemma TailOf(s: seq<int>, more: seq<int>)
      requires s != []
      ensures (s + more)[0] == s[0] && (s + more)[1..] == s[1..] + more
    {
    }

    /** One more digit of seven bits. */
    static lemma Digit(v: nat, w: nat, sh: nat)
      ensures v + w * Pow2(sh) == (v + w % 0x80 * Pow2(sh)) + w / 0x80 * Pow2(sh + 7)
      ensures (w % 0x80 + 0x80) % 0x80 == w % 0x80
      ensures w % 0x80 * Pow2(sh) >= 0 && w / 0x80 * Pow2(sh + 7) >= 0
    {
      Pow2Add(sh, 7);
      Pow2Consts();
      var d, q, m := w % 0x80, w / 0x80, Pow2(sh);
      assert w == d + q * 0x80;
      MulDist(d, q * 0x80, m);
      MulAssoc(q, 0x80, m);
    }

    /** bcread_uleb128 */
    method ReadUleb(ghost v: nat, ghost more: seq<int>) returns (r: nat)
      requires Valid() && v < U32 && left == Uleb(v) + more
      modifies this`p, this`n, this`left
      ensures Valid() && r == v && left == more
    {
      var b := UlebByte(v, more);
      r := b;
      if b >= 0x80 {
        Pow2Consts();
        r := Digits(b % 0x80, 7, v / 0x80, more);
      } else {
        NothingMore(more);
      }
    }

    /** bcread_uleb128_33 */
    method ReadUleb33(ghost u: nat, ghost tag: nat, ghost more: seq<int>) returns (r: nat)
      requires Valid() && u < U32 && tag < 2 && left == Uleb(2 * u + tag) + more
      modifies this`p, this`n, this`left
      ensures Valid() && r == u && left == more
    {
      First33(u, tag);
      var b := UlebByte(2 * u + tag, more);
      r := b / 2;
      if r >= 0x40 {
        r := Digits(r % 0x40, 6, (2 * u + tag) / 0x80, more);
      } else {
        NothingMore(more);
      }
    }

    /** The first byte of a 33-bit number. */
    lemma First33(u: nat, tag: nat)
      requires tag < 2
      ensures var v := 2 * u + tag;
              var b := Uleb(v)[0];
              && (b / 2 >= 0x40 <==> v >= 0x80)
              && (v >= 0x80 ==> b / 2 % 0x40 + v / 0x80 * Pow2(6) == u && Uleb(v)[1..] == Uleb(v / 0x80))
              && (v < 0x80 ==> b / 2 == u && Uleb(v)[1..] == [])
    {
      HalfDigits(u, tag);
      assert Pow2(6) == 0x40;
    }

    // ---- Constants ----

    ghost function ValueTag(v: Value): nat {
      match v
      case Nil => KTAB_NIL
      case False => KTAB_FALSE
      case True => KTAB_TRUE
      case Int(_) => KTAB_INT
      case Num(_, _) => KTAB_NUM
      case Str(s) => KTAB_STR + |s|
    }

    ghost function ValueBody(v: Value): seq<int>
    {
      match v
      case Int(k) => Uleb(ToU32(k))
      case Num(lo, hi) => Uleb(lo) + Uleb(hi)
      case Str(s) => s
      case _ => []
    }

    lemma ValueParts(v: Value, more: seq<int>)
      requires ValueOk(v)
      ensures ValueTag(v) < U32 && ValueBytes(v) + more == Uleb(ValueTag(v)) + (ValueBody(v) + more)
      ensures v.Num? ==> ValueBody(v) + more == Uleb(v.lo) + (Uleb(v.hi) + more)
      ensures !v.Num? && !v.Int? && !v.Str? ==> ValueBody(v) + more == more
    {
      if v.Num? {
        Assoc3([KTAB_NUM], Uleb(v.lo), Uleb(v.hi));
        Assoc3(Uleb(v.lo), Uleb(v.hi), more);
        assert Uleb(KTAB_NUM) == [KTAB_NUM];
      } else if v.Int? {
        assert Uleb(KTAB_INT) == [KTAB_INT];
      } else if !v.Str? {
        NothingMore(Uleb(ValueTag(v)));
        NothingMore(more);
        assert Uleb(ValueTag(v)) == [ValueTag(v)];
      }
      Assoc3(Uleb(ValueTag(v)), ValueBody(v), more);
    }

    /** bcread_ktabk */
    method ReadValue(ghost v: Value, ghost more: seq<int>) returns (o: Value)
      requires Valid() && ValueOk(v) && left == ValueBytes(v) + more
      modifies this`p, this`n, this`left
      ensures Valid() && o == v && left == more
    {
      ValueParts(v, more);
      var tp := ReadUleb(ValueTag(v), ValueBody(v) + more);
      o := ReadTagged(tp, v, more);
    }

    method ReadTagged(tp: nat, ghost v: Value, ghost more: seq<int>) returns (o: Value)
      requires Valid() && ValueOk(v) && tp == ValueTag(v)
      requires left == (if v.Num? then Uleb(v.lo) + (Uleb(v.hi) + more)
                        else if v.Int? then Uleb(ToU32(v.k)) + more else if v.Str? then v.s + more else more)
      modifies this`p, this`n, this`left
      ensures Valid() && o == v && left == more
    {
      if tp >= KTAB_STR {
        var len := tp - KTAB_STR;
        var s := Mem(len);
        o := Str(s);
      } else if tp == KTAB_INT {
        var u := ReadUleb(ToU32(v.k), more);
        o := Int(ToInt(u));
      } else if tp == KTAB_NUM {
        var lo := ReadUleb(v.lo, Uleb(v.hi) + more);
        var hi := ReadUleb(v.hi, more);
        o := Num(lo, hi);
      } else {
        o := if tp == KTAB_NIL then Nil else if tp == KTAB_FALSE then False else True;
      }
    }

    /** lj_tab_set and the assignment to the slot it returns. */
    static method TabSet(t: ReadTable, key: Value, v: Value) returns (t': ReadTable)
      ensures t' == if key.Int? && 0 <= key.k < |t.arr| then t.(arr := t.arr[key.k := v])
                else t.(hash := t.hash[key := v])
    {
      t' := if key.Int? && 0 <= key.k < |t.arr| then t.(arr := t.arr[key.k := v]) else t.(hash := t.hash[key := v]);
    }

    /** bcread_ktab */
    method ReadTab(ghost t0: Table, ghost more: seq<int>) returns (t: ReadTable)
      requires Valid() && TableOk(t0) && left == TableBytes(t0) + more
      modifies this`p, this`n, this`left
      ensures Valid() && t == TableBack(t0) && left == more
    {
      ghost var na, nodes := ArrayLen(t0.arr), HashNodes(t0);
      ghost var nh := NodesUsed(nodes);
      ghost var ab, nb := ArrayBytes(t0.arr[..na]), NodeBytes(nodes);
      Shift4(Uleb(na), Uleb(nh), ab, nb, more);
      var narray := ReadUleb(na, Uleb(nh) + (ab + (nb + more)));
      var nhash := ReadUleb(nh, ab + (nb + more));
      var arr := ReadArray(narray, t0.arr[..na], nb + more);
      t := ReadTable(arr, map[]);
      t := ReadHash(nhash, t, nodes, more);
      assert map[] + ReadNodes(nodes) == ReadNodes(nodes);
    }

    static lemma Shift4(a: seq<int>, b: seq<int>, c: seq<int>, d: seq<int>, e: seq<int>)
      ensures (a + b + c + d) + e == a + (b + (c + (d + e)))
    {
      Assoc3(c, d, e);
      Assoc3(b, c, d + e);
      Assoc3(a, b, c + (d + e));
      Assoc3(a + b, c, d + e);
      Assoc3(a + b + c, d, e);
    }

    /** One part moves from the bytes before to the bytes behind. */
    static lemma Shifted(whole: seq<int>, front': seq<int>, front: seq<int>, part: seq<int>, rest: seq<int>)
      requires whole == front' + rest && front' == front + part
      ensures whole == front + (part + rest)
    {
    }

    static lemma NothingMore(s: seq<int>)
      ensures s + [] == s && [] + s == s
    {
    }

    static lemma Assoc3(a: seq<int>, b: seq<int>, c: seq<int>)
      ensures (a + b) + c == a + (b + c)
    {
    }

    /** The values from i on are still to be read. */
    ghost predicate ArrayAhead(a: seq<Value>, i: nat, more: seq<int>)
      reads this
    {
      i <= |a| && (forall k :: 0 <= k < |a| ==> ValueOk(a[k])) && Valid() && left == BytesFrom(a, i) + more
    }

    method ReadArray(narray: nat, ghost a: seq<Value>, ghost more: seq<int>) returns (arr: seq<Value>)
      requires Valid() && narray == |a| && (forall i :: 0 <= i < |a| ==> ValueOk(a[i])) && left == ArrayBytes(a) + more
      modifies this`p, this`n, this`left
      ensures Valid() && arr == a && left == more
    {
      arr := [];
      var i := 0;
      ArrayStart(a);
      while i < narray
        invariant 0 <= i <= narray && ArrayAhead(a, i, more) && arr == a[..i]
      {
        arr := ReadNext(arr, a, i, more);
        i := i + 1;
      }
      ArrayDone(a, more);
    }

    lemma ArrayDone(a: seq<Value>, more: seq<int>)
      requires ArrayAhead(a, |a|, more)
      ensures Valid() && left == more
    {
      NothingMore(more);
    }

    method ReadNext(arr0: seq<Value>, ghost a: seq<Value>, ghost i: nat, ghost more: seq<int>) returns (arr: seq<Value>)
      requires ArrayAhead(a, i, more) && i < |a| && arr0 == a[..i]
      modifies this`p, this`n, this`left
      ensures ArrayAhead(a, i + 1, more) && arr == a[..i + 1]
    {
      ghost var rest := BytesFrom(a, i + 1);
      Assoc3(ValueBytes(a[i]), rest, more);
      var o := ReadValue(a[i], rest + more);
      arr := arr0 + [o];
      PrefixMore(a, i);
    }

    static lemma PrefixMore(a: seq<Value>, i: nat)
      requires i < |a|
      ensures a[..i] + [a[i]] == a[..i + 1]
    {
    }

    /** The bytes of the values from i on. */
    ghost function BytesFrom(a: seq<Value>, i: nat): seq<int>
      requires i <= |a|
      decreases |a| - i
    {
      if i == |a| then [] else ValueBytes(a[i]) + BytesFrom(a, i + 1)
    }

    lemma ArrayFrom(a: seq<Value>, i: nat)
      requires i <= |a|
      ensures ArrayBytes(a) == ArrayBytes(a[..i]) + BytesFrom(a, i)
      decreases |a| - i
    {
      if i == |a| {
        assert a[..i] == a;
        NothingMore(ArrayBytes(a));
      } else {
        ArrayFrom(a, i + 1);
        ArrayMore(a, i);
        Shifted(ArrayBytes(a), ArrayBytes(a[..i + 1]), ArrayBytes(a[..i]), ValueBytes(a[i]), BytesFrom(a, i + 1));
      }
    }

    lemma ArrayStart(a: seq<Value>)
      ensures ArrayBytes(a) == BytesFrom(a, 0)
    {
      ArrayFrom(a, 0);
      NothingMore(BytesFrom(a, 0));
      assert a[..0] == [];
    }

    /** The next used slot below g. */
    lemma NextUsed(nodes: seq<Node>, g: nat) returns (h: nat)
      requires g <= |nodes| && NodesUsed(nodes[..g]) > 0
      ensures h < g && nodes[h].val != Nil && NodesUsed(nodes[..g]) == NodesUsed(nodes[..h]) + 1
      ensures NodeBytes(nodes[..g]) == ValueBytes(nodes[h].key) + ValueBytes(nodes[h].val) + NodeBytes(nodes[..h])
      ensures ReadNodes(nodes[..g]) == map[nodes[h].key := nodes[h].val] + ReadNodes(nodes[..h])
    {
      assert g > 0;
      assert nodes[..g][..g - 1] == nodes[..g - 1];
      if nodes[g - 1].val != Nil {
        h := g - 1;
      } else {
        assert [] + NodeBytes(nodes[..g - 1]) == NodeBytes(nodes[..g - 1]);
        h := NextUsed(nodes, g - 1);
      }
    }

    lemma NoneUsed(nodes: seq<Node>)
      requires NodesUsed(nodes) == 0
      ensures NodeBytes(nodes) == [] && ReadNodes(nodes) == map[]
    {
      if nodes != [] { NoneUsed(nodes[..|nodes| - 1]); }
    }

    method ReadHash(nhash: nat, t0: ReadTable, ghost nodes: seq<Node>, ghost more: seq<int>) returns (t: ReadTable)
      requires forall k :: 0 <= k < |nodes| ==> ValueOk(nodes[k].key) && ValueOk(nodes[k].val)
      requires Valid() && nhash == NodesUsed(nodes) && left == NodeBytes(nodes) + more
      requires forall k :: 0 <= k < |nodes| && nodes[k].val != Nil
                 ==> !(nodes[k].key.Int? && 0 <= nodes[k].key.k < |t0.arr|)
      modifies this`p, this`n, this`left
      ensures Valid() && t == ReadTable(t0.arr, t0.hash + ReadNodes(nodes)) && left == more
    {
      t := t0;
      var i := 0;
      ghost var g: nat := |nodes|;
      assert nodes[..g] == nodes;
      while i < nhash
        invariant 0 <= i <= nhash && g <= |nodes| && Valid() && t.arr == t0.arr
        invariant nhash - i == NodesUsed(nodes[..g]) && left == NodeBytes(nodes[..g]) + more
        invariant t.hash + ReadNodes(nodes[..g]) == t0.hash + ReadNodes(nodes)
      {
        ghost var h: nat;
        t, h := ReadNode(t, nodes, g, more);
        i := i + 1;
        g := h;
      }
      NoneUsed(nodes[..g]);
      assert t.hash + map[] == t.hash && [] + more == more;
    }

    method ReadNode(t0: ReadTable, ghost nodes: seq<Node>, ghost g: nat, ghost more: seq<int>)
                    returns (t: ReadTable, ghost h: nat)
      requires forall k :: 0 <= k < |nodes| ==> ValueOk(nodes[k].key) && ValueOk(nodes[k].val)
      requires g <= |nodes| && NodesUsed(nodes[..g]) > 0 && Valid() && left == NodeBytes(nodes[..g]) + more
      requires forall k :: 0 <= k < |nodes| && nodes[k].val != Nil
                 ==> !(nodes[k].key.Int? && 0 <= nodes[k].key.k < |t0.arr|)
      modifies this`p, this`n, this`left
      ensures h < g && NodesUsed(nodes[..g]) == NodesUsed(nodes[..h]) + 1
      ensures Valid() && left == NodeBytes(nodes[..h]) + more && t.arr == t0.arr
      ensures t.hash + ReadNodes(nodes[..h]) == t0.hash + ReadNodes(nodes[..g])
    {
      h := NextUsed(nodes, g);
      ghost var b, kb, vb := NodeBytes(nodes[..h]), ValueBytes(nodes[h].key), ValueBytes(nodes[h].val);
      NodeParts(kb, vb, b, more);
      var key := ReadValue(nodes[h].key, vb + (b + more));
      var v := ReadValue(nodes[h].val, b + more);
      t := TabSet(t0, key, v);
      MapParts(t0.hash, key, v, ReadNodes(nodes[..h]));
    }

    static lemma MapParts(m: map<Value, Value>, key: Value, v: Value, rest: map<Value, Value>)
      ensures m + (map[key := v] + rest) == m[key := v] + rest
    {
    }

    static lemma NodeParts(a: seq<int>, b: seq<int>, c: seq<int>, more: seq<int>)
      ensures (a + b + c) + more == a + (b + (c + more))
    {
    }

    ghost function ConstTag(c: Const): nat {
      match c
      case KStr(s) => KGC_STR + |s|
      case KTab(_) => KGC_TAB
      case KChild(_) => KGC_CHILD
    }

    ghost function ConstBody(c: Const): seq<int>
    {
      match c
      case KStr(s) => s
      case KTab(t) => TableBytes(t)
      case KChild(_) => []
    }

    lemma ConstParts(c: Const, more: seq<int>)
      requires ConstOk(c)
      ensures ConstTag(c) < U32 && ConstBytes(c) + more == Uleb(ConstTag(c)) + (ConstBody(c) + more)
      ensures c.KChild? ==> ConstBody(c) + more == more
    {
      NothingMore(Uleb(ConstTag(c)));
      NothingMore(more);
      Assoc3(Uleb(ConstTag(c)), ConstBody(c), more);
    }

    /** One constant; a child is popped from the stack. */
    method ReadConst(ghost c: Const, ghost strip: bool, ghost more: seq<int>) returns (ok: bool, r: ReadConst)
      requires Valid() && ConstOk(c) && left == ConstBytes(c) + more
      requires c.KChild? ==> stack != [] && stack[|stack| - 1] == Back(c.pt, strip)
      modifies this`p, this`n, this`left, this`stack
      ensures ok && Valid() && r == ConstBack(c, strip) && left == more
      ensures stack == if c.KChild? then old(stack)[..|old(stack)| - 1] else old(stack)
    {
      ConstParts(c, more);
      ok := true;
      r := RStr([]);
      var tp := ReadUleb(ConstTag(c), ConstBody(c) + more);
      if tp >= KGC_STR {
        var s := Mem(tp - KGC_STR);
        r := RStr(s);
      } else if tp == KGC_TAB {
        var t := ReadTab(c.t, more);
        r := RTab(t);
      } else {
        if |stack| == 0 {
          return false, r;
        }
        r := RChild(stack[|stack| - 1]);
        stack := stack[..|stack| - 1];
      }
    }

    static ghost function ConstsFrom(kgc: seq<Const>, i: nat): seq<int>
      requires i <= |kgc|
      decreases |kgc| - i
    {
      if i == |kgc| then [] else ConstBytes(kgc[i]) + ConstsFrom(kgc, i + 1)
    }

    static lemma ConstsSplit(kgc: seq<Const>, i: nat)
      requires i <= |kgc|
      ensures ConstsBytes(kgc) == ConstsBytes(kgc[..i]) + ConstsFrom(kgc, i)
      decreases |kgc| - i
    {
      if i == |kgc| {
        assert kgc[..i] == kgc;
        NothingMore(ConstsBytes(kgc));
      } else {
        ConstsSplit(kgc, i + 1);
        ConstsMore(kgc, i);
        Shifted(ConstsBytes(kgc), ConstsBytes(kgc[..i + 1]), ConstsBytes(kgc[..i]), ConstBytes(kgc[i]),
            ConstsFrom(kgc, i + 1));
      }
    }

    static lemma ConstsStart(kgc: seq<Const>)
      ensures ConstsBytes(kgc) == ConstsFrom(kgc, 0)
    {
      ConstsSplit(kgc, 0);
      NothingMore(ConstsFrom(kgc, 0));
      assert kgc[..0] == [];
    }

    /** The constants from i on are still to be read, and their children lie on the stack. */
    ghost predicate ConstsAhead(kgc: seq<Const>, i: nat, strip: bool, more: seq<int>)
      reads this
    {
      && i <= |kgc| && (forall k :: 0 <= k < |kgc| ==> ConstOk(kgc[k]))
      && Valid() && left == ConstsFrom(kgc, i) + more && OnTop(stack, kgc, i, strip)
    }

    method ReadNextConst(ghost kgc: seq<Const>, ghost i: nat, ghost strip: bool, ghost more: seq<int>)
                         returns (ok: bool, r: ReadConst)
      requires ConstsAhead(kgc, i, strip, more) && i < |kgc|
      modifies this`p, this`n, this`left, this`stack
      ensures ok && ConstsAhead(kgc, i + 1, strip, more) && r == ConstBack(kgc[i], strip)
      ensures Popped(stack, kgc, i + 1) == Popped(old(stack), kgc, i)
    {
      ghost var rest := ConstsFrom(kgc, i + 1);
      Assoc3(ConstBytes(kgc[i]), rest, more);
      ok, r := ReadConst(kgc[i], strip, rest + more);
    }

    /** What came back of the first n constants. */
    static ghost predicate AllBack(rs: seq<ReadConst>, kgc: seq<Const>, n: nat, strip: bool) {
      n <= |kgc| && |rs| == n && forall k {:trigger BackAt(rs, kgc, k, strip)} ::
          0 <= k < n ==> BackAt(rs, kgc, k, strip)
    }

    static ghost predicate BackAt(rs: seq<ReadConst>, kgc: seq<Const>, k: nat, strip: bool) {
      k < |kgc| && k < |rs| && rs[k] == ConstBack(kgc[k], strip)
    }

    static lemma OneMoreBack(rs: seq<ReadConst>, r: ReadConst, kgc: seq<Const>, n: nat, strip: bool)
      requires AllBack(rs, kgc, n, strip) && n < |kgc| && r == ConstBack(kgc[n], strip)
      ensures AllBack(rs + [r], kgc, n + 1, strip)
    {
      forall k | 0 <= k < n + 1 ensures BackAt(rs + [r], kgc, k, strip) {
        if k < n { assert BackAt(rs, kgc, k, strip); }
      }
    }

    /** bcread_kgc */
    method ReadConsts(sizekgc: nat, ghost kgc: seq<Const>, ghost strip: bool, ghost more: seq<int>)
                      returns (ok: bool, rs: seq<ReadConst>)
      requires sizekgc == |kgc| && ConstsAhead(kgc, 0, strip, more)
      modifies this`p, this`n, this`left, this`stack
      ensures ok && Valid() && left == more && stack == Popped(old(stack), kgc, 0) && AllBack(rs, kgc, |kgc|, strip)
      ensures |rs| == |kgc| && forall i :: 0 <= i < |kgc| ==> SameConst(kgc[i], rs[i])
    {
      ok, rs := true, [];
      var i := 0;
      while i < sizekgc
        invariant 0 <= i <= sizekgc && ok && ConstsAhead(kgc, i, strip, more)
        invariant Popped(stack, kgc, i) == Popped(old(stack), kgc, 0)
        invariant AllBack(rs, kgc, i, strip)
      {
        var r;
        ok, r := ReadNextConst(kgc, i, strip, more);
        if !ok {
          return;
        }
        OneMoreBack(rs, r, kgc, i, strip);
        rs := rs + [r];
        i := i + 1;
      }
      ConstsDone(kgc, strip, more);
      ConstsSame(rs, kgc, strip);
    }

    static lemma ConstsSame(rs: seq<ReadConst>, kgc: seq<Const>, strip: bool)
      requires AllBack(rs, kgc, |kgc|, strip) && forall k :: 0 <= k < |kgc| ==> ConstOk(kgc[k])
      ensures forall i :: 0 <= i < |kgc| ==> SameConst(kgc[i], rs[i])
    {
      forall i | 0 <= i < |kgc| ensures SameConst(kgc[i], rs[i]) {
        assert BackAt(rs, kgc, i, strip);
        ConstSame(kgc[i], strip);
      }
    }

    lemma ConstsDone(kgc: seq<Const>, strip: bool, more: seq<int>)
      requires ConstsAhead(kgc, |kgc|, strip, more)
      ensures Valid() && left == more && Popped(stack, kgc, |kgc|) == stack
    {
      NothingMore(more);
    }

    static ghost function NumbersFrom(kn: seq<Number>, i: nat): seq<int>
      requires i <= |kn|
      decreases |kn| - i
    {
      if i == |kn| then [] else NumberBytes(kn[i]) + NumbersFrom(kn, i + 1)
    }

    static lemma NumbersSplit(kn: seq<Number>, i: nat)
      requires i <= |kn|
      ensures NumbersBytes(kn) == NumbersBytes(kn[..i]) + NumbersFrom(kn, i)
      decreases |kn| - i
    {
      if i == |kn| {
        assert kn[..i] == kn;
        NothingMore(NumbersBytes(kn));
      } else {
        NumbersSplit(kn, i + 1);
        NumbersMore(kn, i);
        Shifted(NumbersBytes(kn), NumbersBytes(kn[..i + 1]), NumbersBytes(kn[..i]), NumberBytes(kn[i]),
            NumbersFrom(kn, i + 1));
      }
    }

    static lemma NumbersStart(kn: seq<Number>)
      ensures NumbersBytes(kn) == NumbersFrom(kn, 0)
    {
      NumbersSplit(kn, 0);
      NothingMore(NumbersFrom(kn, 0));
      assert kn[..0] == [];
    }

    method ReadNumber(ghost x: Number, ghost more: seq<int>) returns (o: Number)
      requires Valid() && NumberOk(x) && left == NumberBytes(x) + more
      modifies this`p, this`n, this`left
      ensures Valid() && o == x && left == more
    {
      ghost var u, tag, rest := NumberParts(x, more);
      o := ReadWords(x, u, tag, rest, more);
    }

    method ReadWords(ghost x: Number, ghost u: nat, ghost tag: nat, ghost rest: seq<int>, ghost more: seq<int>)
                     returns (o: Number)
      requires Valid() && NumberOk(x) && u < U32 && tag < 2 && left == Uleb(2 * u + tag) + rest && left[0] % 2 == tag
      requires if x.KInt? then tag == 0 && u == ToU32(x.k) && rest == more else tag == 1 && u == x.lo && rest == Uleb(x.hi) + more
      modifies this`p, this`n, this`left
      ensures Valid() && o == x && left == more
    {
      var first := First();
      var isnum := first % 2;
      var lo := ReadUleb33(u, tag, rest);
      if isnum == 1 {
        var hi := ReadUleb(x.hi, more);
        o := KNum(lo, hi);
      } else {
        o := KInt(ToInt(lo));
      }
    }

    static lemma NumberParts(x: Number, more: seq<int>) returns (u: nat, tag: nat, rest: seq<int>)
      requires NumberOk(x)
      ensures u < U32 && tag < 2 && NumberBytes(x) + more == Uleb(2 * u + tag) + rest
      ensures (NumberBytes(x) + more)[0] % 2 == tag
      ensures if x.KInt? then tag == 0 && u == ToU32(x.k) && rest == more else tag == 1 && u == x.lo && rest == Uleb(x.hi) + more
    {
      if x.KInt? {
        u, tag, rest := ToU32(x.k), 0, more;
      } else {
        u, tag, rest := x.lo, 1, Uleb(x.hi) + more;
        Assoc3(Uleb(2 * x.lo + 1), Uleb(x.hi), more);
      }
      RoundTrip33(u, tag);
      TailOf(Uleb(2 * u + tag), rest);
    }

    /** The numbers from i on are still to be read. */
    ghost predicate NumbersAhead(kn: seq<Number>, i: nat, more: seq<int>)
      reads this
    {
      i <= |kn| && (forall k :: 0 <= k < |kn| ==> NumberOk(kn[k])) && Valid() && left == NumbersFrom(kn, i) + more
    }

    lemma NumbersDone(kn: seq<Number>, more: seq<int>)
      requires NumbersAhead(kn, |kn|, more)
      ensures Valid() && left == more && kn[..|kn|] == kn
    {
      NothingMore(more);
    }

    method ReadNextNumber(ghost kn: seq<Number>, ghost i: nat, ghost more: seq<int>) returns (o: Number)
      requires NumbersAhead(kn, i, more) && i < |kn|
      modifies this`p, this`n, this`left
      ensures NumbersAhead(kn, i + 1, more) && o == kn[i]
    {
      ghost var rest := NumbersFrom(kn, i + 1);
      Assoc3(NumberBytes(kn[i]), rest, more);
      o := ReadNumber(kn[i], rest + more);
    }

    static lemma OneMore(kn: seq<Number>, i: nat)
      requires i < |kn|
      ensures kn[..i] + [kn[i]] == kn[..i + 1]
    {
    }

    /** bcread_knum */
    method ReadNumbers(sizekn: nat, ghost kn: seq<Number>, ghost more: seq<int>) returns (ns: seq<Number>)
      requires sizekn == |kn| && NumbersAhead(kn, 0, more)
      modifies this`p, this`n, this`left
      ensures Valid() && left == more && ns == kn
    {
      ns := [];
      var i := 0;
      while i < sizekn
        invariant 0 <= i <= sizekn && NumbersAhead(kn, i, more)
        invariant ns == kn[..i]
      {
        var o := ReadNextNumber(kn, i, more);
        OneMore(kn, i);
        ns := ns + [o];
        i := i + 1;
      }
      NumbersDone(kn, more);
    }

    // ---- Prototypes ----

    predicate Stripped()
      reads this
    {
      flags / F_STRIP % 2 == 1
    }

    static lemma Shift5(a: seq<int>, b: seq<int>, c: seq<int>, d: seq<int>, e: seq<int>, f: seq<int>)
      ensures (a + b + c + d + e) + f == a + (b + (c + (d + (e + f))))
    {
      Shift4(a, b, c, d, e + f);
      Assoc3(a + b + c + d, e, f);
    }

    /** The line numbers of the debug info. */
    method ReadDebugHead(ghost pt: Proto, ghost more: seq<int>) returns (sizedbg: nat, firstline: nat, numline: nat)
      requires Valid() && PlainOk(pt) && left == DebugHead(pt, false) + more
      modifies this`p, this`n, this`left
      ensures Valid() && left == more && sizedbg == |pt.debug|
      ensures firstline == (if pt.debug != [] then pt.firstline else 0) && numline == if pt.debug != [] then pt.numline
                else 0
    {
      ghost var rest := if pt.debug == [] then more else Uleb(pt.firstline) + (Uleb(pt.numline) + more);
      if pt.debug != [] { Shift3(Uleb(|pt.debug|), Uleb(pt.firstline), Uleb(pt.numline), more); }
      firstline, numline := 0, 0;
      sizedbg := ReadUleb(|pt.debug|, rest);
      if sizedbg > 0 {
        firstline := ReadUleb(pt.firstline, Uleb(pt.numline) + more);
        numline := ReadUleb(pt.numline, more);
      }
    }

    static lemma Shift3(a: seq<int>, b: seq<int>, c: seq<int>, d: seq<int>)
      ensures (a + b + c) + d == a + (b + (c + d))
    {
      Assoc3(a, b, c);
      Assoc3(b, c, d);
      Assoc3(a, b + c, d);
    }

    method ReadHead(ghost pt: Proto, ghost strip: bool, ghost more: seq<int>) returns (h: Head)
      requires Valid() && PlainOk(pt) && strip == Stripped() && left == HeadBytes(pt, strip) + more
      modifies this`p, this`n, this`left
      ensures Valid() && left == more && h == HeadOf(pt, strip)
    {
      ghost var a, b, c, d := [pt.flags % 8, pt.numparams, pt.framesize, |pt.uv| / 2], Uleb(|pt.kgc|), Uleb(|pt.kn|),
          Uleb(|pt.bc| / 4);
      ghost var e := DebugHead(pt, strip);
      Shift5(a, b, c, d, e, more);
      ghost var rest := b + (c + (d + (e + more)));
      var pflags, numparams, framesize, sizeuv := ReadFour(a, rest);
      var sizekgc := ReadUleb(|pt.kgc|, c + (d + (e + more)));
      var sizekn := ReadUleb(|pt.kn|, d + (e + more));
      var sizebc := ReadUleb(|pt.bc| / 4, e + more);
      sizebc := sizebc + 1;
      var sizedbg, firstline, numline: nat := 0, 0, 0;
      if flags / F_STRIP % 2 == 0 {
        sizedbg, firstline, numline := ReadDebugHead(pt, more);
      } else {
        NothingMore(more);
      }
      h := Head(pflags, numparams, framesize, sizeuv, sizekgc, sizekn, sizebc, sizedbg, firstline, numline);
    }

    method ReadFour(ghost s: seq<int>, ghost more: seq<int>) returns (a: int, b: int, c: int, d: int)
      requires Valid() && |s| == 4 && left == s + more
      modifies this`p, this`n, this`left
      ensures Valid() && left == more && [a, b, c, d] == s
    {
      a := Byte();
      b := Byte();
      c := Byte();
      d := Byte();
      assert (s + more)[1..][1..][1..][1..] == more;
    }

    /** A block of known bytes. */
    method Block(len: nat, ghost s: seq<int>, ghost more: seq<int>) returns (r: seq<int>)
      requires Valid() && len == |s| && left == s + more
      modifies this`p, this`n, this`left
      ensures Valid() && left == more && r == s
    {
      r := Mem(len);
    }

    static lemma Shift6(a: seq<int>, b: seq<int>, c: seq<int>, d: seq<int>, e: seq<int>, f: seq<int>, g: seq<int>)
      ensures (a + b + c + d + e + f) + g == a + (b + (c + (d + (e + (f + g)))))
    {
      Shift5(a, b, c, d, e, f + g);
      Assoc3(a + b + c + d + e, f, g);
    }

    /** Bytecode and upvalue references. */
    method ReadCode(h: Head, ghost pt: Proto, ghost strip: bool, ghost more: seq<int>)
                    returns (bc: seq<int>, uv: seq<int>)
      requires Valid() && PlainOk(pt) && h == HeadOf(pt, strip) && left == pt.bc + (pt.uv + more)
      modifies this`p, this`n, this`left
      ensures Valid() && left == more && bc == pt.bc && uv == pt.uv
    {
      bc := Block((h.sizebc - 1) * 4, pt.bc, pt.uv + more);
      uv := [];
      if h.sizeuv > 0 {
        uv := Block(h.sizeuv * 2, pt.uv, more);
      } else {
        NothingMore(more);
      }
    }

    method ReadDebug(h: Head, ghost pt: Proto, ghost strip: bool, ghost more: seq<int>) returns (debug: seq<int>)
      requires Valid() && h == HeadOf(pt, strip) && left == (if strip then [] else pt.debug) + more
      modifies this`p, this`n, this`left
      ensures Valid() && left == more && debug == if strip then [] else pt.debug
    {
      debug := [];
      if h.sizedbg > 0 {
        debug := Block(h.sizedbg, pt.debug, more);
      } else {
        NothingMore(more);
      }
    }

    static lemma BodyParts(pt: Proto, strip: bool, more: seq<int>)
      requires PlainOk(pt)
      ensures var cs, ns, dbg := ConstsFrom(pt.kgc, 0), NumbersFrom(pt.kn, 0), if strip then [] else pt.debug;
              Body(pt, strip) + more == HeadBytes(pt, strip) + (pt.bc + (pt.uv + (cs + (ns + (dbg + more)))))
    {
      ConstsStart(pt.kgc);
      NumbersStart(pt.kn);
      Shift6(HeadBytes(pt, strip), pt.bc, pt.uv, ConstsBytes(pt.kgc), NumbersBytes(pt.kn), if strip then []
          else pt.debug, more);
    }

    static lemma BackFrom(h: Head, pt: Proto, strip: bool, kgc: seq<ReadConst>)
      requires h == HeadOf(pt, strip) && AllBack(kgc, pt.kgc, |pt.kgc|, strip)
      ensures ReadProto(h.flags, h.numparams, h.framesize, pt.bc, pt.uv, kgc, pt.kn, h.firstline, h.numline, if strip
                then [] else pt.debug) == Back(pt, strip)
    {
      forall k | 0 <= k < |kgc| ensures kgc[k] == Back(pt, strip).kgc[k] {
        assert BackAt(kgc, pt.kgc, k, strip);
      }
    }

    /** The body of a prototype, behind its length. */
    method ReadBody(ghost pt: Proto, ghost strip: bool, ghost more: seq<int>) returns (ok: bool, r: ReadProto)
      requires Valid() && PlainOk(pt) && strip == Stripped() && left == Body(pt, strip) + more
                 && OnTop(stack, pt.kgc, 0, strip)
      modifies this`p, this`n, this`left, this`stack
      ensures ok && Valid() && left == more && r == Back(pt, strip) && stack == Popped(old(stack), pt.kgc, 0)
      ensures SamePlain(pt, r, strip)
    {
      ghost var cs, ns, dbg := ConstsFrom(pt.kgc, 0), NumbersFrom(pt.kn, 0), if strip then [] else pt.debug;
      BodyParts(pt, strip, more);
      var h := ReadHead(pt, strip, pt.bc + (pt.uv + (cs + (ns + (dbg + more)))));
      var bc, uv := ReadCode(h, pt, strip, cs + (ns + (dbg + more)));
      var kgc, kn, debug;
      ok, kgc := ReadConsts(h.sizekgc, pt.kgc, strip, ns + (dbg + more));
      r := ReadProto(0, 0, 0, [], [], [], [], 0, 0, []);
      if !ok {
        return;
      }
      kn := ReadNumbers(h.sizekn, pt.kn, dbg + more);
      debug := ReadDebug(h, pt, strip, more);
      r := ReadProto(h.flags, h.numparams, h.framesize, bc, uv, kgc, kn, h.firstline, h.numline, debug);
      BackFrom(h, pt, strip, kgc);
      PlainSame(pt, strip);
    }

    /** What the rest of the dump starts with: the length of the next body, or zero. */
    static lemma FlatParts(pts: seq<Proto>, strip: bool)
      requires AllPlain(pts, strip)
      ensures FlatBytes(pts, strip) + [0] == Uleb(NextLength(pts, strip)) + Behind(pts, strip)
      ensures pts == [] ==> Behind(pts, strip) == []
      ensures pts != [] ==>
                PlainOk(pts[0]) && 4 <= NextLength(pts, strip) < MAX_MEM
                && |Behind(pts, strip)| >= NextLength(pts, strip)
      ensures Uleb(NextLength(pts, strip))[0] == 0 <==> pts == []
    {
      if pts == [] {
        FlatNone(pts, strip);
        NothingMore([0]);
      } else {
        FlatNext(pts, strip);
        var body, rest := Body(pts[0], strip), FlatBytes(pts[1..], strip);
        Assoc3(Framed(body), rest, [0]);
        Assoc3(Uleb(|body|), body, rest + [0]);
      }
    }

    /** The length of the next body; the end is marked by a zero. */
    static ghost function NextLength(pts: seq<Proto>, strip: bool): nat {
      if pts == [] || !PlainOk(pts[0]) then 0 else |Body(pts[0], strip)|
    }

    /** What follows that length. */
    static ghost function Behind(pts: seq<Proto>, strip: bool): seq<int> {
      if pts == [] || !PlainOk(pts[0]) then [] else Body(pts[0], strip) + (FlatBytes(pts[1..], strip) + [0])
    }

    /** A number, all of whose digits are there if the rest of the input is. */
    method ReadLength(ghost v: nat, ghost more: seq<int>) returns (r: nat)
      requires Valid() && v < U32 && Rest() == Uleb(v) + more && (n >= 5 || left == Rest())
      modifies this`p, this`n, this`left
      ensures Valid() && r == v && Rest() == more
    {
      UlebLength(v);
      ghost var k, rest := |Uleb(v)|, Flat(chunks);
      ghost var behind := CutLeft(left, rest, Uleb(v), more);
      r := ReadUleb(v, behind);
    }

    /** If a prefix of left + rest is no longer than left, then it is one of left. */
    static lemma CutLeft(left: seq<int>, rest: seq<int>, head: seq<int>, more: seq<int>) returns (behind: seq<int>)
      requires left + rest == head + more && |head| <= |left|
      ensures left == head + behind && behind + rest == more
    {
      behind := left[|head|..];
      assert head == (head + more)[..|head|] == (left + rest)[..|head|] == left[..|head|];
      assert more == (head + more)[|head|..] == (left + rest)[|head|..] == behind + rest;
    }

    /**
     * bcread_proto: ok is false on an error, eof is true at the end of the dump.
     * With more to come, the next prototype comes back and its children are popped.
     */
    method ReadNextProto(ghost pts: seq<Proto>, ghost strip: bool) returns (ok: bool, eof: bool, r: ReadProto)
      requires Valid() && strip == Stripped() && AllPlain(pts, strip) && Rest() == FlatBytes(pts, strip) + [0]
      requires pts != [] ==> OnTop(stack, pts[0].kgc, 0, strip)
      modifies this`data, this`p, this`n, this`sb, this`chunks, this`current, this`left, this`stack
      ensures ok && Valid()
      ensures pts == [] ==> eof && Rest() == [] && stack == old(stack)
      ensures pts != [] ==>
                !eof && r == Back(pts[0], strip) && Rest() == FlatBytes(pts[1..], strip) + [0]
                && stack == Popped(old(stack), pts[0].kgc, 0)
    {
      ok, eof := true, false;
      r := ReadProto(0, 0, 0, [], [], [], [], 0, 0, []);
      FlatParts(pts, strip);
      ghost var len0, behind := NextLength(pts, strip), Behind(pts, strip);
      var first := 1;
      if n > 0 { first := First(); }
      if first == 0 {
        ReadEnd(len0, behind);
        eof := true;
        return;
      }
      Wanted(len0, behind);
      ok := WantBytes(5);
      if !ok {
        return;
      }
      var len := ReadLength(len0, behind);
      if len == 0 {
        eof := true;
        return;
      }
      ok, r := ReadSized(len, pts[0], strip, FlatBytes(pts[1..], strip) + [0]);
    }

    /** A body that must be as long as its length says. */
    method ReadSized(len: nat, ghost pt: Proto, ghost strip: bool, ghost more: seq<int>)
                     returns (ok: bool, r: ReadProto)
      requires Valid() && strip == Stripped() && PlainOk(pt) && len == |Body(pt, strip)| < MAX_MEM
      requires Rest() == Body(pt, strip) + more && OnTop(stack, pt.kgc, 0, strip)
      modifies this`data, this`p, this`n, this`sb, this`chunks, this`current, this`left, this`stack
      ensures ok && Valid() && r == Back(pt, strip) && Rest() == more && stack == Popped(old(stack), pt.kgc, 0)
    {
      r := ReadProto(0, 0, 0, [], [], [], [], 0, 0, []);
      ghost var body := Body(pt, strip);
      ok := NeedBytes(len);
      if !ok {
        return;
      }
      var startn := n;
      ghost var behind := CutLeft(left, Flat(chunks), body, more);
      ok, r := ReadBody(pt, strip, behind);
      if ok && len != startn - n {
        ok := false;
      }
    }

    /** The zero byte behind the last prototype. */
    method ReadEnd(ghost v: nat, ghost behind: seq<int>)
      requires Valid() && n > 0 && left[0] == 0 && Rest() == Uleb(v) + behind
      modifies this`p, this`n, this`left
      ensures Valid() && Uleb(v)[0] == 0 && (v == 0 ==> Rest() == behind)
    {
      SkipEnd(v, behind);
      var zero := Byte();
    }

    /** A zero byte ends the dump. */
    lemma SkipEnd(v: nat, behind: seq<int>)
      requires Valid() && n > 0 && left[0] == 0 && Rest() == Uleb(v) + behind
      ensures Uleb(v)[0] == 0
      ensures v == 0 ==> left[1..] + Flat(chunks) == behind
    {
      assert Rest()[0] == left[0];
      if v == 0 {
        assert Uleb(v) == [0];
        var b := CutLeft(left, Flat(chunks), [0], behind);
      }
    }

    /** Behind the end of the input nothing short of a number is left. */
    lemma Wanted(v: nat, behind: seq<int>)
      requires Valid() && Rest() == Uleb(v) + behind && (v > 0 ==> |behind| >= 4) && !(n > 0 && left[0] == 0)
      ensures n >= 5 || current >= 0
    {
      if current < 0 {
        AtEnd();
        assert Rest()[0] == Uleb(v)[0];
      }
    }

    // ---- Dumps ----

    /** bcread_header */
    method ReadHeader(ghost fl: nat, ghost name: seq<int>, ghost more: seq<int>) returns (ok: bool)
      requires Valid() && current == HEAD1 && fl < 8 && |name| < MAX_MEM
      requires Rest() == HeaderStart(fl, name) + ((if fl / F_STRIP % 2 == 1 then [] else name) + more)
      modifies this`data, this`p, this`n, this`sb, this`chunks, this`current, this`left, this`flags, this`chunkname
      ensures ok && Valid() && flags == fl && Rest() == more && chunkname == if fl / F_STRIP % 2 == 1 then chunkarg
                else name
    {
      ok := WantBytes(13);
      ghost var strip := fl / F_STRIP % 2 == 1;
      ghost var start, size := [HEAD2, HEAD3, VERSION, fl], if strip then [] else Uleb(|name|);
      if !strip { UlebLength(|name|); }
      ghost var behind := CutLeft(left, Flat(chunks), HeaderStart(fl, name), (if strip then [] else name) + more);
      Assoc3(start, size, behind);
      var a, b, c, d := ReadFour(start, size + behind);
      if a != HEAD2 || b != HEAD3 || c != VERSION {
        return false;
      }
      flags := d;
      if flags > 7 {
        return false;
      }
      if flags / F_STRIP % 2 == 1 {
        chunkname := chunkarg;
        NothingMore(behind);
        NothingMore(more);
      } else {
        ok := ReadName(name, behind, more);
      }
    }

    method ReadName(ghost name: seq<int>, ghost behind: seq<int>, ghost more: seq<int>) returns (ok: bool)
      requires Valid() && |name| < MAX_MEM && left == Uleb(|name|) + behind && behind + Flat(chunks) == name + more
      modifies this`data, this`p, this`n, this`sb, this`chunks, this`current, this`left, this`chunkname
      ensures ok && Valid() && Rest() == more && chunkname == name
    {
      var len := ReadUleb(|name|, behind);
      ok := NeedBytes(len);
      if ok {
        ghost var rest := CutLeft(left, Flat(chunks), name, more);
        chunkname := Mem(len);
      }
    }

    /** The part of the header that is there once 13 bytes were wanted. */
    static ghost function HeaderStart(fl: nat, name: seq<int>): seq<int> {
      [HEAD2, HEAD3, VERSION, fl] + if fl / F_STRIP % 2 == 1 then [] else Uleb(|name|)
    }

    /** A dump behind its first byte, which the lexer has read. */
    static lemma DumpParts(pt: Proto, name: seq<int>, strip: bool) returns (fl: nat)
      requires ProtoOk(pt, strip)
      ensures fl < 8 && (fl / F_STRIP % 2 == 1 <==> strip)
      ensures Dump(pt, name, strip)[1..] == HeaderStart(fl,
                name) + ((if strip then [] else name) + (FlatBytes(PostOrder(pt), strip) + [0]))
    {
      fl := (if strip then F_STRIP else 0) + (if pt.flags / 4 % 2 == 1 then F_FFI else 0);
      FlatTree(pt, strip);
      var text := if strip then [] else name;
      HeaderParts(pt, name, strip, fl);
      HeadCut(HeaderStart(fl, name), text, ProtoBytes(pt, strip), [0]);
    }

    static lemma HeaderParts(pt: Proto, name: seq<int>, strip: bool, fl: nat)
      requires fl == (if strip then F_STRIP else 0) + (if pt.flags / 4 % 2 == 1 then F_FFI else 0)
      ensures Header(pt, name, strip) == [HEAD1] + (HeaderStart(fl, name) + if strip then [] else name)
      ensures fl < 8 && (fl / F_STRIP % 2 == 1 <==> strip)
    {
      Assoc3([HEAD2, HEAD3, VERSION, fl], Uleb(|name|), name);
    }

    static lemma HeadCut(b: seq<int>, c: seq<int>, d: seq<int>, e: seq<int>)
      ensures (([HEAD1] + (b + c)) + d + e)[1..] == b + (c + (d + e))
    {
    }

    /** The prototypes pts are still to be read, and lead to the stack goal. */
    ghost predicate ProtosAhead(pts: seq<Proto>, goal: seq<ReadProto>, strip: bool)
      reads this
    {
      && Valid() && strip == Stripped() && AllPlain(pts, strip) && Rest() == FlatBytes(pts, strip) + [0]
      && Runs(stack, pts, goal, strip)
    }

    /** One prototype read and pushed, or the end. */
    method ReadAndPush(ghost pts: seq<Proto>, ghost goal: seq<ReadProto>, ghost strip: bool)
                       returns (ok: bool, eof: bool)
      requires ProtosAhead(pts, goal, strip)
      modifies this`data, this`p, this`n, this`sb, this`chunks, this`current, this`left, this`stack
      ensures ok && (eof <==> pts == [])
      ensures eof ==> Valid() && Rest() == [] && stack == goal
      ensures !eof ==> ProtosAhead(pts[1..], goal, strip)
    {
      var next;
      ok, eof, next := ReadNextProto(pts, strip);
      if ok && !eof {
        stack := stack + [next];
        PlainTail(pts, strip);
      }
    }

    /** All prototypes, up to the end of the dump. */
    method ReadProtos(ghost pts0: seq<Proto>, ghost goal: seq<ReadProto>, ghost strip: bool) returns (ok: bool)
      requires ProtosAhead(pts0, goal, strip)
      modifies this`data, this`p, this`n, this`sb, this`chunks, this`current, this`left, this`stack
      ensures ok && Valid() && Rest() == [] && stack == goal
    {
      ok := true;
      ghost var pts := pts0;
      while true
        invariant ok && ProtosAhead(pts, goal, strip)
        decreases |pts|
      {
        var eof;
        ok, eof := ReadAndPush(pts, goal, strip);
        if !ok || eof {
          break;
        }
        pts := pts[1..];
      }
    }

    /** The stack that reading the whole tree leads to. */
    static lemma TreeNetsOne(pt: Proto, stack: seq<ReadProto>, strip: bool)
      requires ProtoOk(pt, strip)
      ensures AllPlain(PostOrder(pt), strip) && Runs(stack, PostOrder(pt), stack + [Back(pt, strip)], strip)
    {
      FlatTree(pt, strip);
      SubtreeNetsOne(pt, stack, [], stack + [Back(pt, strip)], strip);
      assert PostOrder(pt) + [] == PostOrder(pt);
    }

    method Start()
      requires Valid()
      modifies this`sb
      ensures Valid()
    {
      Opened();
      sb := [];
    }

    /** A header and prototypes that lead to one more entry on the stack, which is popped. */
    method ReadAll(ghost fl: nat, ghost name: seq<int>, ghost pts: seq<Proto>, ghost top: ReadProto, ghost strip: bool)
                   returns (ok: bool, r: ReadProto)
      requires Valid() && current == HEAD1 && fl < 8 && (fl / F_STRIP % 2 == 1 <==> strip) && |name| < MAX_MEM
      requires Rest() == HeaderStart(fl, name) + ((if strip then [] else name) + (FlatBytes(pts, strip) + [0]))
      requires AllPlain(pts, strip) && Runs(stack, pts, stack + [top], strip)
      modifies this
      ensures ok && r == top && stack == old(stack)
      ensures Valid() && Rest() == [] && chunkname == if strip then chunkarg else name
    {
      r := ReadProto(0, 0, 0, [], [], [], [], 0, 0, []);
      var oldtop := |stack|;
      ghost var goal := stack + [top];
      Start();
      ok := ReadHeader(fl, name, FlatBytes(pts, strip) + [0]);
      if !ok {
        return;
      }
      ok := ReadProtos(pts, goal, strip);
      if !ok || n > 0 || |stack| - 1 != oldtop {
        return false, r;
      }
      r := stack[|stack| - 1];
      stack := stack[..|stack| - 1];
    }

    /**
     * lj_bcread: whatever chunks a dump comes in, the tree comes back, up to the
     * masked flags and what was stripped, and nothing stays on the stack.
     */
    method Read(ghost pt: Proto, ghost name: seq<int>, ghost strip: bool) returns (ok: bool, r: ReadProto)
      requires Valid() && current == HEAD1 && ProtoOk(pt, strip) && |name| < MAX_MEM
                 && Rest() == Dump(pt, name, strip)[1..]
      modifies this
      ensures ok && r == Back(pt, strip) && SameTree(pt, r, strip) && stack == old(stack)
      ensures Valid() && Rest() == [] && chunkname == if strip then chunkarg else name
    {
      ghost var fl := DumpParts(pt, name, strip);
      TreeNetsOne(pt, stack, strip);
      TreeSame(pt, strip);
      ok, r := ReadAll(fl, name, PostOrder(pt), Back(pt, strip), strip);
    }
  }
}
