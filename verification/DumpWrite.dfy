/**
 * The bytecode writer (lj_bcwrite.c): it fills a buffer that grows on demand,
 * patches bytes in it, and passes each prototype to a callback, children first.
 */
module DumpWrite {
  import opened Words
  import opened Uleb128
  import opened DumpFormat

  lemma Assoc(a: seq<int>, b: seq<int>, c: seq<int>)
    ensures (a + b) + c == a + (b + c)
  {
  }

  /** Writing a byte right behind the front of a buffer. */
  lemma Poke(head: seq<int>, buf: seq<int>, x: int)
    requires |head| < |buf|
    ensures (head + buf[|head|..])[|head| := x] == (head + [x]) + buf[|head| + 1..]
  {
  }

  // ---- The callback ----

  /** What the callback returns when it is called for the time i. */
  function Answer(answers: seq<int>, i: nat): int {
    if i < |answers| then answers[i] else 0
  }

  /** What the callback was given and the status, once all pieces are passed on that an error does not stop. */
  function After(answers: seq<int>, given: seq<seq<int>>, status: int, todo: seq<seq<int>>): (seq<seq<int>>, int)
    decreases |todo|
  {
    if status != 0 || todo == [] then (given, status)
    else After(answers, given + [todo[0]], Answer(answers, |given|), todo[1..])
  }

  lemma {:induction false} AfterBoth(answers: seq<int>, given: seq<seq<int>>, status: int, a: seq<seq<int>>,
                                     b: seq<seq<int>>)
    ensures var x := After(answers, given, status, a);
            After(answers, given, status, a + b) == After(answers, x.0, x.1, b)
    decreases |a|
  {
    if a == [] {
      assert a + b == b;
    } else if status == 0 {
      assert (a + b)[1..] == a[1..] + b;
      AfterBoth(answers, given + [a[0]], Answer(answers, |given|), a[1..], b);
    }
  }

  /** The first answer that is not zero ends the calls and is the status. */
  ghost predicate FirstError(answers: seq<int>, all: seq<seq<int>>, given: seq<seq<int>>, status: int) {
    && given <= all && (forall i :: 0 <= i < |given| - 1 ==> Answer(answers, i) == 0)
    && if status == 0 then given == all && forall i :: 0 <= i < |all| ==> Answer(answers, i) == 0
       else given != [] && Answer(answers, |given| - 1) == status
  }

  /** Calls that go on, as none has failed yet. */
  lemma {:induction false} FirstErrorStops(answers: seq<int>, all: seq<seq<int>>, k: nat)
    requires k <= |all| && forall i :: 0 <= i < k ==> Answer(answers, i) == 0
    ensures var x := After(answers, all[..k], 0, all[k..]); FirstError(answers, all, x.0, x.1)
    decreases |all| - k
  {
    if k < |all| {
      assert all[..k] + [all[k]] == all[..k + 1] && all[k..][1..] == all[k + 1..];
      if Answer(answers, k) == 0 { FirstErrorStops(answers, all, k + 1); }
    } else {
      assert all[..k] == all;
    }
  }

  /** The pieces that the callback gets: the header, the prototypes, and the end. */
  ghost function Pieces(pt: Proto, name: seq<int>, strip: bool): seq<seq<int>> {
    [Header(pt, name, strip)] + Mapped(Framer(strip), PostOrder(pt)) + [[0]]
  }

  /** Together they are the dump. */
  lemma PiecesDump(pt: Proto, name: seq<int>, strip: bool)
    requires ProtoOk(pt, strip)
    ensures Concat(Pieces(pt, name, strip)) == Dump(pt, name, strip)
  {
    FlatTree(pt, strip);
    var h, ps := [Header(pt, name, strip)], Mapped(Framer(strip), PostOrder(pt));
    ConcatBoth(h + ps, [[0]]);
    ConcatBoth(h, ps);
    assert Concat(h) == h[0] + Concat([]) && Concat([[0]]) == [0] + Concat([]);
  }

  class Writer {
    /** The buffer; its length is the allocated size. */
    var buf: seq<int>
    var n: nat
    const strip: bool
    var status: int
    /** What the callback answers, call by call. */
    const answers: seq<int>
    /** What it was given so far. */
    var given: seq<seq<int>>
    /** The used part of the buffer. */
    ghost var done: seq<int>

    ghost predicate Written(k: nat)
      reads this`buf, this`done
    {
      k < |done| && k < |buf| ==> buf[k] == done[k]
    }

    ghost predicate Valid()
      reads this`buf, this`n, this`done
    {
      n == |done| <= |buf| && |buf| >= 1024 && forall k {:trigger Written(k)} :: Written(k)
    }

    lemma Opened()
      requires Valid()
      ensures buf[..n] == done
    {
      forall k | 0 <= k < n ensures buf[k] == done[k] { assert Written(k); }
    }

    lemma Closed()
      requires n == |done| <= |buf| && |buf| >= 1024 && buf[..n] == done
      ensures Valid()
    {
      forall k: nat ensures Written(k) { assert k < n ==> buf[..n][k] == buf[k]; }
    }

    constructor (strip: bool, answers: seq<int>)
      ensures Valid() && this.strip == strip && this.answers == answers && status == 0 && given == [] && done == []
    {
      this.strip, this.answers := strip, answers;
      buf, n, status, given, done := seq(1024, i => 0), 0, 0, [], [];
    }

    // ---- Output buffer ----

    /** bcwrite_resize */
    method Resize(len: nat)
      requires Valid()
      modifies this`buf
      ensures Valid() && n + len <= |buf|
    {
      var sz := |buf| * 2;
      while n + len > sz
        invariant sz > 0 && sz >= |buf|
        decreases n + len - sz
      {
        sz := sz * 2;
      }
      Opened();
      ghost var buf0 := buf;
      buf := buf + seq(sz - |buf|, i => 0);
      assert buf[..n] == buf0[..n];
      Closed();
    }

    /** bcwrite_need */
    method Need(len: nat)
      requires Valid()
      modifies this`buf
      ensures Valid() && n + len <= |buf| && |buf| >= old(|buf|)
    {
      if n + len > |buf| {
        Resize(len);
      }
    }

    /** s was appended, within the buffer. */
    twostate predicate Appends(s: seq<int>)
      reads this
    {
      Valid() && done == old(done) + s && |buf| == old(|buf|)
    }

    /** bcwrite_block */
    method Block(p: seq<int>)
      requires Valid() && n + |p| <= |buf|
      modifies this`buf, this`n, this`done
      ensures Appends(p)
    {
      Opened();
      var q := n;
      n := n + |p|;
      var i := 0;
      while i < |p|
        invariant 0 <= i <= |p| && |buf| == old(|buf|) && q == |done| && done == old(done) && n == q + |p|
        invariant buf[..q] == done && forall k :: 0 <= k < i ==> buf[q + k] == p[k]
      {
        buf := buf[q + i := p[i]];
        i := i + 1;
      }
      done := done + p;
      Closed();
    }

    /** bcwrite_byte */
    method Byte(b: int)
      requires Valid() && n < |buf|
      modifies this`buf, this`n, this`done
      ensures Appends([b])
    {
      Opened();
      ghost var head := buf[..n];
      buf := buf[n := b];
      n := n + 1;
      done := done + [b];
      assert buf[..n] == head + [b];
      Closed();
    }

    /** bcwrite_uleb128; nothing behind the number changes. */
    method WriteUleb(v0: nat)
      requires Valid() && n + |Uleb(v0)| <= |buf|
      modifies this`buf, this`n, this`done
      ensures Appends(Uleb(v0)) && buf[n..] == old(buf)[n..]
    {
      Opened();
      var v, m := v0, n;
      ghost var head, buf0 := done, buf;
      while v >= 0x80
        invariant n == old(n) && done == old(done) && m == |head| && m + |Uleb(v)| <= |buf0|
        invariant head + Uleb(v) == done + Uleb(v0) && buf == head + buf0[m..]
        decreases v
      {
        ghost var digit := v % 0x80 + 0x80;
        Poke(head, buf0, digit);
        buf := buf[m := v % 0x80 + 0x80];
        m := m + 1;
        Assoc(head, [digit], Uleb(v / 0x80));
        head := head + [digit];
        v := v / 0x80;
      }
      Poke(head, buf0, v);
      buf := buf[m := v];
      n := m + 1;
      done := head + [v];
      Closed();
    }

    // ---- Constants ----

    /** bcwrite_ktabk */
    method WriteValue(o: Value)
      requires Valid() && ValueOk(o)
      modifies this`buf, this`n, this`done
      ensures Valid() && done == old(done) + ValueBytes(o) && |buf| >= old(|buf|)
    {
      Need(1 + 10);
      match o
      case Str(s) =>
        Need(5 + |s|);
        UlebLength(KTAB_STR + |s|);
        WriteUleb(KTAB_STR + |s|);
        Block(s);
        Assoc(old(done), Uleb(KTAB_STR + |s|), s);
      case Int(k) =>
        UlebLength(ToU32(k));
        Byte(KTAB_INT);
        WriteUleb(ToU32(k));
        Assoc(old(done), [KTAB_INT], Uleb(ToU32(k)));
      case Num(lo, hi) =>
        WriteWords(lo, hi);
      case Nil =>
        Byte(KTAB_NIL);
      case False =>
        Byte(KTAB_FALSE);
      case True =>
        Byte(KTAB_TRUE);
    }

    method WriteWords(lo: nat, hi: nat)
      requires Valid() && lo < U32 && hi < U32 && n + 11 <= |buf|
      modifies this`buf, this`n, this`done
      ensures Appends([KTAB_NUM] + Uleb(lo) + Uleb(hi))
    {
      UlebLength(lo);
      UlebLength(hi);
      Byte(KTAB_NUM);
      WriteUleb(lo);
      WriteUleb(hi);
      Assoc(old(done), [KTAB_NUM], Uleb(lo));
      Assoc(old(done), [KTAB_NUM] + Uleb(lo), Uleb(hi));
    }

    /** The sizes of the array part and of the hash part of a template table. */
    method CountTable(t: Table) returns (narray: nat, nhash: nat)
      ensures narray == ArrayLen(t.arr) && nhash == NodesUsed(HashNodes(t))
    {
      narray, nhash := 0, 0;
      if |t.arr| > 0 {
        var i := |t.arr| - 1;
        assert t.arr[..i + 1] == t.arr;
        while i >= 0 && t.arr[i] == Nil
          invariant -1 <= i < |t.arr| && ArrayLen(t.arr[..i + 1]) == ArrayLen(t.arr)
        {
          assert t.arr[..i + 1][..i] == t.arr[..i];
          i := i - 1;
        }
        narray := i + 1;
      }
      if |t.nodes| > 1 {
        var i := 0;
        while i < |t.nodes|
          invariant 0 <= i <= |t.nodes| && nhash == NodesUsed(t.nodes[..i])
        {
          assert t.nodes[..i + 1][..i] == t.nodes[..i];
          if t.nodes[i].val != Nil { nhash := nhash + 1; }
          i := i + 1;
        }
        assert t.nodes[..|t.nodes|] == t.nodes;
      }
    }

    /** bcwrite_ktab */
    method WriteTable(t: Table)
      requires Valid() && TableOk(t) && n + 2 * 5 <= |buf|
      modifies this`buf, this`n, this`done
      ensures Valid() && done == old(done) + TableBytes(t)
    {
      var narray, nhash := CountTable(t);
      UlebLength(narray);
      UlebLength(nhash);
      WriteUleb(narray);
      WriteUleb(nhash);
      ghost var d := done;
      if narray > 0 {
        WriteArray(t.arr[..narray]);
      }
      assert done == d + ArrayBytes(t.arr[..narray]);
      if nhash > 0 {
        WriteNodes(t.nodes, nhash);
      } else {
        NothingUsed(HashNodes(t));
      }
      TableAssoc(old(done), Uleb(narray), Uleb(nhash), ArrayBytes(t.arr[..narray]), NodeBytes(HashNodes(t)));
    }

    lemma TableAssoc(d: seq<int>, a: seq<int>, b: seq<int>, c: seq<int>, e: seq<int>)
      ensures (((d + a) + b) + c) + e == d + (a + b + c + e)
    {
    }

    method WriteArray(a: seq<Value>)
      requires Valid() && forall i :: 0 <= i < |a| ==> ValueOk(a[i])
      modifies this`buf, this`n, this`done
      ensures Valid() && done == old(done) + ArrayBytes(a)
    {
      var i := 0;
      assert a[..0] == [];
      while i < |a|
        invariant 0 <= i <= |a| && Valid() && done == old(done) + ArrayBytes(a[..i])
      {
        WriteValue(a[i]);
        ArrayMore(a, i);
        Assoc(old(done), ArrayBytes(a[..i]), ValueBytes(a[i]));
        i := i + 1;
      }
      assert a[..|a|] == a;
    }

    lemma NothingUsed(nodes: seq<Node>)
      requires NodesUsed(nodes) == 0
      ensures NodeBytes(nodes) == []
    {
      if nodes != [] { NothingUsed(nodes[..|nodes| - 1]); }
    }

    /** One slot of the hash part. */
    lemma NodeStep(nodes: seq<Node>, i: nat)
      requires i < |nodes|
      ensures NodesUsed(nodes[..i + 1]) == NodesUsed(nodes[..i]) + if nodes[i].val != Nil then 1 else 0
      ensures NodeBytes(nodes[..i + 1])
           == (if nodes[i].val != Nil then ValueBytes(nodes[i].key) + ValueBytes(nodes[i].val)
               else []) + NodeBytes(nodes[..i])
    {
      assert nodes[..i + 1][..i] == nodes[..i];
    }

    /** The used slots of a hash part, from the last one on, until all were met. */
    method WriteNodes(nodes: seq<Node>, nhash: nat)
      requires Valid() && forall i :: 0 <= i < |nodes| ==> ValueOk(nodes[i].key) && ValueOk(nodes[i].val)
      requires nhash == NodesUsed(nodes) > 0
      modifies this`buf, this`n, this`done
      ensures Valid() && done == old(done) + NodeBytes(nodes)
    {
      var i, node := nhash, |nodes| - 1;
      assert nodes[..node + 1] == nodes;
      while true
        invariant 0 <= node < |nodes| && 0 < i == NodesUsed(nodes[..node + 1])
        invariant Valid() && done + NodeBytes(nodes[..node + 1]) == old(done) + NodeBytes(nodes)
        decreases node
      {
        NodeStep(nodes, node);
        if nodes[node].val != Nil {
          WriteNode(nodes[node], NodeBytes(nodes[..node]));
          i := i - 1;
          if i == 0 {
            NothingUsed(nodes[..node]);
            assert done + [] == done;
            break;
          }
        } else {
          assert [] + NodeBytes(nodes[..node]) == NodeBytes(nodes[..node]);
        }
        node := node - 1;
      }
    }

    method WriteNode(node: Node, ghost rest: seq<int>)
      requires Valid() && ValueOk(node.key) && ValueOk(node.val)
      modifies this`buf, this`n, this`done
      ensures Valid() && done + rest == old(done) + ((ValueBytes(node.key) + ValueBytes(node.val)) + rest)
    {
      WriteValue(node.key);
      WriteValue(node.val);
      Assoc(old(done), ValueBytes(node.key), ValueBytes(node.val));
      Assoc(old(done), ValueBytes(node.key) + ValueBytes(node.val), rest);
    }

    /** bcwrite_kgc */
    method WriteConsts(kgc: seq<Const>)
      requires Valid() && forall i :: 0 <= i < |kgc| ==> ConstOk(kgc[i])
      modifies this`buf, this`n, this`done
      ensures Valid() && done == old(done) + ConstsBytes(kgc)
    {
      var i := 0;
      while i < |kgc|
        invariant 0 <= i <= |kgc| && Valid() && done == old(done) + ConstsBytes(kgc[..i])
      {
        WriteConst(kgc[i]);
        ConstsMore(kgc, i);
        Assoc(old(done), ConstsBytes(kgc[..i]), ConstBytes(kgc[i]));
        i := i + 1;
      }
      assert kgc[..|kgc|] == kgc;
    }

    method WriteConst(o: Const)
      requires Valid() && ConstOk(o)
      modifies this`buf, this`n, this`done
      ensures Valid() && done == old(done) + ConstBytes(o)
    {
      var tp, need := 0, 1;
      match o {
        case KStr(s) => tp, need := KGC_STR + |s|, 5 + |s|;
        case KChild(_) => tp := KGC_CHILD;
        case KTab(_) => tp, need := KGC_TAB, 1 + 2 * 5;
      }
      Need(need);
      UlebLength(tp);
      WriteUleb(tp);
      match o {
        case KStr(s) =>
          Block(s);
          Assoc(old(done), Uleb(tp), s);
        case KTab(t) =>
          WriteTable(t);
          Assoc(old(done), Uleb(tp), TableBytes(t));
        case KChild(_) =>
      }
    }

    /** A 33-bit number: the last byte is patched if bit 31 of u is set. */
    method WriteUleb33(u: nat, tag: nat)
      requires Valid() && u < U32 && tag < 2 && n + 5 <= |buf|
      modifies this`buf, this`n, this`done
      ensures Appends(Uleb(2 * u + tag))
    {
      Patched33(u, tag);
      UlebLength(Low33(u, tag));
      WriteUleb(Low33(u, tag));
      if u >= SIGN {
        ghost var s := Uleb(Low33(u, tag));
        Opened();
        ghost var front := buf[..n];
        buf := buf[n - 1 := PatchLast(buf[n - 1], u)];
        done := old(done) + s[4 := PatchLast(s[4], u)];
        assert buf[..n] == front[n - 1 := buf[n - 1]] == done;
        Closed();
      }
    }

    /** bcwrite_knum */
    method WriteNumbers(kn: seq<Number>)
      requires Valid() && forall i :: 0 <= i < |kn| ==> NumberOk(kn[i])
      modifies this`buf, this`n, this`done
      ensures Valid() && done == old(done) + NumbersBytes(kn)
    {
      Need(10 * |kn|);
      var i := 0;
      while i < |kn|
        invariant 0 <= i <= |kn| && Valid() && done == old(done) + NumbersBytes(kn[..i])
        invariant n + 10 * (|kn| - i) <= |buf|
      {
        WriteNumber(kn[i]);
        NumbersMore(kn, i);
        Assoc(old(done), NumbersBytes(kn[..i]), NumberBytes(kn[i]));
        i := i + 1;
      }
      assert kn[..|kn|] == kn;
    }

    method WriteNumber(o: Number)
      requires Valid() && NumberOk(o) && n + 10 <= |buf|
      modifies this`buf, this`n, this`done
      ensures Appends(NumberBytes(o)) && n <= old(n) + 10
    {
      match o
      case KInt(k) =>
        UlebLength(2 * ToU32(k));
        WriteUleb33(ToU32(k), 0);
      case KNum(lo, hi) =>
        UlebLength(2 * lo + 1);
        UlebLength(hi);
        WriteUleb33(lo, 1);
        WriteUleb(hi);
        Assoc(old(done), Uleb(2 * lo + 1), Uleb(hi));
    }

    // ---- Prototypes ----

    /** The prototype header. */
    method WriteHead(pt: Proto)
      requires Valid() && PlainOk(pt) && n + 4 + 6 * 5 <= |buf|
      modifies this`buf, this`n, this`done
      ensures Appends(HeadBytes(pt, strip)) && n <= old(n) + 4 + 6 * 5
    {
      Byte(pt.flags % 8);
      Byte(pt.numparams);
      Byte(pt.framesize);
      Byte(|pt.uv| / 2);
      assert done == old(done) + [pt.flags % 8, pt.numparams, pt.framesize, |pt.uv| / 2];
      WriteSizes(|pt.kgc|, |pt.kn|, |pt.bc| / 4);
      ghost var d := done;
      if !strip {
        WriteDebugHead(|pt.debug|, pt.firstline, pt.numline);
      }
      assert done == d + DebugHead(pt, strip);
      HeadAssoc(old(done), [pt.flags % 8, pt.numparams, pt.framesize, |pt.uv| / 2], Uleb(|pt.kgc|), Uleb(|pt.kn|),
          Uleb(|pt.bc| / 4),
                DebugHead(pt, strip));
    }

    lemma HeadAssoc(d: seq<int>, a: seq<int>, b: seq<int>, c: seq<int>, e: seq<int>, f: seq<int>)
      ensures ((d + a) + (b + c + e)) + f == d + (a + b + c + e + f)
    {
      assert a + (b + c + e) == a + b + c + e;
    }

    method WriteSizes(a: nat, b: nat, c: nat)
      requires Valid() && a < U32 && b < U32 && c < U32 && n + 15 <= |buf|
      modifies this`buf, this`n, this`done
      ensures Appends(Uleb(a) + Uleb(b) + Uleb(c)) && n <= old(n) + 15
    {
      UlebLength(a);
      UlebLength(b);
      UlebLength(c);
      WriteUleb(a);
      WriteUleb(b);
      WriteUleb(c);
      Assoc(old(done), Uleb(a), Uleb(b));
      Assoc(old(done), Uleb(a) + Uleb(b), Uleb(c));
    }

    method WriteDebugHead(sizedbg: nat, firstline: nat, numline: nat)
      requires Valid() && sizedbg < U32 && firstline < U32 && numline < U32 && n + 15 <= |buf|
      modifies this`buf, this`n, this`done
      ensures Appends(if sizedbg == 0 then Uleb(0) else Uleb(sizedbg) + Uleb(firstline) + Uleb(numline))
                && n <= old(n) + 15
    {
      UlebLength(sizedbg);
      WriteUleb(sizedbg);
      if sizedbg > 0 {
        UlebLength(firstline);
        UlebLength(numline);
        WriteUleb(firstline);
        WriteUleb(numline);
        Assoc(old(done), Uleb(sizedbg), Uleb(firstline));
        Assoc(old(done), Uleb(sizedbg) + Uleb(firstline), Uleb(numline));
      }
    }

    /** The body of a prototype, behind the room for its length. */
    method WriteBody(pt: Proto)
      requires Valid() && PlainOk(pt)
      modifies this`buf, this`n, this`done
      ensures Valid() && |done| >= 5 && done[5..] == Body(pt, strip)
    {
      n := 5;
      done := buf[..5];
      Closed();
      ghost var room := done;
      Need(4 + 6 * 5 + |pt.bc| + |pt.uv|);
      var sizedbg := if strip then 0 else |pt.debug|;
      WriteHead(pt);
      Block(pt.bc);
      Block(pt.uv);
      WriteConsts(pt.kgc);
      WriteNumbers(pt.kn);
      ghost var d := done;
      if sizedbg > 0 {
        Need(sizedbg);
        Block(pt.debug);
      }
      assert done == d + if strip then [] else pt.debug;
      BodyAssoc(room, HeadBytes(pt, strip), pt.bc, pt.uv, ConstsBytes(pt.kgc), NumbersBytes(pt.kn), if strip then []
          else pt.debug);
    }

    lemma BodyAssoc(r: seq<int>, a: seq<int>, b: seq<int>, c: seq<int>, d: seq<int>, e: seq<int>, f: seq<int>)
      requires |r| == 5
      ensures (r + a + b + c + d + e + f)[5..] == a + b + c + d + e + f
    {
      assert r + a + b + c + d + e + f == r + (a + b + c + d + e + f) by {
        Assoc(r, a, b);
        Assoc(r, a + b, c);
        Assoc(r, a + b + c, d);
        Assoc(r, a + b + c + d, e);
        Assoc(r, a + b + c + d + e, f);
      }
    }

    /** The callback was given these pieces, as far as none of its answers stopped it. */
    twostate predicate Called(todo: seq<seq<int>>)
      reads this
    {
      (given, status) == After(answers, old(given), old(status), todo)
    }

    /** wfunc */
    method Call(piece: seq<int>)
      modifies this`given, this`status
      ensures given == old(given) + [piece] && status == Answer(answers, |old(given)|)
    {
      status := Answer(answers, |given|);
      given := given + [piece];
    }

    /** Fill in the length and pass the buffer to the callback. */
    method PassOn(ghost body: seq<int>)
      requires Valid() && |done| >= 5 && done[5..] == body && 0 < |body| && |body| + 5 < U32
      modifies this
      ensures Valid() && Called([Framed(body)])
    {
      if status == 0 {
        var m := n - 5;
        var nn := LengthBytes(m);
        FillLength(m, nn, body);
        Call(buf[5 - nn..5 + m]);
      }
    }

    /** The bytes of the length, in closed form. */
    static method LengthBytes(m: nat) returns (nn: nat)
      requires 0 < m < U32
      ensures nn == |Uleb(m)| <= 5
    {
      nn := (Fls(m) + 8) * 9 / 64;
      PrefixLength(m);
      UlebLength(m);
    }

    /** The length, right before the body. */
    method FillLength(m: nat, nn: nat, ghost body: seq<int>)
      requires Valid() && n == 5 + m && done[5..] == body && nn == |Uleb(m)| <= 5
      modifies this`buf, this`n, this`done
      ensures Valid() && n == 5 && |buf| == old(|buf|) && 5 + m <= |buf| && buf[5 - nn..5 + m] == Framed(body)
    {
      Opened();
      ghost var buf0 := buf;
      n := 5 - nn;
      done := buf[..n];
      Closed();
      WriteUleb(m);
      Opened();
      LengthBefore(buf0, buf, buf0[..5 - nn], Uleb(m), m, body);
    }

    lemma LengthBefore(buf0: seq<int>, buf: seq<int>, front: seq<int>, len: seq<int>, m: nat, body: seq<int>)
      requires |front| + |len| == 5 && 5 + m <= |buf0| == |buf| && buf0[..5 + m][5..] == body
      requires buf[..5] == front + len && buf[5..] == buf0[5..]
      ensures buf[|front|..5 + m] == len + body
    {
      assert buf[5..5 + m] == buf[5..][..m] == buf0[5..][..m] == body;
      assert buf[|front|..5] == buf[..5][|front|..] == len;
    }

    /** The pieces for the children among the first i constants. */
    ghost function ChildPieces(pt: Proto, i: nat): seq<seq<int>>
      requires i <= |pt.kgc|
    {
      Mapped(Framer(strip), ChildrenOrder(pt, i))
    }

    /** The children, from the last constant to the first. */
    method WriteChildren(pt: Proto)
      requires Valid() && ProtoOk(pt, strip)
      modifies this
      ensures Valid() && Called(ChildPieces(pt, |pt.kgc|))
      decreases pt, 0, 1
    {
      var i := |pt.kgc|;
      ghost var goal := After(answers, given, status, ChildPieces(pt, i));
      while i > 0
        invariant 0 <= i <= |pt.kgc| && Valid() && After(answers, given, status, ChildPieces(pt, i)) == goal
      {
        WriteChild(pt, i);
        i := i - 1;
      }
      NoneLeft(pt, given, status);
    }

    lemma NoneLeft(pt: Proto, g: seq<seq<int>>, st: int)
      ensures After(answers, g, st, ChildPieces(pt, 0)) == (g, st)
    {
      assert ChildPieces(pt, 0) == [];
    }

    /** A constant, if it is a child. */
    method WriteChild(pt: Proto, i: nat)
      requires Valid() && ProtoOk(pt, strip) && 0 < i <= |pt.kgc|
      modifies this
      ensures Valid()
      ensures After(answers, given, status, ChildPieces(pt, i - 1))
           == After(answers, old(given), old(status), ChildPieces(pt, i))
      decreases pt, 0, 0
    {
      assert PartOk(pt, strip, i);
      var o := pt.kgc[i - 1];
      ghost var rest := ChildrenOrder(pt, i - 1);
      if o.KChild? {
        MappedBoth(Framer(strip), PostOrder(o.pt), rest);
        AfterBoth(answers, given, status, Mapped(Framer(strip), PostOrder(o.pt)), ChildPieces(pt, i - 1));
        WriteProto(o.pt);
      } else {
        assert [] + rest == rest;
      }
    }

    /** bcwrite_proto: the children first */
    method WriteProto(pt: Proto)
      requires Valid() && ProtoOk(pt, strip)
      modifies this
      ensures Valid() && Called(Mapped(Framer(strip), PostOrder(pt)))
      decreases pt, 1
    {
      assert PartOk(pt, strip, 0);
      OwnPiece(pt, given, status);
      if pt.flags % 2 == PROTO_CHILD {
        WriteChildren(pt);
      } else {
        NoChildren(pt, |pt.kgc|);
      }
      WriteBody(pt);
      PassOn(Body(pt, strip));
    }

    /** The children come before the prototype itself. */
    lemma OwnPiece(pt: Proto, g: seq<seq<int>>, st: int)
      requires PlainOk(pt)
      ensures var x := After(answers, g, st, ChildPieces(pt, |pt.kgc|));
              After(answers, g, st, Mapped(Framer(strip), PostOrder(pt)))
              == After(answers, x.0, x.1, [Framed(Body(pt, strip))])
    {
      MappedBoth(Framer(strip), ChildrenOrder(pt, |pt.kgc|), [pt]);
      assert Mapped(Framer(strip), [pt]) == [Framed(Body(pt, strip))];
      AfterBoth(answers, g, st, ChildPieces(pt, |pt.kgc|), [Framed(Body(pt, strip))]);
    }

    lemma NoChildren(pt: Proto, i: nat)
      requires ProtoOk(pt, strip) && pt.flags % 2 == 0 && i <= |pt.kgc|
      ensures ChildrenOrder(pt, i) == []
    {
      assert PartOk(pt, strip, 0);
      if i > 0 { NoChildren(pt, i - 1); }
    }

    /** bcwrite_header */
    method WriteHeader(pt: Proto, name: seq<int>)
      requires Valid() && IsBytes(name)
      modifies this
      ensures Valid() && given == old(given) + [Header(pt, name, strip)] && status == Answer(answers, |old(given)|)
    {
      n := 0;
      done := [];
      Closed();
      Need(5 + 5 + |name|);
      WriteStart(pt);
      ghost var d := done;
      if !strip {
        UlebLength(|name|);
        WriteUleb(|name|);
        Block(name);
        Assoc(d, Uleb(|name|), name);
      }
      Opened();
      assert done == Header(pt, name, strip);
      Call(buf[..n]);
    }

    method WriteStart(pt: Proto)
      requires Valid() && n + 5 <= |buf|
      modifies this`buf, this`n, this`done
      ensures Appends([HEAD1, HEAD2, HEAD3, VERSION,
                (if strip then F_STRIP else 0) + (if pt.flags / 4 % 2 == 1 then F_FFI else 0)])
    {
      Byte(HEAD1);
      Byte(HEAD2);
      Byte(HEAD3);
      Byte(VERSION);
      Byte((if strip then F_STRIP else 0) + (if pt.flags / 4 % 2 == 1 then F_FFI else 0));
    }

    /** bcwrite_footer */
    method WriteFooter()
      requires Valid()
      modifies this
      ensures Valid() && Called([[0]])
    {
      if status == 0 {
        Call([0]);
      }
    }

    /**
     * lj_bcwrite: the callback gets the pieces of the dump in order, up to the first one that it refuses;
     * its answer to that one is the status.
     */
    method Write(pt: Proto, name: seq<int>)
      requires Valid() && ProtoOk(pt, strip) && IsBytes(name) && given == [] && status == 0
      modifies this
      ensures FirstError(answers, Pieces(pt, name, strip), given, status)
      ensures Concat(Pieces(pt, name, strip)) == Dump(pt, name, strip)
    {
      ghost var h, ps := [Header(pt, name, strip)], Mapped(Framer(strip), PostOrder(pt));
      AfterBoth(answers, [], 0, h, ps);
      AfterBoth(answers, [], 0, h + ps, [[0]]);
      FirstErrorStops(answers, Pieces(pt, name, strip), 0);
      PiecesDump(pt, name, strip);
      WriteHeader(pt, name);
      assert given == [] + h;
      WriteProto(pt);
      WriteFooter();
    }
  }
}
