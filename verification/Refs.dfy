/**
 * References to values in a table (luaL_ref and luaL_unref in lib_aux.c): freed
 * references form a list through the table itself, from slot 0.
 */
module Refs {
  datatype Value = Nil | Int(n: int) | Object(id: int)

  const REFNIL: int := -1

  /** A table's slots; what is absent is nil. */
  function Get(t: map<int, Value>, k: int): Value {
    if k in t then t[k] else Nil
  }

  function Set(t: map<int, Value>, k: int, v: Value): map<int, Value> {
    if v == Nil then t - {k} else t[k := v]
  }

  /** What the length operator may return. */
  predicate IsBorder(t: map<int, Value>, n: int) {
    n >= 0 && (n > 0 ==> Get(t, n) != Nil) && Get(t, n + 1) == Nil
  }

  /** From slot k on the table links the free references in turn. */
  ghost predicate Chain(t: map<int, Value>, k: int, free: seq<int>)
    decreases |free|
  {
    if free == [] then Get(t, k) == Nil
    else Get(t, k) == Int(free[0]) && Chain(t, free[0], free[1..])
  }

  ghost predicate Distinct(free: seq<int>) {
    forall i, j :: 0 <= i < j < |free| ==> free[i] != free[j]
  }

  /** Changes to other slots leave the list alone. */
  lemma {:induction false} ChainKept(t: map<int, Value>, t': map<int, Value>, k: int, free: seq<int>)
    requires Chain(t, k, free) && Get(t', k) == Get(t, k) && forall i ::
               0 <= i < |free| ==> Get(t', free[i]) == Get(t, free[i])
    ensures Chain(t', k, free)
    decreases |free|
  {
    if free != [] {
      assert forall i :: 0 <= i < |free| - 1 ==> free[1..][i] == free[i + 1];
      ChainKept(t, t', free[0], free[1..]);
    }
  }

  /** A list that starts from another slot with the same link. */
  lemma ChainMoved(t: map<int, Value>, t': map<int, Value>, k: int, k': int, free: seq<int>)
    requires Chain(t, k, free) && Get(t', k') == Get(t, k) && forall i ::
               0 <= i < |free| ==> Get(t', free[i]) == Get(t, free[i])
    ensures Chain(t', k', free)
  {
    if free != [] {
      assert forall i :: 0 <= i < |free| - 1 ==> free[1..][i] == free[i + 1];
      ChainKept(t, t', free[0], free[1..]);
    }
  }

  /** A slot from 1 to n is live or free; the others, but for slot 0, are not used. */
  ghost predicate SlotOk(t: map<int, Value>, live: map<int, Value>, free: seq<int>, n: nat, r: int) {
    && (r < 0 || r > n ==> Get(t, r) == Nil)
    && (1 <= r <= n ==> (r in live <==> r !in free))
    && (r in live ==> 1 <= r <= n && live[r] != Nil && Get(t, r) == live[r])
    && (r in free ==> 1 <= r <= n)
  }

  ghost predicate TableOk(t: map<int, Value>, live: map<int, Value>, free: seq<int>, n: nat) {
    Chain(t, 0, free) && Distinct(free) && forall r {:trigger SlotOk(t, live, free, n, r)} ::
        SlotOk(t, live, free, n, r)
  }

  /** Without free references, all slots up to n are occupied: the border is unique. */
  lemma NoneFree(t: map<int, Value>, live: map<int, Value>, free: seq<int>, n: nat)
    requires TableOk(t, live, free, n) && !(Get(t, 0).Int? && Get(t, 0).n != 0)
    ensures free == [] && IsBorder(t, n) && forall k {:trigger IsBorder(t, k)} :: IsBorder(t, k) ==> k == n
  {
    var first := if free == [] then 1 else free[0];
    assert SlotOk(t, live, free, n, first);
    assert free != [] ==> first in free;
    forall r ensures 1 <= r <= n ==> Get(t, r) != Nil { assert SlotOk(t, live, free, n, r); }
    forall r ensures r > n ==> Get(t, r) == Nil { assert SlotOk(t, live, free, n, r); }
  }

  /** Taking the first free reference. */
  lemma Taken(t: map<int, Value>, live: map<int, Value>, free: seq<int>, n: nat, v: Value)
    requires TableOk(t, live, free, n) && v != Nil && Get(t, 0).Int? && Get(t, 0).n != 0
    ensures var ref := Get(t, 0).n;
            && free != [] && free[0] == ref && ref >= 1 && ref !in live
            && TableOk(Set(Set(t, 0, Get(t, ref)), ref, v), live[ref := v], free[1..], n)
  {
    var ref := Get(t, 0).n;
    var t', live', rest := Set(Set(t, 0, Get(t, ref)), ref, v), live[ref := v], free[1..];
    assert SlotOk(t, live, free, n, ref);
    forall i | 0 <= i < |rest| ensures rest[i] == free[i + 1] && rest[i] != ref && rest[i] >= 1 {
      assert SlotOk(t, live, free, n, free[i + 1]);
    }
    ChainMoved(t, t', ref, 0, rest);
    assert free == [ref] + rest;
    forall r ensures SlotOk(t', live', rest, n, r) { assert SlotOk(t, live, free, n, r); }
  }

  /** A new reference behind all others. */
  lemma Grown(t: map<int, Value>, live: map<int, Value>, n: nat, v: Value)
    requires TableOk(t, live, [], n) && v != Nil
    ensures n + 1 !in live && TableOk(Set(t, n + 1, v), live[n + 1 := v], [], n + 1)
  {
    var m: nat := n + 1;
    var t', live' := Set(t, m, v), live[m := v];
    assert SlotOk(t, live, [], n, m);
    forall r ensures SlotOk(t', live', [], m, r) { assert SlotOk(t, live, [], n, r); }
  }

  /** A live reference becomes the first free one. */
  lemma Given(t: map<int, Value>, live: map<int, Value>, free: seq<int>, n: nat, ref: int)
    requires TableOk(t, live, free, n) && ref in live
    ensures TableOk(Set(Set(t, ref, Get(t, 0)), 0, Int(ref)), live - {ref}, [ref] + free, n)
  {
    var t', free' := Set(Set(t, ref, Get(t, 0)), 0, Int(ref)), [ref] + free;
    assert SlotOk(t, live, free, n, ref);
    forall i | 0 <= i < |free| ensures free[i] != ref && free[i] >= 1 { assert SlotOk(t, live, free, n, free[i]); }
    ChainMoved(t, t', 0, ref, free);
    assert free'[1..] == free;
    forall r ensures SlotOk(t', live - {ref}, free', n, r) { assert SlotOk(t, live, free, n, r); }
  }

  class RefTable {
    var t: map<int, Value>
    /** The live references and their values, the free ones in turn, and how many there are of both. */
    ghost var live: map<int, Value>
    ghost var free: seq<int>
    ghost var n: nat

    ghost predicate Valid()
      reads this
    {
      TableOk(t, live, free, n)
    }

    constructor ()
      ensures Valid() && live == map[]
    {
      t, live, free, n := map[], map[], [], 0;
      new;
      forall r ensures SlotOk(t, live, free, n, r) { }
    }

    /** lua_objlen: any border of the table. */
    method ObjLen() returns (len: int)
      requires Valid()
      ensures IsBorder(t, len)
    {
      var guess: int := *;
      if IsBorder(t, guess) {
        return guess;
      }
      len := 0;
      assert SlotOk(t, live, free, n, 1);
      while Get(t, len + 1) != Nil
        invariant 0 <= len <= n && (len > 0 ==> Get(t, len) != Nil) && SlotOk(t, live, free, n, len + 1)
        decreases n - len
      {
        len := len + 1;
        assert SlotOk(t, live, free, n, len + 1);
      }
    }

    /** luaL_ref: the new reference was not live; the length of the table only counts when no reference is free. */
    method Ref(v: Value) returns (ref: int)
      requires Valid()
      modifies this
      ensures Valid()
      ensures v == Nil ==> ref == REFNIL && live == old(live) && t == old(t)
      ensures v != Nil ==> ref >= 1 && ref !in old(live) && live == old(live)[ref := v]
      ensures v != Nil ==> if old(free) != [] then n == old(n) && ref == old(free[0]) else n == old(n) + 1 && ref == n
    {
      if v == Nil {
        return REFNIL;
      }
      var head := Get(t, 0);
      ref := if head.Int? then head.n else 0;
      if ref != 0 {
        Taken(t, live, free, n, v);
        t := Set(t, 0, Get(t, ref));
        t := Set(t, ref, v);
        free := free[1..];
      } else {
        NoneFree(t, live, free, n);
        Grown(t, live, n, v);
        ref := ObjLen();
        ref := ref + 1;
        t := Set(t, ref, v);
        n := n + 1;
      }
      live := live[ref := v];
    }

    /** luaL_unref: the reference is free again, and no other value is disturbed. */
    method Unref(ref: int)
      requires Valid() && (ref >= 0 ==> ref in live)
      modifies this
      ensures Valid() && live == (if ref >= 0 then old(live) - {ref} else old(live)) && n == old(n)
    {
      if ref >= 0 {
        Given(t, live, free, n, ref);
        t := Set(t, ref, Get(t, 0));
        t := Set(t, 0, Int(ref));
        live := live - {ref};
        free := [ref] + free;
      }
    }

    /** The value of a live reference. */
    lemma Held(r: int)
      requires Valid() && r in live
      ensures Get(t, r) == live[r]
    {
      assert SlotOk(t, live, free, n, r);
    }
  }

  /** What a caller does: take references, look at their values, or give some back. */
  datatype Op = Take(v: Value) | Look(ref: int) | Give(ref: int)

  /** What it gets; a reference that is not held is not given back. */
  datatype Answer = Reference(ref: int) | Content(v: Value) | Freed | Refused

  /** The references that are held after an operation. */
  function Step(held: map<int, Value>, op: Op, answer: Answer): map<int, Value> {
    match op
    case Take(v) => if v != Nil && answer.Reference? then held[answer.ref := v] else held
    case Look(_) => held
    case Give(ref) => if answer.Freed? && ref >= 0 then held - {ref} else held
  }

  function Replay(ops: seq<Op>, answers: seq<Answer>): map<int, Value>
    requires |ops| == |answers|
  {
    if ops == [] then map[]
    else
      var n := |ops| - 1;
      Step(Replay(ops[..n], answers[..n]), ops[n], answers[n])
  }

  /** A reference is new when it is handed out, and leads to its value as long as it is held. */
  predicate Sound(held: map<int, Value>, op: Op, answer: Answer) {
    match op
    case Take(v) => answer.Reference? && if v == Nil then answer.ref == REFNIL else answer.ref >= 1 && answer.ref !in held
    case Look(ref) => ref in held ==> answer == Content(held[ref])
    case Give(ref) => answer == if ref < 0 || ref in held then Freed else Refused
  }

  /** Every answer was sound when it came. */
  ghost predicate AllSound(ops: seq<Op>, answers: seq<Answer>)
    requires |ops| == |answers|
  {
    ops != [] ==>
      var n := |ops| - 1;
      AllSound(ops[..n], answers[..n]) && Sound(Replay(ops[..n], answers[..n]), ops[n], answers[n])
  }

  lemma OneMore(ops: seq<Op>, answers: seq<Answer>, op: Op, answer: Answer)
    requires |ops| == |answers| && AllSound(ops, answers) && Sound(Replay(ops, answers), op, answer)
    ensures AllSound(ops + [op], answers + [answer])
              && Replay(ops + [op], answers + [answer]) == Step(Replay(ops, answers), op, answer)
  {
    var n := |ops|;
    assert (ops + [op])[..n] == ops && (answers + [answer])[..n] == answers;
  }

  method Perform(table: RefTable, op: Op, held0: map<int, Value>) returns (answer: Answer, held: map<int, Value>)
    requires table.Valid() && table.live == held0
    modifies table
    ensures table.Valid() && table.live == held == Step(held0, op, answer) && Sound(held0, op, answer)
  {
    held := held0;
    match op {
      case Take(v) =>
        var r := table.Ref(v);
        answer := Reference(r);
        if v != Nil { held := held[r := v]; }
      case Look(ref) =>
        if ref in held { table.Held(ref); }
        answer := Content(Get(table.t, ref));
      case Give(ref) =>
        if ref < 0 || ref in held {
          table.Unref(ref);
          answer := Freed;
          if ref >= 0 { held := held - {ref}; }
        } else {
          answer := Refused;
        }
    }
  }

  /**
   * Over any run in which only references that are held are given back, no
   * reference is handed out twice, and each leads to its value all the time.
   */
  method Run(ops: seq<Op>) returns (table: RefTable, held: map<int, Value>, answers: seq<Answer>)
    ensures table.Valid() && table.live == held
    ensures |answers| == |ops| && AllSound(ops, answers) && held == Replay(ops, answers)
  {
    table := new RefTable();
    held, answers := map[], [];
    assert ops[..0] == [];
    while |answers| < |ops|
      invariant table.Valid() && fresh(table) && table.live == held && |answers| <= |ops|
      invariant AllSound(ops[..|answers|], answers) && held == Replay(ops[..|answers|], answers)
      decreases |ops| - |answers|
    {
      var n, answer := |answers|, Refused;
      answer, held := Perform(table, ops[n], held);
      OneMore(ops[..n], answers, ops[n], answer);
      assert ops[..n] + [ops[n]] == ops[..n + 1];
      answers := answers + [answer];
    }
    assert ops[..|answers|] == ops;
  }
}
