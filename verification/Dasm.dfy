/**
 * The DynASM encoder for x86 (dasm_x86.h): dasm_put records actions and their
 * arguments, dasm_link fixes offsets and shortens branches, dasm_encode emits
 * the code. Addresses are 32 bits wide.
 */
module Dasm {
  import opened DasmLabels
  import opened DasmActions
  import opened DasmTrace
  import opened DasmPut
  import opened DasmLink
  import opened DasmCode
  import opened DasmMeaning
  import opened Words

  const S_OK: int := 0
  const S_PHASE: int := 0x200_0000

  function LabelSet(maxgl: nat, maxpc: nat): set<Label> {
    (set n | 0 <= n < 10 + maxgl :: Lg(n)) + (set n | 0 <= n < maxpc :: Pc(n))
  }

  /** The label table has the locals and globals below nlg. */
  ghost predicate TableOk(keys: set<Label>, nlg: nat) {
    && (forall l :: l in keys && l.Lg? ==> 0 <= l.n < nlg)
    && (forall n :: 0 <= n < nlg ==> Lg(n) in keys)
  }

  class Assembler {
    const al: seq<int>
    /** Locals and globals, the size of their label table. */
    const nlg: nat
    /** The section buffers, by biased position. */
    var b: map<int, int>
    /** Label tables: chains (> 0) or positions of definitions (< 0). */
    var labels: map<Label, int>
    /** For each section, the end of its buffer and the code size of pass 1. */
    var spos: seq<int>
    var sofs: seq<int>
    var section: nat
    var codesize: int
    /** The addresses of globals. */
    var globals: map<int, int>
    ghost var fixed: map<int, int>
    ghost var tr: seq<seq<Item>>
    ghost var log: seq<Event>
    ghost var at: map<int, nat>
    /** After linking: the corrections of the offsets, and where sections start. */
    ghost var adj: seq<seq<int>>
    ghost var starts: seq<int>

    /** The state of pass 1. */
    ghost function State(): Pass1
      reads this
    {
      Pass1(b, fixed, labels, spos, sofs, tr, log, at)
    }

    /** The state between two calls of dasm_put. */
    ghost predicate Valid()
      reads this
    {
      AtRest(al, State()) && section < |tr| == |spos| == |sofs|
    }

    /** dasm_init, dasm_setupglobal, dasm_growpc and dasm_setup */
    constructor (maxsection: nat, actionlist: seq<int>, maxgl: nat, maxpc: nat)
      requires maxsection > 0
      ensures Valid() && al == actionlist && |sofs| == maxsection && section == 0
                && Recorded(al, State(), [], maxsection)
      ensures forall s :: 0 <= s < |spos| ==> spos[s] == SecPos(s)
      ensures labels.Keys == LabelSet(maxgl, maxpc) && nlg == 10 + maxgl && TableOk(labels.Keys, nlg)
    {
      al, nlg := actionlist, 10 + maxgl;
      b, fixed, at := map[], map[], map[];
      labels := map l: Label | l in LabelSet(maxgl, maxpc) :: 0;
      spos, sofs := seq(maxsection, s => SecPos(s)), seq(maxsection, s => 0);
      section, codesize := 0, 0;
      tr, log := seq(maxsection, s => []), [];
    }

    /** A literal byte, plain or escaped. */
    method PutLiteral(p0: int, ofs0: int, ghost c: Started, ghost x: Item, ghost rest: seq<int>, ghost t: seq<Item>)
      returns (p: int, ofs: int)
      requires PutLoop(al, State(), c, x, rest, t) && Shaped(al, p0, x.lits) && IsLiteral(At(al, p0)) && x.p == p0
                 && x.ofs == ofs0
      modifies this`tr
      ensures PutLoop(al, State(), c, Next(al, x, 0), rest, t + [x])
      ensures p == Next(al, x, 0).p && ofs == Next(al, x, 0).ofs
    {
      p := p0 + 1;
      ofs := ofs0 + 1;
      if al[p0] == ESC { p := p + 1; }
      LiteralDone(al, State(), c, x, rest, t);
      tr := Visited(tr, c.sec, x);
    }

    /** The size that dasm_put assumes for an action with an argument, and what it reads of the action list. */
    method ArgSize(p0: int, n: int) returns (p: int, size: int)
      requires 0 <= p0 && p0 + Length(At(al, p0)) <= |al| && IsArg(At(al, p0))
      ensures p == p0 + Length(At(al, p0)) && size == MaxSize(al, p0, n)
    {
      var action := al[p0];
      p := p0 + 1;
      if action == IMM_DB {
        size := if FitsByte(n) then 1 else 4;
      } else if action == REL_A || action == IMM_D {
        size := 4;
      } else if action == IMM_S || action == IMM_B {
        size := 1;
      } else if action == IMM_WB {
        size := if FitsByte(n) then 1 else 2;
      } else if action == IMM_W {
        size := 2;
      } else {
        p := p + 1;
        size := n;
      }
    }

    /** b[pos++] = v, where no reference goes. */
    method Store(pos: int, v: int, ghost sec: nat, ghost x: Item)
      requires x.pos == pos
      modifies this`b, this`fixed, this`tr
      ensures State() == Stored(old(State()), sec, x, v)
    {
      b := b[pos := v];
      fixed := fixed[pos := v];
      tr := Visited(tr, sec, x);
    }

    /** An action that stores its argument. */
    method PutArg(p0: int, pos0: int, ofs0: int, rest0: seq<int>, ghost c: Started, ghost x: Item, ghost t: seq<Item>)
      returns (p: int, pos: int, ofs: int, rest: seq<int>)
      requires PutLoop(al, State(), c, x, rest0, t) && IsArg(At(al, p0)) && x.p == p0 && x.pos == pos0 && x.ofs == ofs0
      requires Fits(al, p0, rest0, x.lits, labels.Keys, |sofs|, SecPos(c.sec + 1) - 1 - pos0)
      modifies this`b, this`fixed, this`tr
      ensures PutLoop(al, State(), c, Next(al, x, rest0[0]), rest, t + [x]) && rest == LeftArgs(al, p0, rest0)
      ensures p == Next(al, x, rest0[0]).p && pos == Next(al, x, rest0[0]).pos && ofs == Next(al, x, rest0[0]).ofs
    {
      var n := rest0[0];
      rest := rest0[1..];
      var size;
      p, size := ArgSize(p0, n);
      ofs := ofs0 + size;
      pos := pos0 + 1;
      StoreDone(al, State(), c, x, rest0, t, n);
      Store(pos0, n, c.sec, x);
    }

    method PutAlign(p0: int, pos0: int, ofs0: int, ghost rest: seq<int>, ghost c: Started, ghost x: Item,
                    ghost t: seq<Item>)
      returns (p: int, pos: int, ofs: int)
      requires PutLoop(al, State(), c, x, rest, t) && At(al, p0) == ALIGN && x.p == p0 && x.pos == pos0 && x.ofs == ofs0
      requires Fits(al, p0, rest, x.lits, labels.Keys, |sofs|, SecPos(c.sec + 1) - 1 - pos0)
      modifies this`b, this`fixed, this`tr
      ensures PutLoop(al, State(), c, Next(al, x, 0), rest, t + [x])
      ensures p == Next(al, x, 0).p && pos == Next(al, x, 0).pos && ofs == Next(al, x, 0).ofs
    {
      ofs := ofs0 + al[p0 + 1];
      p := p0 + 2;
      pos := pos0 + 1;
      StoreDone(al, State(), c, x, rest, t, ofs);
      Store(pos0, ofs, c.sec, x);
    }

    /** The label of a reference or definition, from the action list or from the arguments. */
    method ReadLabel(p0: int, rest0: seq<int>) returns (p: int, rest: seq<int>, l: Label)
      requires 0 <= p0 && p0 + Length(At(al, p0)) <= |al| && (IsRef(At(al, p0)) || IsLabel(At(al, p0)))
      requires TakesArg(At(al, p0)) ==> rest0 != []
      ensures p == p0 + Length(At(al, p0)) && rest == LeftArgs(al, p0, rest0)
      ensures l == LabelOf(al, p0, if TakesArg(At(al, p0)) then rest0[0] else 0)
    {
      var action := al[p0];
      p := p0 + 1;
      rest := rest0;
      if action == REL_LG || action == IMM_LG {
        var n := al[p];
        p := p + 1;
        l := if n <= 246 then Lg(n) else Lg(n - 246);
      } else if action == LABEL_LG {
        l := Lg(al[p]);
        p := p + 1;
      } else {
        l := Pc(rest0[0]);
        rest := rest0[1..];
      }
    }

    /**
     * putrel and linkrel: the position of an existing label, or a link of the chain; a branch also
     * stores its offset.
     */
    method StoreRef(pos: int, l: Label, fwd: bool, rel: bool, ofs: int, ghost sec: nat, ghost x: Item)
      requires x.pos == pos && x.ofs + 4 == ofs && l in labels && fwd == IsForward(al, x.p) && rel == IsRel(At(al, x.p))
      modifies this`b, this`labels, this`fixed, this`log, this`at, this`tr
      ensures State() == Referred(al, old(State()), sec, x, l)
    {
      var n := labels[l];
      if fwd && n < 0 { n := 0; }
      if n < 0 {
        b := b[pos := -n];
      } else {
        b := b[pos := n];
        labels := labels[l := pos];
      }
      if rel {
        b := b[pos + 1 := ofs];
        fixed := fixed[pos + 1 := ofs];
      }
      at, log := at[pos := |log|], log + [Ref(l, fwd, pos)];
      tr := Visited(tr, sec, x);
    }

    /** A reference to a local, global or PC label. */
    method PutRef(p0: int, pos0: int, ofs0: int, rest0: seq<int>, ghost c: Started, ghost x: Item, ghost t: seq<Item>)
      returns (p: int, pos: int, ofs: int, rest: seq<int>)
      requires PutLoop(al, State(), c, x, rest0, t) && IsRef(At(al, p0)) && x.p == p0 && x.pos == pos0 && x.ofs == ofs0
      requires Fits(al, p0, rest0, x.lits, labels.Keys, |sofs|, SecPos(c.sec + 1) - 1 - pos0)
      modifies this`b, this`labels, this`fixed, this`log, this`at, this`tr
      ensures PutLoop(al, State(), c, Next(al, x, Argument(al, x, rest0)), rest, t + [x])
                && rest == LeftArgs(al, p0, rest0)
      ensures p == Next(al, x, 0).p && pos == Next(al, x, 0).pos && ofs == Next(al, x, Argument(al, x, rest0)).ofs
                && labels.Keys == old(labels.Keys)
    {
      var l;
      p, rest, l := ReadLabel(p0, rest0);
      ofs := ofs0 + 4;
      pos := if IsRel(al[p0]) then pos0 + 2 else pos0 + 1;
      RefDone(al, State(), c, x, rest0, t, l);
      StoreRef(pos0, l, IsForward(al, p0), IsRel(al[p0]), ofs, c.sec, x);
    }

    /** The references of the chain that starts with head, the entry of l, get v. */
    method Collapse(head: int, v: int, ghost l: Label)
      requires Distinct(log) && ThreadedFor(b, log, l) && head == Entry(log, l)
      modifies this`b
      ensures Collapsed(old(b), b, log, l, 0, v)
    {
      var n := head;
      ghost var m := |log|;
      assert log[..m] == log;
      EntrySpec(log, l);
      while n > 0
        invariant m <= |log| && (n > 0 ==> n == PendingHead(log[..m], l)) && (n <= 0 ==> PendingHead(log[..m], l) == 0)
        invariant forall k :: m <= k < |log| && log[k].lab == l ==> log[k].Ref?
        invariant Collapsed(old(b), b, log, l, m, v)
        decreases m
      {
        ghost var i := ChainStep(log, l, m, old(b), b, v);
        var next := b[n];
        b := b[n := v];
        n := next;
        m := i;
        EntrySpec(log[..m], l);
      }
      ChainEnd(log, l, m, old(b), b, v);
    }

    /** putlabel: the chain gets the position, and so does the table. */
    method DefineLabel(pos: int, ofs: int, l: Label, ghost sec: nat, ghost x: Item) returns (ghost b1: map<int, int>)
      requires Distinct(log) && ThreadedFor(b, log, l) && l in labels && labels[l] == Entry(log, l) && x.pos == pos
                 && x.ofs == ofs
      modifies this`b, this`labels, this`fixed, this`log, this`at, this`tr
      ensures Collapsed(old(b), b1, old(log), l, 0, pos) && State() == Defined(old(State()), b1, sec, x, l)
    {
      Collapse(labels[l], pos, l);
      b1 := b;
      labels := labels[l := -pos];
      b := b[pos := ofs];
      fixed := fixed[pos := ofs];
      at, log := at[pos := |log|], log + [Def(l, pos, sec, if sec < |tr| then |tr[sec]| else 0)];
      tr := Visited(tr, sec, x);
    }

    /** The definition of a local, global or PC label. */
    method PutLabel(p0: int, pos0: int, ofs: int, rest0: seq<int>, ghost c: Started, ghost x: Item, ghost t: seq<Item>)
      returns (p: int, pos: int, rest: seq<int>)
      requires PutLoop(al, State(), c, x, rest0, t) && IsLabel(At(al, p0)) && x.p == p0 && x.pos == pos0 && x.ofs == ofs
      requires Fits(al, p0, rest0, x.lits, labels.Keys, |sofs|, SecPos(c.sec + 1) - 1 - pos0)
      modifies this`b, this`labels, this`fixed, this`log, this`at, this`tr
      ensures PutLoop(al, State(), c, Next(al, x, Argument(al, x, rest0)), rest, t + [x])
                && rest == LeftArgs(al, p0, rest0)
      ensures p == Next(al, x, 0).p && pos == Next(al, x, 0).pos && ofs == Next(al, x, Argument(al, x, rest0)).ofs
                && labels.Keys == old(labels.Keys)
    {
      var l;
      p, rest, l := ReadLabel(p0, rest0);
      pos := pos0 + 1;
      ghost var st := State();
      ChainReady(al, st, c, x, rest0, t, l);
      ghost var b1 := DefineLabel(pos0, ofs, l, c.sec, x);
      LabelDone(al, st, b1, c, x, rest0, t, l);
    }

    /** The stop: sec->pos and sec->ofs are stored, and the section may change. */
    method PutStop(sec: nat, p: int, pos: int, ofs: int, ghost rest: seq<int>, ghost c: Started, ghost x: Item,
                   ghost t: seq<Item>)
      requires PutLoop(al, State(), c, x, rest, t) && IsStop(At(al, p)) && x.p == p && x.pos == pos && x.ofs == ofs
                 && c.sec == sec
      requires Fits(al, p, rest, x.lits, labels.Keys, |sofs|, SecPos(sec + 1) - 1 - pos) && pos < SecPos(sec + 1)
                 && sec < |spos| == |sofs|
      modifies this`section, this`spos, this`sofs, this`tr
      ensures PutOver(al, State(), c, t + [x]) && State() == Stopped(old(State()), sec, x)
      ensures section == SectionBehind(al, t + [x], old(section)) && (section < |sofs| || section == old(section))
                && |tr| == |old(tr)|
    {
      StopDone(al, State(), c, x, rest, t);
      StoreEnds(sec, p, pos, ofs, x);
    }

    method StoreEnds(sec: nat, p: int, pos: int, ofs: int, ghost x: Item)
      requires sec < |spos| == |sofs| && x.pos == pos && x.ofs == ofs && 0 <= p && p + Length(At(al, p)) <= |al|
      requires At(al, p) == SECTION ==> At(al, p + 1) >= 0
      modifies this`section, this`spos, this`sofs, this`tr
      ensures State() == Stopped(old(State()), sec, x) && section == if At(al, p) == SECTION then At(al, p + 1)
                else old(section)
    {
      if al[p] == SECTION {
        section := al[p + 1];
      }
      spos := spos[sec := pos];
      sofs := sofs[sec := ofs];
      tr := Visited(tr, sec, x);
    }

    /** One round of the loop. */
    method PutAction(p0: int, pos0: int, ofs0: int, rest0: seq<int>, ghost c: Started, ghost x: Item,
                     ghost t: seq<Item>)
      returns (p: int, pos: int, ofs: int, rest: seq<int>)
      requires PutLoop(al, State(), c, x, rest0, t) && !IsStop(At(al, p0)) && x.p == p0 && x.pos == pos0
                 && x.ofs == ofs0
      requires Fits(al, p0, rest0, x.lits, labels.Keys, |sofs|, SecPos(c.sec + 1) - 1 - pos0)
      modifies this`b, this`labels, this`fixed, this`log, this`at, this`tr
      ensures PutLoop(al, State(), c, Next(al, x, Argument(al, x, rest0)), rest, t + [x])
                && rest == LeftArgs(al, p0, rest0)
      ensures var y := Next(al, x, Argument(al, x, rest0)); p == y.p && pos == y.pos && ofs == y.ofs
      ensures labels.Keys == old(labels.Keys)
    {
      var action := al[p0];
      pos, ofs, rest := pos0, ofs0, rest0;
      if action < DISP || action == ESC {
        p, ofs := PutLiteral(p0, ofs0, c, x, rest0, t);
      } else if action <= REL_A {
        p, pos, ofs, rest := PutArg(p0, pos0, ofs0, rest0, c, x, t);
      } else if action <= IMM_PC {
        p, pos, ofs, rest := PutRef(p0, pos0, ofs0, rest0, c, x, t);
      } else if action <= LABEL_PC {
        p, pos, rest := PutLabel(p0, pos0, ofs0, rest0, c, x, t);
      } else {
        p, pos, ofs := PutAlign(p0, pos0, ofs0, rest0, c, x, t);
      }
    }

    /** One round of the loop, with the rest of the call still to come. */
    method PutNext(p0: int, pos0: int, ofs0: int, rest0: seq<int>, ghost room: int, ghost c: Started, ghost x: Item,
                   ghost t: seq<Item>)
      returns (p: int, pos: int, ofs: int, rest: seq<int>)
      requires PutReady(al, State(), c, x, rest0, room, t) && !IsStop(At(al, p0)) && x.p == p0 && x.pos == pos0
                 && x.ofs == ofs0
      modifies this`b, this`labels, this`fixed, this`log, this`at, this`tr
      ensures PutReady(al, State(), c, Next(al, x, Argument(al, x, rest0)), rest, room - Slots(At(al, p0)), t + [x])
      ensures var y := Next(al, x, Argument(al, x, rest0)); p == y.p && pos == y.pos && ofs == y.ofs && p0 < p <= |al|
      ensures labels.Keys == old(labels.Keys)
    {
      ghost var st := State();
      ReadyNow(al, st, c, x, rest0, room, t);
      p, pos, ofs, rest := PutAction(p0, pos0, ofs0, rest0, c, x, t);
      ReadyNext(al, st, State(), c, x, rest0, room, t);
    }

    /** b[pos++] = start */
    method StoreStart(pos: int, start: int)
      modifies this`b, this`fixed
      ensures State() == old(State()).(b := old(b)[pos := start], fixed := old(fixed)[pos := start])
    {
      b := b[pos := start];
      fixed := fixed[pos := start];
    }

    /**
     * dasm_put: the actions from start on are recorded in the current section,
     * with their arguments, up to the first stop.
     */
    method Put(start: int, args: seq<int>) returns (ghost t: seq<Item>)
      requires Valid() && WellFormed(al, start, args, 0, labels.Keys, |sofs|, MAXSECPOS - 1)
      requires spos[section] + MAXSECPOS < SecPos(section + 1)
      modifies this
      ensures Valid() && labels.Keys == old(labels.Keys) && |sofs| == old(|sofs|)
      ensures PutDone(al, State(), Started(start, args, old(section), old(log), old(tr), old(fixed)), t)
      ensures section == SectionBehind(al, t, old(section))
    {
      var p, sec := start, section;
      var pos, ofs := spos[sec], sofs[sec];
      var rest := args;
      ghost var c, x, room := Started(start, args, sec, log, tr, fixed), Item(start, pos + 1, ofs, 0), MAXSECPOS - 1;
      t := [];
      Begun(al, State(), c);
      StoreStart(pos, start);
      pos := pos + 1;
      ReadyNow(al, State(), c, x, rest, room, t);
      while !(al[p] == SECTION || al[p] == STOP)
        invariant 0 <= p < |al| && x.p == p && x.pos == pos && x.ofs == ofs
                    && PutReady(al, State(), c, x, rest, room, t)
        invariant labels.Keys == old(labels.Keys) && section == sec && sofs == old(sofs) && spos == old(spos)
        decreases |al| - p
      {
        ghost var y, left := Next(al, x, Argument(al, x, rest)), room - Slots(At(al, p));
        p, pos, ofs, rest := PutNext(p, pos, ofs, rest, room, c, x, t);
        t, x, room := t + [x], y, left;
        ReadyNow(al, State(), c, x, rest, room, t);
      }
      ReadyNow(al, State(), c, x, rest, room, t);
      PutStop(sec, p, pos, ofs, rest, c, x, t);
      t := t + [x];
      OverOpened(al, State(), c, t);
    }

    // ---- Pass 2 ----

    /** Globals not defined here: their references get minus the number of the global. */
    method MarkGlobals()
      requires Valid() && TableOk(labels.Keys, nlg) && Resolved(labels)
      modifies this`b, this`fixed
      ensures Ready(al, fixed, tr, log, at, spos, sofs) && fixed == b && Grown(old(fixed), fixed)
      ensures forall l :: l in labels ==> labels[l] == Entry(log, l)
    {
      RestOpened(al, State());
      var idx := 10;
      forall i: nat ensures MarkedSlot(b, log, idx, i) { assert RefSlot(b, log, i); }
      while idx < nlg
        invariant 10 <= idx && (nlg >= 10 ==> idx <= nlg) && fixed == old(fixed)
        invariant forall i {:trigger MarkedSlot(b, log, idx, i)} :: MarkedSlot(b, log, idx, i)
        invariant forall x :: x in fixed ==> x in b && b[x] == fixed[x]
      {
        ghost var b0 := b;
        MarkedFor(b, log, idx);
        Collapse(labels[Lg(idx)], -idx, Lg(idx));
        MarkedMore(b0, b, log, idx, idx + 1);
        FixedKept(b0, b, fixed, log, spos, Lg(idx), -idx);
        idx := idx + 1;
      }
      forall i: nat ensures TargetSlot(b, log, i) { GlobalsMarked(idx, i); }
      forall s | 0 <= s < |tr|
        ensures Traced(al, b, tr[s], SecPos(s), spos[s], sofs[s])
      {
        TracedGrown(al, fixed, b, tr[s], SecPos(s), spos[s], sofs[s]);
      }
      fixed := b;
    }

    lemma GlobalsMarked(idx: int, i: nat)
      requires Distinct(log) && (forall l :: l in labels ==> labels[l] == Entry(log, l)) && Resolved(labels)
                 && TableOk(labels.Keys, nlg)
      requires forall k {:trigger MarkedSlot(b, log, idx, k)} :: MarkedSlot(b, log, idx, k)
      requires forall k :: 0 <= k < |log| ==> EventOk(fixed, spos, log[k]) && log[k].lab in labels
      requires 10 <= idx && nlg <= idx && (nlg >= 10 ==> idx <= nlg)
      requires forall x :: x in fixed ==> x in b
      ensures TargetSlot(b, log, i)
    {
      if i < |log| && log[i].Ref? {
        assert EventOk(fixed, spos, log[i]);
        AllMarked(b, labels, log, idx, i);
        if Bound(log, i) != 0 {
          var d := BoundIsDef(log, i);
          assert EventOk(fixed, spos, log[d]);
        }
      }
    }

    /** A branch: the short form if its label is near enough. */
    method LinkBranch(secnum: nat, pos: int, ofs0: int, op: int, ghost x: Item) returns (ofs: int)
      requires |sofs| == |spos| && secnum < |sofs| && x.pos == pos && pos in b && pos + 1 in b
                 && (b[pos] >= 0 ==> b[pos] in b)
      requires b[pos + 1] == x.ofs + 4 && (b[pos] > pos ==> Held(b, b[pos]) == Held(fixed, b[pos]) && PosSec(b[pos]) <= |sofs|)
      requires b[pos] != pos && b[pos] != pos + 1
      modifies this`b
      ensures b == old(b)[pos + 1 := Shortened(old(b), fixed, sofs, secnum, x, ofs0, op)]
      ensures ofs == ofs0 - b[pos + 1]
    {
      ofs := ofs0;
      var shrink := if op == 0xe9 then 3 else if 0x80 <= op <= 0x8f then 4 else 0;
      if shrink != 0 {
        var lpos := b[pos];
        if lpos < 0 {
          shrink := 0;
        } else {
          var lofs := b[lpos];
          if lpos > pos {
            var i := secnum;
            while i < PosSec(lpos)
              invariant if secnum <= PosSec(lpos) then secnum <= i <= PosSec(lpos) else i == secnum
              invariant lofs == b[lpos] + SumOfs(sofs, secnum, i)
            {
              lofs := lofs + sofs[i];
              i := i + 1;
            }
          } else {
            lofs := lofs - ofs;
          }
          lofs := lofs - b[pos + 1];
          assert lofs == Distance(b, fixed, sofs, secnum, x, ofs0, lpos);
          if lofs >= -128 - shrink && lofs <= 127 {
            ofs := ofs - shrink;
          } else {
            shrink := 0;
          }
        }
      }
      b := b[pos + 1 := shrink];
    }

    /** Linking reached item k of section s: item x, the correction being ofs. */
    ghost predicate Linking(s: nat, k: nat, x: Item, ofs: int, cur: seq<int>, from: int)
      reads this
    {
      && Ready(al, fixed, tr, log, at, spos, sofs) && s < |tr| && k < |tr[s]| && tr[s][k] == x
      && Untouched(fixed, b, x.pos)
      && SectionsLinked(al, b, fixed, tr, sofs, adj, starts, s)
      && LinkedUpTo(al, b, fixed, sofs, s, tr[s], cur, k, from, ofs)
    }

    /** One round of the loop over the actions of a dasm_put. */
    method LinkAction(s: nat, p0: int, pos0: int, ofs0: int, ghost k: nat)
      returns (p: int, pos: int, ofs: int)
      requires Ready(al, fixed, tr, log, at, spos, sofs) && s < |tr| && k < |tr[s]| && tr[s][k].p == p0
                 && tr[s][k].pos == pos0
      requires Untouched(fixed, b, pos0) && !IsStop(At(al, p0))
      modifies this`b
      ensures k + 1 < |tr[s]| && p == tr[s][k + 1].p && pos == tr[s][k + 1].pos && SlotsOk(al, fixed, tr[s][k])
      ensures LinkStep(al, b, fixed, sofs, s, tr[s][k], ofs0, ofs)
      ensures Untouched(fixed, b, pos) && forall x :: x in b && x < pos0 ==> b[x] == old(b)[x]
    {
      ghost var x := tr[s][k];
      ItemShape(al, fixed, tr, spos, sofs, s, k);
      var action := al[p0];
      p, pos, ofs := p0 + 1, pos0, ofs0;
      if action == REL_LG || action == REL_PC {
        if action == REL_LG { p := p + 1; }
        BranchReady(s, k);
        ofs := LinkBranch(s, pos, ofs0, al[p0 - 1], x);
        pos := pos + 2;
      } else if action == SPACE || action == IMM_LG {
        p, pos := p + 1, pos + 1;
        if action == IMM_LG { RefTarget(al, fixed, tr, log, at, spos, sofs, s, k); }
      } else if IMM_S <= action <= REL_A || action == IMM_PC {
        pos := pos + 1;
        if action == IMM_PC { RefTarget(al, fixed, tr, log, at, spos, sofs, s, k); }
      } else if action == LABEL_LG || action == LABEL_PC {
        if action == LABEL_LG { p := p + 1; }
        b := b[pos := b[pos] + ofs];
        pos := pos + 1;
      } else if action == ALIGN {
        ofs := ofs - (b[pos] + ofs) % (al[p] + 1);
        p, pos := p + 1, pos + 1;
      } else if action == ESC {
        p := p + 1;
      }
    }

    /** What linking a branch relies on. */
    lemma BranchReady(s: nat, k: nat)
      requires Ready(al, fixed, tr, log, at, spos, sofs) && s < |tr| && k < |tr[s]| && IsRel(At(al, tr[s][k].p))
      requires Untouched(fixed, b, tr[s][k].pos)
      ensures var x := tr[s][k];
              && x.pos in b && x.pos + 1 in b && (b[x.pos] >= 0 ==> b[x.pos] in b) && b[x.pos + 1] == x.ofs + 4
              && (b[x.pos] > x.pos ==> Held(b, b[x.pos]) == Held(fixed, b[x.pos]) && PosSec(b[x.pos]) <= |sofs|)
              && b[x.pos] != x.pos && b[x.pos] != x.pos + 1
    {
      var x := tr[s][k];
      ItemShape(al, fixed, tr, spos, sofs, s, k);
      RefTarget(al, fixed, tr, log, at, spos, sofs, s, k);
      var i := at[x.pos];
      if fixed[x.pos] > 0 {
        var s', j := TargetIsLabel(s, k);
      }
    }

    /** A positive slot of a reference leads to the item of a definition. */
    lemma TargetIsLabel(s: nat, k: nat) returns (s': nat, j: nat)
      requires Ready(al, fixed, tr, log, at, spos, sofs) && s < |tr| && k < |tr[s]| && IsRef(At(al, tr[s][k].p))
      requires Held(fixed, tr[s][k].pos) > 0
      ensures var v := Held(fixed, tr[s][k].pos);
              && LabelItem(al, tr, s', j, v) && v in fixed && PosSec(v) == s'
              && v != tr[s][k].pos && (IsRel(At(al, tr[s][k].p)) ==> v != tr[s][k].pos + 1)
    {
      var x := tr[s][k];
      RefTarget(al, fixed, tr, log, at, spos, sofs, s, k);
      var i := at[x.pos];
      assert TargetSlot(fixed, log, i);
      var d := BoundIsDef(log, i);
      assert LabelLogged(al, tr, log, d);
      s', j := log[d].s, log[d].j;
      ItemInSection(al, fixed, tr, spos, sofs, s', j);
      OwnSlots(al, fixed, tr, spos, sofs, s, k, s', j);
    }

    /** The actions of one dasm_put, up to its stop: items k0 up to k. */
    method LinkPut(s: nat, p0: int, pos0: int, ofs0: int, ghost k0: nat, ghost cur0: seq<int>, ghost from: int)
      returns (pos: int, ofs: int, ghost k: nat, ghost cur: seq<int>)
      requires s < |tr| && k0 < |tr[s]| && Linking(s, k0, tr[s][k0], ofs0, cur0, from) && tr[s][k0].p == p0
                 && tr[s][k0].pos == pos0
      modifies this`b
      ensures k0 <= k < |tr[s]| && Linking(s, k, tr[s][k], ofs, cur, from) && tr[s][k].pos == pos
                && IsStop(At(al, tr[s][k].p))
    {
      var p := p0;
      pos, ofs, k, cur := pos0, ofs0, k0, cur0;
      ItemShape(al, fixed, tr, spos, sofs, s, k);
      while !(al[p] == SECTION || al[p] == STOP)
        invariant k0 <= k < |tr[s]| && 0 <= p < |al| && tr[s][k].p == p && tr[s][k].pos == pos
        invariant Linking(s, k, tr[s][k], ofs, cur, from)
        decreases |tr[s]| - k
      {
        ghost var b1, ofs1 := b, ofs;
        p, pos, ofs := LinkAction(s, p, pos, ofs, k);
        LinkedMore(al, b1, b, fixed, sofs, s, tr[s], cur, k, from, ofs1, ofs, SecPos(s));
        ItemInSection(al, fixed, tr, spos, sofs, s, k);
        SectionsKept(al, b1, b, fixed, tr, spos, sofs, adj, starts, s, tr[s][k].pos);
        k, cur := k + 1, cur + [ofs];
        ItemShape(al, fixed, tr, spos, sofs, s, k);
      }
    }

    /** Linking section s is done. */
    ghost predicate SectionDone(s: nat, ofs: int, cur: seq<int>, from: int)
      reads this
    {
      && Ready(al, fixed, tr, log, at, spos, sofs) && s < |tr| && Untouched(fixed, b, spos[s])
      && SectionsLinked(al, b, fixed, tr, sofs, adj, starts, s)
      && LinkedUpTo(al, b, fixed, sofs, s, tr[s], cur, |tr[s]|, from, ofs)
    }

    method LinkSection(s: nat, from: int) returns (ofs: int, ghost cur: seq<int>)
      requires Ready(al, fixed, tr, log, at, spos, sofs) && s < |tr| && Untouched(fixed, b, SecPos(s))
      requires SectionsLinked(al, b, fixed, tr, sofs, adj, starts, s)
      modifies this`b
      ensures SectionDone(s, ofs, cur, from)
    {
      var pos, lastpos := SecPos(s), spos[s];
      ofs := from;
      ghost var k := 0;
      ghost var t := tr[s];
      cur := [from];
      while pos != lastpos
        invariant k <= |t| && Untouched(fixed, b, pos)
        invariant pos == if k == 0 then SecPos(s) else t[k - 1].pos
        invariant k > 0 ==> IsStop(At(al, t[k - 1].p))
        invariant SectionsLinked(al, b, fixed, tr, sofs, adj, starts, s)
        invariant LinkedUpTo(al, b, fixed, sofs, s, t, cur, k, from, ofs)
        decreases |t| - k
      {
        StartSlot(s, k, pos);
        var p := b[pos];
        pos := pos + 1;
        ghost var k1;
        pos, ofs, k1, cur := LinkPut(s, p, pos, ofs, k, cur, from);
        ItemShape(al, fixed, tr, spos, sofs, s, k1);
        LinkedMore(al, b, b, fixed, sofs, s, t, cur, k1, from, ofs, ofs, SecPos(s));
        k, cur := k1 + 1, cur + [ofs];
      }
      AllItems(s, k, pos);
    }

    /** The start of the next dasm_put in the buffer. */
    lemma StartSlot(s: nat, k: nat, pos: int)
      requires Ready(al, fixed, tr, log, at, spos, sofs) && s < |tr| && k <= |tr[s]| && Untouched(fixed, b, pos)
                 && pos != spos[s]
      requires (pos == if k == 0 then SecPos(s) else tr[s][k - 1].pos) && (k > 0 ==> IsStop(At(al, tr[s][k - 1].p)))
      ensures k < |tr[s]| && pos in b && b[pos] == tr[s][k].p && tr[s][k].pos == pos + 1
    {
      if k > 0 { ItemShape(al, fixed, tr, spos, sofs, s, k - 1); }
    }

    lemma AllItems(s: nat, k: nat, pos: int)
      requires Ready(al, fixed, tr, log, at, spos, sofs) && s < |tr| && k <= |tr[s]| && pos == spos[s]
      requires (pos == if k == 0 then SecPos(s) else tr[s][k - 1].pos) && (k > 0 ==> IsStop(At(al, tr[s][k - 1].p)))
      ensures k == |tr[s]|
    {
      var t := tr[s];
      if k < |t| {
        AboveStart(al, fixed, t, SecPos(s), |t| - 1);
        if 0 < k { SlotOrder(al, fixed, t, SecPos(s), k - 1, |t| - 1); }
      }
    }

    /** The state after linking. */
    ghost predicate Encodable()
      reads this
    {
      && Linked(al, b, fixed, tr, spos, sofs, adj, starts) && Ready(al, fixed, tr, log, at, spos, sofs)
      && (forall x :: x in fixed ==> x in b) && codesize == starts[|tr|]
      && (forall l :: l in labels ==> labels[l] == Entry(log, l))
    }

    /** dasm_link, once no label is left undefined but globals. */
    method Link() returns (size: int)
      requires Valid() && TableOk(labels.Keys, nlg) && Resolved(labels)
      modifies this
      ensures Encodable() && size == codesize && Grown(old(fixed), fixed)
      ensures tr == old(tr) && log == old(log) && labels == old(labels) && spos == old(spos) && sofs == old(sofs)
                && at == old(at)
    {
      MarkGlobals();
      size := LinkSections();
      codesize := size;
    }

    /** All code sections, one behind the other. */
    method LinkSections() returns (ofs: int)
      requires Ready(al, fixed, tr, log, at, spos, sofs) && fixed == b
      modifies this`b, this`adj, this`starts
      ensures Linked(al, b, fixed, tr, spos, sofs, adj, starts) && ofs == starts[|tr|] && b.Keys == old(b.Keys)
    {
      var secnum := 0;
      ofs := 0;
      adj, starts := [], [0];
      while secnum < |spos|
        invariant secnum <= |spos| && Untouched(fixed, b, SecPos(secnum)) && b.Keys == old(b.Keys)
        invariant SectionsLinked(al, b, fixed, tr, sofs, adj, starts, secnum) && starts[secnum] == ofs
      {
        ghost var from := ofs;
        ghost var cur;
        ofs, cur := LinkSection(secnum, ofs);
        ofs := ofs + sofs[secnum];
        NextSection(secnum, ofs, cur, from);
        adj, starts := adj + [cur], starts + [ofs];
        secnum := secnum + 1;
      }
    }

    lemma NextSection(s: nat, ofs: int, cur: seq<int>, from: int)
      requires s < |sofs| == |tr| && |starts| == s + 1 && SectionDone(s, ofs - sofs[s], cur, from) && starts[s] == from
      ensures SectionsLinked(al, b, fixed, tr, sofs, adj + [cur], starts + [ofs], s + 1)
      ensures Untouched(fixed, b, SecPos(s + 1))
    {
    }

    // ---- Pass 3 ----

    /** dasmb */
    method EmitByte(buffer: array<int>, cp0: nat, x: int) returns (cp: nat)
      requires cp0 < buffer.Length
      modifies buffer
      ensures cp == cp0 + 1 && buffer[..cp] == old(buffer[..cp0]) + Bytes(x, 1)
    {
      buffer[cp0] := x % 256;
      cp := cp0 + 1;
    }

    /** dasmw */
    method EmitWord(buffer: array<int>, cp0: nat, x: int) returns (cp: nat)
      requires cp0 + 2 <= buffer.Length
      modifies buffer
      ensures cp == cp0 + 2 && buffer[..cp] == old(buffer[..cp0]) + Bytes(x, 2)
    {
      cp := EmitByte(buffer, cp0, x);
      cp := EmitByte(buffer, cp, x / 256);
      assert Bytes(x, 2) == Bytes(x, 1) + Bytes(x / 256, 1);
    }

    /** dasmd */
    method EmitDword(buffer: array<int>, cp0: nat, x: int) returns (cp: nat)
      requires cp0 + 4 <= buffer.Length
      modifies buffer
      ensures cp == cp0 + 4 && buffer[..cp] == old(buffer[..cp0]) + Bytes(x, 4)
    {
      cp := EmitWord(buffer, cp0, x);
      cp := EmitWord(buffer, cp, x / 0x1_0000);
      DwordBytes(x);
    }

    lemma DwordBytes(x: int)
      ensures Bytes(x, 4) == Bytes(x, 2) + Bytes(x / 0x1_0000, 2)
    {
      assert x / 256 / 256 == x / 0x1_0000;
      assert Bytes(x, 2) == [x % 256] + Bytes(x / 256, 1)
          && Bytes(x / 256, 3) == Bytes(x / 256, 1) + Bytes(x / 256 / 256, 2);
    }

    /** The opcode two bytes back gets its byte-sized form. */
    method BumpOpcode(buffer: array<int>, cp: nat)
      requires 2 <= cp <= buffer.Length
      modifies buffer
      ensures buffer[..cp] == Bumped(old(buffer[..cp]))
    {
      buffer[cp - 2] := (buffer[cp - 2] + 2) % 256;
    }

    /** An action with an argument. */
    method EncodeArg(buffer: array<int>, base: int, action: int, n: int, cp0: nat, fill: int) returns (cp: nat)
      requires IsArg(action) && cp0 <= buffer.Length && (action == IMM_WB || action == IMM_DB ==> cp0 >= 2)
                 && (action == SPACE ==> n >= 0)
      requires cp0 + ArgLength(action, n) <= buffer.Length
      modifies buffer
      ensures cp <= buffer.Length && buffer[..cp] == ArgCode(old(buffer[..cp0]), action, n, fill, base)
    {
      if action == IMM_S || action == IMM_B {
        cp := EmitByte(buffer, cp0, n);
      } else if action == IMM_DB {
        if FitsByte(n) {
          BumpOpcode(buffer, cp0);
          cp := EmitByte(buffer, cp0, n);
        } else {
          cp := EmitDword(buffer, cp0, n);
        }
      } else if action == IMM_D {
        cp := EmitDword(buffer, cp0, n);
      } else if action == IMM_WB {
        if FitsByte(n) {
          BumpOpcode(buffer, cp0);
          cp := EmitByte(buffer, cp0, n);
        } else {
          cp := EmitWord(buffer, cp0, n);
        }
      } else if action == IMM_W {
        cp := EmitWord(buffer, cp0, n);
      } else if action == REL_A {
        cp := EmitDword(buffer, cp0, n - (base + cp0 + 4));
      } else {
        cp := cp0;
        var left := n;
        while left > 0
          invariant 0 <= left <= n && cp == cp0 + (n - left)
          invariant buffer[..cp] == old(buffer[..cp0]) + seq(n - left, i => fill)
        {
          buffer[cp] := fill;
          cp, left := cp + 1, left - 1;
        }
      }
    }

    /** A branch. */
    method EncodeBranch(buffer: array<int>, base: int, n: int, shrink: int, cp0: nat, ghost gl0: map<int, int>,
                        ghost x: Item) returns (cp: nat)
      requires cp0 <= buffer.Length && n == Held(b, x.pos) && shrink == Held(b, x.pos + 1)
      requires n < 0 ==> AddressOf(globals, -n) == AddressOf(gl0, -n)
      requires n >= 0 ==> n in b
      requires (shrink == 0 || (shrink == 3 && cp0 >= 1) || (shrink == 4 && cp0 >= 2))
                 && cp0 + 4 - shrink <= buffer.Length
      requires n < 0 ==> shrink == 0
      modifies buffer
      ensures cp <= buffer.Length && buffer[..cp] == Branch(b, gl0, base, old(buffer[..cp0]), x)
    {
      if n < 0 {
        cp := EmitDword(buffer, cp0, AddressOf(globals, -n) - (base + cp0 + 4));
      } else {
        var d := b[n] - (cp0 + 4 - shrink);
        if shrink == 0 {
          cp := EmitDword(buffer, cp0, d);
        } else {
          cp := EncodeShort(buffer, cp0, d, shrink);
        }
      }
    }

    /** The short form of a branch: one or two opcode bytes are changed or taken back. */
    method EncodeShort(buffer: array<int>, cp0: nat, d: int, shrink: int) returns (cp: nat)
      requires cp0 <= buffer.Length && ((shrink == 3 && cp0 >= 1) || (shrink == 4 && cp0 >= 2))
                 && cp0 + 4 - shrink <= buffer.Length
      modifies buffer
      ensures cp <= buffer.Length
      ensures var c := old(buffer[..cp0]);
              buffer[..cp] == if shrink == 4 then c[..cp0 - 2] + [c[cp0 - 1] - 0x10] + [d % 256]
                  else c[..cp0 - 1] + [0xeb] + [d % 256]
    {
      if shrink == 4 {
        cp := cp0 - 1;
        buffer[cp - 1] := buffer[cp] - 0x10;
        cp := EmitByte(buffer, cp, d);
      } else {
        buffer[cp0 - 1] := 0xeb;
        cp := EmitByte(buffer, cp0, d);
      }
    }

    /** Padding with nops. */
    method EncodeAlign(buffer: array<int>, m: int, cp0: nat) returns (cp: nat)
      requires IsMask(m) && cp0 + Nops(cp0, m) <= buffer.Length
      modifies buffer
      ensures cp <= buffer.Length && buffer[..cp] == old(buffer[..cp0]) + seq(Nops(cp0, m), i => 0x90)
    {
      cp := cp0;
      ghost var r: nat := 0;
      while cp % (m + 1) != 0
        invariant cp == cp0 + r && r <= Nops(cp0, m)
        invariant buffer[..cp] == old(buffer[..cp0]) + seq(r, i => 0x90)
        decreases Nops(cp0, m) - r
      {
        AlignCutBy(cp0, m);
        buffer[cp] := 0x90;
        cp, r := cp + 1, r + 1;
      }
      NopsLeast(cp0, m, r);
    }

    lemma NopsLeast(cp: nat, m: int, r: nat)
      requires IsMask(m) && r <= Nops(cp, m) && (cp + r) % (m + 1) == 0
      ensures r == Nops(cp, m)
    {
      if r < Nops(cp, m) {
        DivModUnique(cp + r, m + 1, cp / (m + 1), cp % (m + 1) + r);
      }
    }

    /** One round of the loop over the actions of a dasm_put. */
    method EncodeAction(buffer: array<int>, base: int, p0: int, pos0: int, cp0: nat,
                        ghost x: Item, ghost y: Item, ghost gl0: map<int, int>)
      returns (p: int, pos: int, cp: nat)
      requires cp0 <= buffer.Length && ItemReady(al, b, fixed, x, y, buffer[..cp0], buffer.Length) && x.p == p0
                 && x.pos == pos0
      requires GlobalsKept(log, gl0, globals)
      requires IsRef(At(al, p0)) && Held(b, pos0) < 0 ==> Undefined(log, -Held(b, pos0))
      requires At(al, p0) == LABEL_LG ==> !Undefined(log, At(al, p0 + 1))
      modifies buffer, this`globals
      ensures cp <= buffer.Length && buffer[..cp] == ItemCode(al, b, gl0, base, old(buffer[..cp0]), x)
      ensures globals == Tabled(al, b, base, old(globals), x) && GlobalsKept(log, gl0, globals)
      ensures p == y.p && pos == y.pos
    {
      var action := al[p0];
      p, pos, cp := p0 + 1, pos0, cp0;
      if action == ESC {
        cp := EmitLiteral(buffer, cp, al[p]);
        p := p + 1;
      } else if action < DISP {
        cp := EmitLiteral(buffer, cp, action);
      } else {
        var n := b[pos];
        pos := pos + 1;
        if action <= REL_A {
          var fill := At(al, p);
          if action == SPACE { p := p + 1; }
          cp := EncodeArg(buffer, base, action, n, cp, fill);
        } else if action == REL_LG || action == REL_PC {
          if action == REL_LG { p := p + 1; }
          var shrink := b[pos];
          pos := pos + 1;
          cp := EncodeBranch(buffer, base, n, shrink, cp, gl0, x);
        } else if action == IMM_LG || action == IMM_PC {
          if action == IMM_LG { p := p + 1; }
          cp := EmitDword(buffer, cp, if n < 0 then AddressOf(globals, -n) else b[n] + base);
        } else if action == LABEL_LG {
          var idx := al[p];
          p := p + 1;
          if idx >= 10 { globals := globals[idx := base + n]; }
        } else if action == ALIGN {
          cp := EncodeAlign(buffer, al[p], cp);
          p := p + 1;
        }
      }
    }

    method EmitLiteral(buffer: array<int>, cp0: nat, x: int) returns (cp: nat)
      requires cp0 < buffer.Length
      modifies buffer
      ensures cp == cp0 + 1 && buffer[..cp] == old(buffer[..cp0]) + [x]
    {
      buffer[cp0] := x;
      cp := cp0 + 1;
    }

    /** The actions of one dasm_put, up to its stop. */
    method EncodePut(buffer: array<int>, base: int, p0: int, pos0: int, cp0: nat, ghost s: nat, ghost k0: nat,
                     ghost out: seq<int>,
                     ghost gl0: map<int, int>, ghost gs: map<int, int>)
      returns (pos: int, cp: nat, ghost k: nat)
      requires Encodable() && buffer.Length >= codesize && s < |tr| && |out| == starts[s]
      requires k0 < |tr[s]| && tr[s][k0].p == p0 && tr[s][k0].pos == pos0
      requires cp0 <= buffer.Length && buffer[..cp0] == Code(al, b, gl0, base, out, tr[s], k0)
      requires GlobalsKept(log, gl0, globals) && globals == TableIn(al, b, base, gs, tr[s], k0)
      modifies buffer, this`globals
      ensures k0 <= k < |tr[s]| && tr[s][k].pos == pos && IsStop(At(al, tr[s][k].p))
      ensures cp <= buffer.Length && buffer[..cp] == Code(al, b, gl0, base, out, tr[s], k)
      ensures GlobalsKept(log, gl0, globals) && globals == TableIn(al, b, base, gs, tr[s], k)
    {
      var p := p0;
      pos, cp, k := pos0, cp0, k0;
      ItemShape(al, fixed, tr, spos, sofs, s, k);
      while !(al[p] == SECTION || al[p] == STOP)
        invariant k0 <= k < |tr[s]| && 0 <= p < |al| && tr[s][k].p == p && tr[s][k].pos == pos
        invariant cp <= buffer.Length && buffer[..cp] == Code(al, b, gl0, base, out, tr[s], k)
        invariant GlobalsKept(log, gl0, globals)
                    && globals == TableIn(al, b, base, gs, tr[s], k)
        decreases |tr[s]| - k
      {
        EncodeReady(s, k, out, gl0, base, buffer[..cp], buffer.Length);
        p, pos, cp := EncodeAction(buffer, base, p, pos, cp, tr[s][k], tr[s][k + 1], gl0);
        k := k + 1;
        ItemShape(al, fixed, tr, spos, sofs, s, k);
      }
    }

    lemma EncodeReady(s: nat, k: nat, out: seq<int>, gl0: map<int, int>, base: int, c: seq<int>, size: nat)
      requires Encodable() && s < |tr| && |out| == starts[s] && k < |tr[s]| && !IsStop(At(al, tr[s][k].p))
                 && size >= codesize
      requires c == Code(al, b, gl0, base, out, tr[s], k)
      ensures k + 1 < |tr[s]| && ItemReady(al, b, fixed, tr[s][k], tr[s][k + 1], c, size)
      ensures IsRef(At(al, tr[s][k].p)) && Held(b, tr[s][k].pos) < 0 ==> Undefined(log, -Held(b, tr[s][k].pos))
      ensures At(al, tr[s][k].p) == LABEL_LG ==> !Undefined(log, At(al, tr[s][k].p + 1))
    {
      ItemIsReady(al, b, fixed, tr, spos, sofs, adj, starts, gl0, base, out, s, k, c, log, at);
      if IsRef(At(al, tr[s][k].p)) {
        AtItem(al, b, fixed, tr, spos, sofs, adj, starts, gl0, base, out, s, k);
        if Held(b, tr[s][k].pos) < 0 { MarkedUndefined(al, fixed, tr, log, at, spos, sofs, s, k); }
      }
      if At(al, tr[s][k].p) == LABEL_LG { DefinedHere(al, fixed, tr, log, at, spos, sofs, s, k); }
    }

    method EncodeSection(buffer: array<int>, base: int, s: nat, cp0: nat, ghost gl0: map<int, int>) returns (cp: nat)
      requires Encodable() && buffer.Length >= codesize && s < |tr|
      requires cp0 <= buffer.Length && buffer[..cp0] == Program(al, b, gl0, base, tr, s)
      requires GlobalsKept(log, gl0, globals) && globals == Table(al, b, base, gl0, tr, s)
      modifies buffer, this`globals
      ensures cp <= buffer.Length && buffer[..cp] == Program(al, b, gl0, base, tr, s + 1)
      ensures GlobalsKept(log, gl0, globals) && globals == Table(al, b, base, gl0, tr, s + 1)
    {
      var pos, endb := SecPos(s), spos[s];
      cp := cp0;
      ghost var k, out, gs, t := 0, buffer[..cp0], globals, tr[s];
      ProgramLength(al, b, fixed, tr, spos, sofs, adj, starts, gl0, base, s);
      while pos != endb
        invariant k <= |t| && pos == (if k == 0 then SecPos(s) else t[k - 1].pos)
                    && (k > 0 ==> IsStop(At(al, t[k - 1].p)))
        invariant cp <= buffer.Length && buffer[..cp] == Code(al, b, gl0, base, out, t, k)
        invariant GlobalsKept(log, gl0, globals)
                    && globals == TableIn(al, b, base, gs, t, k)
        decreases |t| - k
      {
        EncodeStart(s, k, pos);
        var p := b[pos];
        pos := pos + 1;
        ghost var k1;
        pos, cp, k1 := EncodePut(buffer, base, p, pos, cp, s, k, out, gl0, gs);
        k := k1 + 1;
      }
      AllItems(s, k, pos);
    }

    /** Starts of dasm_put are not changed by linking. */
    lemma EncodeStart(s: nat, k: nat, pos: int)
      requires Encodable() && s < |tr| && k <= |tr[s]| && pos != spos[s]
      requires (pos == if k == 0 then SecPos(s) else tr[s][k - 1].pos) && (k > 0 ==> IsStop(At(al, tr[s][k - 1].p)))
      ensures k < |tr[s]| && pos in b && b[pos] == tr[s][k].p && tr[s][k].pos == pos + 1
    {
      assert SectionLinked(al, b, fixed, sofs, s, tr[s], adj[s], starts[s], starts[s + 1]);
      assert Traced(al, fixed, tr[s], SecPos(s), spos[s], sofs[s]);
      if k > 0 {
        ItemShape(al, fixed, tr, spos, sofs, s, k - 1);
        assert LinkAt(al, b, fixed, sofs, s, tr[s], adj[s], k - 1);
      }
    }

    /**
     * dasm_encode: the code is that of all sections, of the size that linking returned, and the globals
     * that are defined have their final addresses.
     */
    method Encode(buffer: array<int>, base: int) returns (status: int)
      requires Encodable() && buffer.Length >= codesize
      modifies buffer, this`globals
      ensures status == S_OK && codesize >= 0
      ensures buffer[..codesize] == Program(al, b, old(globals), base, tr, |tr|)
      ensures GlobalsKept(log, old(globals), globals) && GlobalsSet(log, tr, adj, sofs, base, globals)
    {
      var cp: nat, secnum := 0, 0;
      while secnum < |spos|
        invariant 0 <= secnum <= |spos| && cp <= buffer.Length
        invariant buffer[..cp] == Program(al, b, old(globals), base, tr, secnum)
        invariant GlobalsKept(log, old(globals), globals) && globals == Table(al, b, base, old(globals), tr, secnum)
      {
        cp := EncodeSection(buffer, base, secnum, cp, old(globals));
        secnum := secnum + 1;
      }
      ProgramLength(al, b, fixed, tr, spos, sofs, adj, starts, old(globals), base, |tr|);
      GlobalsDone(al, b, fixed, tr, spos, sofs, adj, starts, old(globals), base, log, at);
      status := if codesize != cp then S_PHASE else S_OK;
    }

    /** The definition that reference item k of section s binds to, as an item. */
    lemma BoundItem(s: nat, k: nat) returns (d: int)
      requires Encodable() && s < |tr| && k < |tr[s]| && IsRef(At(al, tr[s][k].p)) && Held(b, tr[s][k].pos) >= 0
      ensures tr[s][k].pos in at && at[tr[s][k].pos] < |log| && RefFor(al, tr[s][k], log[at[tr[s][k].pos]])
      ensures 0 <= d < |log| && log[d].Def? && log[d].lab == log[at[tr[s][k].pos]].lab
                && log[d].pos == Bound(log, at[tr[s][k].pos])
      ensures LabelItem(al, tr, log[d].s, log[d].j, Held(b, tr[s][k].pos)) && log[d].pos == Held(b, tr[s][k].pos)
    {
      RefTarget(al, fixed, tr, log, at, spos, sofs, s, k);
      ItemShape(al, fixed, tr, spos, sofs, s, k);
      assert SectionLinked(al, b, fixed, sofs, s, tr[s], adj[s], starts[s], starts[s + 1]);
      assert LinkAt(al, b, fixed, sofs, s, tr[s], adj[s], k);
      var i := at[tr[s][k].pos];
      assert TargetSlot(fixed, log, i);
      d := BoundIsDef(log, i);
      assert LabelLogged(al, tr, log, d);
    }

    /**
     * In the emitted code every branch transfers to the final position of the
     * definition that its reference binds to.
     */
    lemma EveryBranchLands(s: nat, k: nat, gl: map<int, int>, base: int) returns (d: int, c: seq<int>)
      requires Encodable() && s < |tr| && k < |tr[s]| && IsRel(At(al, tr[s][k].p)) && Held(b, tr[s][k].pos) >= 0
      ensures tr[s][k].pos in at && at[tr[s][k].pos] < |log| && RefFor(al, tr[s][k], log[at[tr[s][k].pos]])
      ensures 0 <= d < |log| && log[d].Def? && log[d].pos == Bound(log, at[tr[s][k].pos]) && log[d].s < |tr|
      ensures c <= Program(al, b, gl, base, tr, |tr|) && |c| == Final(tr[s], adj[s], sofs[s], k + 1)
      ensures Lands(c, At(al, tr[s][k].p - 1), Held(b, tr[s][k].pos + 1),
                Final(tr[log[d].s], adj[log[d].s], sofs[log[d].s], log[d].j))
    {
      d := BoundItem(s, k);
      c := BranchLands(al, b, fixed, tr, spos, sofs, adj, starts, gl, base, s, k, log[d].s, log[d].j);
    }

    /** dasm_getpclabel: the code offset of the latest definition, -1 if there are only references, else -2. */
    method GetPcLabel(pc: nat) returns (r: int, ghost d: int)
      requires Encodable()
      ensures Pc(pc) in labels && Settled(log, Pc(pc)) ==>
                && 0 <= d < |log| && log[d].Def? && log[d].lab == Pc(pc) && log[d].s < |tr|
                && (forall i :: d < i < |log| && log[i].lab == Pc(pc) ==> log[i].Ref?)
                && r == Final(tr[log[d].s], adj[log[d].s], sofs[log[d].s], log[d].j)
      ensures Pc(pc) in labels && PendingHead(log, Pc(pc)) != 0 ==> r == -1
      ensures Pc(pc) !in labels || (!Settled(log, Pc(pc)) && PendingHead(log, Pc(pc)) == 0) ==> r == -2
    {
      d := 0;
      if Pc(pc) in labels {
        EntrySpec(log, Pc(pc));
        var pos := labels[Pc(pc)];
        if pos < 0 {
          d := LastDefSpec(log, Pc(pc));
          assert LabelLogged(al, tr, log, d);
          LabelFinal(al, b, fixed, tr, spos, sofs, adj, starts, log[d].s, log[d].j, -pos);
          return b[-pos], d;
        }
        if pos > 0 {
          return -1, d;
        }
      }
      r := -2;
    }
  }

  /** A section buffer has no room left, or a label that is no global was never defined. */
  datatype Outcome = Assembled | NoRoom | Missing(l: Label)

  /** What Assemble returns: the calls that were played, in order, and why it stopped. */
  ghost predicate Result(al: seq<int>, calls: seq<Call>, maxsection: nat, base: int, outcome: Outcome, asm: Assembler,
                         run: seq<Played>, code: seq<int>)
    reads asm
  {
    && |run| <= |calls| && (forall i :: 0 <= i < |run| ==> run[i].call == calls[i])
        && Recorded(al, asm.State(), run, maxsection)
    && match outcome
       case Assembled =>
         && |run| == |calls| && asm.Encodable() && Resolved(asm.labels) && |code| == asm.codesize
         && (exists gl :: code == Program(al, asm.b, gl, base, asm.tr, |asm.tr|))
         && GlobalsSet(asm.log, asm.tr, asm.adj, asm.sofs, base, asm.globals)
       case NoRoom =>
         && |run| < |calls| && var sec := SectionOf(al, run);
         sec < |asm.spos| && asm.spos[sec] + MAXSECPOS >= SecPos(sec + 1)
       case Missing(l) =>
         |run| == |calls| && (l.Lg? ==> l.n < 10) && PendingHead(LogOf(al, run, maxsection), l) != 0
  }

  method FirstUndefined(asm: Assembler) returns (l: Label)
    requires asm.Valid() && !Resolved(asm.labels)
    ensures l in asm.labels && (l.Lg? ==> l.n < 10) && PendingHead(asm.log, l) != 0
  {
    RestOpened(asm.al, asm.State());
    l :| l in asm.labels && asm.labels[l] > 0 && (l.Lg? ==> l.n < 10);
    EntrySpec(asm.log, l);
  }

  method PutAll(asm: Assembler, calls: seq<Call>, maxsection: nat) returns (room: bool, ghost run: seq<Played>)
    requires asm.Valid() && Recorded(asm.al, asm.State(), [], maxsection) && |asm.sofs| == maxsection
               && asm.section == 0
    requires forall i :: 0 <= i < |calls| ==>
               WellFormed(asm.al, calls[i].start, calls[i].args, 0, asm.labels.Keys, maxsection, MAXSECPOS - 1)
    modifies asm
    ensures asm.Valid() && asm.labels.Keys == old(asm.labels.Keys) && Recorded(asm.al, asm.State(), run, maxsection)
    ensures |run| <= |calls| && (forall i :: 0 <= i < |run| ==> run[i].call == calls[i])
              && asm.section == SectionOf(asm.al, run)
    ensures room <==> |run| == |calls|
    ensures !room ==> asm.section < |asm.spos| && asm.spos[asm.section] + MAXSECPOS >= SecPos(asm.section + 1)
  {
    var i := 0;
    room, run := false, [];
    while i < |calls|
      invariant 0 <= i == |run| <= |calls| && asm.Valid() && asm.labels.Keys == old(asm.labels.Keys)
                  && |asm.sofs| == maxsection
      invariant Recorded(asm.al, asm.State(), run, maxsection) && asm.section == SectionOf(asm.al, run)
      invariant forall k :: 0 <= k < |run| ==> run[k].call == calls[k]
    {
      if asm.spos[asm.section] + MAXSECPOS >= SecPos(asm.section + 1) {
        return;
      }
      ghost var st, c := asm.State(), Started(calls[i].start, calls[i].args, asm.section, asm.log, asm.tr, asm.fixed);
      ghost var t := asm.Put(calls[i].start, calls[i].args);
      RecordedMore(asm.al, st, asm.State(), run, maxsection, c, t);
      run := run + [Played(calls[i], t)];
      i := i + 1;
    }
    room := true;
  }

  /**
   * A whole run: any sequence of well-formed calls, then linking, then encoding
   * into a buffer of the size that linking returned. It stops early only if a
   * buffer has no room left or a label that is no global was never defined.
   */
  method Assemble(al: seq<int>, calls: seq<Call>, maxsection: nat, maxgl: nat, maxpc: nat, base: int)
    returns (outcome: Outcome, asm: Assembler, code: seq<int>, ghost run: seq<Played>)
    requires maxsection > 0
    requires forall i :: 0 <= i < |calls| ==>
               WellFormed(al, calls[i].start, calls[i].args, 0, LabelSet(maxgl, maxpc), maxsection, MAXSECPOS - 1)
    ensures Result(al, calls, maxsection, base, outcome, asm, run, code)
  {
    code := [];
    asm := new Assembler(maxsection, al, maxgl, maxpc);
    var room;
    room, run := PutAll(asm, calls, maxsection);
    if !room {
      outcome := NoRoom;
      return;
    }
    if !Resolved(asm.labels) {
      var l := FirstUndefined(asm);
      outcome := Missing(l);
      return;
    }
    outcome := Assembled;
    code := Finish(asm, base, run, maxsection);
  }

  /** dasm_link and dasm_encode */
  method Finish(asm: Assembler, base: int, ghost run: seq<Played>, ghost maxsection: nat) returns (code: seq<int>)
    requires asm.Valid() && TableOk(asm.labels.Keys, asm.nlg) && Resolved(asm.labels)
               && Recorded(asm.al, asm.State(), run, maxsection)
    modifies asm
    ensures asm.Encodable() && Recorded(asm.al, asm.State(), run, maxsection) && Resolved(asm.labels)
              && |code| == asm.codesize
    ensures exists gl :: code == Program(asm.al, asm.b, gl, base, asm.tr, |asm.tr|)
    ensures GlobalsSet(asm.log, asm.tr, asm.adj, asm.sofs, base, asm.globals)
  {
    ghost var st := asm.State();
    var size := asm.Link();
    RecordedKept(asm.al, st, asm.State(), run, maxsection);
    ProgramLength(asm.al, asm.b, asm.fixed, asm.tr, asm.spos, asm.sofs, asm.adj, asm.starts, asm.globals, base,
        |asm.tr|);
    var buffer := new int[size];
    ghost var gl := asm.globals;
    var status := asm.Encode(buffer, base);
    code := buffer[..];
    assert code == Program(asm.al, asm.b, gl, base, asm.tr, |asm.tr|);
  }

  /** Local label 1, jumps to the next and to the previous definition of it, and the label again. */
  function MissingList(): seq<int> {
    [LABEL_LG, 1, ESC, 0xe9, REL_LG, 247, ESC, 0xe9, REL_LG, 1, LABEL_LG, 1, STOP]
  }

  lemma MissingRest()
    ensures WellFormed(MissingList(), 6, [], 0, LabelSet(0, 0), 1, 21)
  {
    var al, keys := MissingList(), LabelSet(0, 0);
    assert Lg(1) in keys;
    assert WellFormed(al, 12, [], 0, keys, 1, 18) && WellFormed(al, 10, [], 0, keys, 1, 19);
    assert WellFormed(al, 8, [], 1, keys, 1, 21);
  }

  lemma MissingShape()
    ensures WellFormed(MissingList(), 0, [], 0, LabelSet(0, 0), 1, MAXSECPOS - 1)
  {
    var al, keys := MissingList(), LabelSet(0, 0);
    assert Lg(1) in keys;
    MissingRest();
    assert WellFormed(al, 4, [], 1, keys, 1, 23) && WellFormed(al, 2, [], 0, keys, 1, 23);
  }

  lemma MissingActions()
    ensures Actions(MissingList(), 0) == [0, 2, 4, 6, 8, 10, 12]
  {
    var al := MissingList();
    assert Actions(al, 12) == [12] && Actions(al, 10) == [10, 12] && Actions(al, 8) == [8, 10, 12]
        && Actions(al, 6) == [6, 8, 10, 12];
    assert Actions(al, 4) == [4, 6, 8, 10, 12] && Actions(al, 2) == [2, 4, 6, 8, 10, 12];
  }

  /** The items of these actions, whatever the offsets. */
  ghost predicate MissingItems(t: seq<Item>) {
    && |t| == 7 && t[0].p == 0 && t[1].p == 2 && t[2].p == 4 && t[3].p == 6 && t[4].p == 8 && t[5].p == 10
        && t[6].p == 12
    && t[0].pos == 1 && t[1].pos == 2 && t[2].pos == 2 && t[3].pos == 4 && t[4].pos == 4 && t[5].pos == 6
  }

  lemma MissingWalk(fixed: map<int, int>, t: seq<Item>)
    requires Walk(MissingList(), fixed, t, 0) && Places(t) == [0, 2, 4, 6, 8, 10, 12]
    ensures MissingItems(t)
  {
    var al := MissingList();
    assert |t| == |Places(t)| == 7;
    assert t[0].p == Places(t)[0] && t[1].p == Places(t)[1] && t[2].p == Places(t)[2] && t[3].p == Places(t)[3];
    assert t[4].p == Places(t)[4] && t[5].p == Places(t)[5] && t[6].p == Places(t)[6];
    assert StepAt(al, fixed, t, 0) && StepAt(al, fixed, t, 1) && StepAt(al, fixed, t, 2);
    assert StepAt(al, fixed, t, 3) && StepAt(al, fixed, t, 4);
  }

  lemma MissingEvent(t: seq<Item>, k: nat, log: seq<Event>)
    requires MissingItems(t) && k < 7 && Events(MissingList(), t[..k], [], 0, 0) == log
    ensures Events(MissingList(), t[..k + 1], [], 0, 0)
         == log + if k == 0 || k == 5 then [Def(Lg(1), t[k].pos, 0, k)] else if k == 2 || k == 4
             then [Ref(Lg(1), k == 2, t[k].pos)] else []
  {
    assert t[..k + 1][..k] == t[..k] && t[..k + 1][k] == t[k];
  }

  lemma MissingEvents1(t: seq<Item>)
    requires MissingItems(t)
    ensures Events(MissingList(), t[..3], [], 0, 0) == [Def(Lg(1), 1, 0, 0), Ref(Lg(1), true, 2)]
  {
    MissingEvent(t, 0, []);
    MissingEvent(t, 1, [Def(Lg(1), 1, 0, 0)]);
    MissingEvent(t, 2, [Def(Lg(1), 1, 0, 0)]);
  }

  lemma MissingEvents(t: seq<Item>)
    requires MissingItems(t)
    ensures Events(MissingList(), t, [], 0, 0) == MissingLog()
  {
    var log2 := [Def(Lg(1), 1, 0, 0), Ref(Lg(1), true, 2)];
    var log3 := log2 + [Ref(Lg(1), false, 4)];
    MissingEvents1(t);
    MissingEvent(t, 3, log2);
    MissingEvent(t, 4, log2);
    MissingEvent(t, 5, log3);
    MissingEvent(t, 6, log3 + [Def(Lg(1), 6, 0, 5)]);
    assert t[..7] == t;
  }

  /** All labels are defined at the end. */
  lemma NothingMissing(l: Label)
    ensures Entry(MissingLog(), l) <= 0
  {
    var log := MissingLog();
    assert Front(log) == log[..3] && Front(log[..3]) == log[..2] && Front(log[..2]) == log[..1]
        && Front(log[..1]) == [];
    assert l != Lg(1) ==>
        PendingHead(log[..1], l) == 0 && PendingHead(log[..2], l) == 0 && PendingHead(log[..3], l) == 0;
    assert l != Lg(1) ==> !Settled(log[..1], l) && !Settled(log[..2], l) && !Settled(log[..3], l);
  }

  method PutMissing() returns (asm: Assembler)
    ensures fresh(asm) && asm.Valid() && asm.al == MissingList() && asm.log == MissingLog() && |asm.tr| == 1
              && MissingItems(asm.tr[0])
    ensures asm.labels.Keys == LabelSet(0, 0) && asm.nlg == 10
  {
    MissingShape();
    MissingActions();
    asm := new Assembler(1, MissingList(), 0, 0);
    ghost var t := asm.Put(0, []);
    RestOpened(asm.al, asm.State());
    assert asm.tr[0] == t;
    MissingWalk(asm.fixed, t);
    MissingEvents(t);
  }

  /** The slot of the backward jump leads to the second definition. */
  lemma JumpBound(asm: Assembler) returns (c: seq<int>)
    requires asm.Encodable() && asm.al == MissingList() && asm.log == MissingLog() && |asm.tr| == 1
               && MissingItems(asm.tr[0])
    ensures c <= Program(asm.al, asm.b, map[], 0, asm.tr, 1)
    ensures Lands(c, 0xe9, Held(asm.b, asm.tr[0][4].pos + 1), Final(asm.tr[0], asm.adj[0], asm.sofs[0], 5))
  {
    var log := MissingLog();
    BackwardMayMiss();
    JumpSlot(asm);
    var d;
    d, c := asm.EveryBranchLands(0, 4, map[], 0);
    assert log[d].pos == 6 ==> d == 3;
  }

  lemma JumpSlot(asm: Assembler)
    requires asm.Encodable() && asm.al == MissingList() && asm.log == MissingLog() && |asm.tr| == 1
               && MissingItems(asm.tr[0])
    ensures 4 in asm.at && asm.at[4] == 2 && Held(asm.b, 4) == 6 && IsRel(At(asm.al, 8)) && At(asm.al, 7) == 0xe9
  {
    var log := MissingLog();
    BackwardMayMiss();
    RefTarget(asm.al, asm.fixed, asm.tr, asm.log, asm.at, asm.spos, asm.sofs, 0, 4);
    assert SectionLinked(asm.al, asm.b, asm.fixed, asm.sofs, 0, asm.tr[0], asm.adj[0], asm.starts[0], asm.starts[1]);
    assert LinkAt(asm.al, asm.b, asm.fixed, asm.sofs, 0, asm.tr[0], asm.adj[0], 4);
    assert log[asm.at[4]].pos == 4 ==> asm.at[4] == 2;
  }

  /**
   * dasm_put records that log for well-formed actions, so that the backward jump
   * is bound to the definition behind it and lands there, not at the previous one.
   */
  method BackwardJumpMisses() returns (asm: Assembler, ghost c: seq<int>)
    ensures asm.al == MissingList() && asm.Encodable() && asm.log == MissingLog() && Bound(asm.log, 2) == asm.log[3].pos
    ensures |asm.tr| == 1 && MissingItems(asm.tr[0]) && c <= Program(asm.al, asm.b, map[], 0, asm.tr, 1)
    ensures Lands(c, 0xe9, Held(asm.b, asm.tr[0][4].pos + 1), Final(asm.tr[0], asm.adj[0], asm.sofs[0], 5))
  {
    asm := PutMissing();
    BackwardMayMiss();
    RestOpened(asm.al, asm.State());
    forall l | l in asm.labels ensures asm.labels[l] <= 0 { NothingMissing(l); }
    var size := asm.Link();
    c := JumpBound(asm);
  }
}
