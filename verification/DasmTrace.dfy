/**
 * The walk through a section of DynASM (dasm_x86.h) that all three passes make:
 * one item for each action, with its place in the action list and in the
 * section buffer, and with its offset as pass 1 estimates it.
 */
module DasmTrace {
  import opened DasmLabels
  import opened DasmActions

  /** Positions are biased by the section: where the buffer of section s starts. */
  function SecPos(s: int): int { s * 0x100_0000 }

  /** The section of a position. */
  function PosSec(pos: int): int { pos / 0x100_0000 }

  /** lits counts the literal bytes right before the action in the same dasm_put. */
  datatype Item = Item(p: int, pos: int, ofs: int, lits: int)

  /** The buffer slots of an item after pass 1. */
  ghost predicate SlotsOk(al: seq<int>, fixed: map<int, int>, x: Item)
  {
    var a := At(al, x.p);
    && (IsArg(a) ==> x.pos in fixed)
    && (a == SPACE ==> fixed[x.pos] >= 0)
    && (IsLabel(a) ==> x.pos in fixed && fixed[x.pos] == x.ofs)
    && (a == ALIGN ==> x.pos in fixed && fixed[x.pos] == x.ofs + At(al, x.p + 1))
    && (IsRel(a) ==> x.pos + 1 in fixed && fixed[x.pos + 1] == x.ofs + 4)
  }

  function SizeOf(al: seq<int>, fixed: map<int, int>, x: Item): int
  {
    MaxSize(al, x.p, if x.pos in fixed then fixed[x.pos] else 0)
  }

  /** From one action to the next. */
  ghost predicate Step(al: seq<int>, fixed: map<int, int>, x: Item, y: Item) {
    && Shaped(al, x.p, x.lits) && SlotsOk(al, fixed, x)
    && var a := At(al, x.p);
    && y.pos == x.pos + Slots(a)
    && if IsStop(a) then x.pos in fixed && y.p == fixed[x.pos] && y.ofs == x.ofs && y.lits == 0
       else y.p == x.p + Length(a) && y.ofs == x.ofs + SizeOf(al, fixed, x) && y.lits == if IsLiteral(a) then x.lits + 1
           else 0
  }

  ghost predicate StepAt(al: seq<int>, fixed: map<int, int>, t: seq<Item>, i: int) {
    0 <= i < |t| - 1 ==> Step(al, fixed, t[i], t[i + 1])
  }

  /** The items of a section whose buffer starts at the given position. */
  ghost predicate Walk(al: seq<int>, fixed: map<int, int>, t: seq<Item>, start: int) {
    && (t != [] ==> start in fixed && t[0] == Item(fixed[start], start + 1, 0, 0))
    && forall i {:trigger StepAt(al, fixed, t, i)} :: StepAt(al, fixed, t, i)
  }

  /** A section between two calls of dasm_put: the last action is a stop. */
  ghost predicate Traced(al: seq<int>, fixed: map<int, int>, t: seq<Item>, start: int, end: int, ofs: int) {
    && Walk(al, fixed, t, start)
    && if t == [] then end == start && ofs == 0
       else
         var x := t[|t| - 1];
         Shaped(al, x.p, x.lits) && IsStop(At(al, x.p)) && end == x.pos && ofs == x.ofs
  }

  /** The maps only grow where nothing was. */
  ghost predicate Grown(fixed: map<int, int>, fixed': map<int, int>) {
    forall x :: x in fixed ==> x in fixed' && fixed'[x] == fixed[x]
  }

  lemma StepGrown(al: seq<int>, fixed: map<int, int>, fixed': map<int, int>, x: Item, y: Item)
    requires Step(al, fixed, x, y) && Grown(fixed, fixed')
    requires x.pos in fixed' ==> x.pos in fixed || IsRef(At(al, x.p)) || IsLiteral(At(al, x.p))
    ensures Step(al, fixed', x, y)
  {
  }

  lemma WalkGrown(al: seq<int>, fixed: map<int, int>, fixed': map<int, int>, t: seq<Item>, start: int)
    requires Walk(al, fixed, t, start) && Grown(fixed, fixed')
    ensures Walk(al, fixed', t, start)
  {
    forall i ensures StepAt(al, fixed', t, i) {
      assert StepAt(al, fixed, t, i);
      if 0 <= i < |t| - 1 { StepGrown(al, fixed, fixed', t[i], t[i + 1]); }
    }
  }

  lemma TracedGrown(al: seq<int>, fixed: map<int, int>, fixed': map<int, int>, t: seq<Item>, start: int, end: int,
                    ofs: int)
    requires Traced(al, fixed, t, start, end, ofs) && Grown(fixed, fixed')
    ensures Traced(al, fixed', t, start, end, ofs)
  {
    WalkGrown(al, fixed, fixed', t, start);
  }

  lemma WalkExtended(al: seq<int>, fixed: map<int, int>, t: seq<Item>, start: int, y: Item)
    requires Walk(al, fixed, t, start) && t != [] && Step(al, fixed, t[|t| - 1], y)
    ensures Walk(al, fixed, t + [y], start)
  {
    var t' := t + [y];
    forall i ensures StepAt(al, fixed, t', i) { assert StepAt(al, fixed, t, i); }
  }

  /** Items own disjoint slots, in ascending order. */
  lemma {:induction false} SlotOrder(al: seq<int>, fixed: map<int, int>, t: seq<Item>, start: int, i: int, j: int)
    requires Walk(al, fixed, t, start) && 0 <= i < j < |t|
    ensures Shaped(al, t[i].p, t[i].lits) && t[i].pos + Slots(At(al, t[i].p)) <= t[j].pos && start < t[i].pos
    decreases j - i
  {
    assert StepAt(al, fixed, t, i);
    if i + 1 < j { SlotOrder(al, fixed, t, start, i + 1, j); }
    AboveStart(al, fixed, t, start, i);
  }

  lemma {:induction false} AboveStart(al: seq<int>, fixed: map<int, int>, t: seq<Item>, start: int, i: nat)
    requires Walk(al, fixed, t, start) && i < |t|
    ensures start < t[i].pos && t[i].ofs >= 0 && t[i].lits >= 0 && t[i].ofs >= t[i].lits
    decreases i
  {
    if i > 0 {
      assert StepAt(al, fixed, t, i - 1);
      AboveStart(al, fixed, t, start, i - 1);
    }
  }

  // ---- What is in the section buffers ----

  /** Position x belongs to a section whose buffer reaches beyond it. */
  ghost predicate InBuffers(ends: seq<int>, x: int) {
    var s := PosSec(x);
    0 <= s < |ends| && x < ends[s]
  }

  ghost predicate EventOk(fixed: map<int, int>, ends: seq<int>, e: Event) {
    InBuffers(ends, e.pos) && (e.Def? <==> e.pos in fixed) && ForwardLocal(e)
  }

  /** Slots hold what pass 1 put there, except that those of references are threaded. */
  ghost predicate Buffers(b: map<int, int>, fixed: map<int, int>, log: seq<Event>, labels: map<Label, int>,
                          ends: seq<int>) {
    && Threaded(b, labels, log)
    && (forall x :: x in fixed ==> x in b && b[x] == fixed[x] && InBuffers(ends, x))
    && (forall i :: 0 <= i < |log| ==> EventOk(fixed, ends, log[i]) && log[i].lab in labels)
  }

  /** A definition was made by a label action. */
  ghost predicate LabelLogged(al: seq<int>, tr: seq<seq<Item>>, log: seq<Event>, i: nat) {
    i < |log| && log[i].Def? ==>
      && log[i].s < |tr| && log[i].j < |tr[log[i].s]|
      && var x := tr[log[i].s][log[i].j];
      && x.pos == log[i].pos && IsLabel(At(al, x.p))
      && (At(al, x.p) == LABEL_LG ==> log[i].lab == LabelOf(al, x.p, 0))
      && (At(al, x.p) == LABEL_PC ==> log[i].lab.Pc?)
  }

  ghost predicate RefFor(al: seq<int>, x: Item, e: Event) {
    && e.Ref? && e.pos == x.pos && e.fwd == IsForward(al, x.p)
    && (At(al, x.p) == REL_LG || At(al, x.p) == IMM_LG ==> e.lab == LabelOf(al, x.p, 0))
    && (At(al, x.p) == REL_PC || At(al, x.p) == IMM_PC ==> e.lab.Pc?)
  }

  /** A reference or a definition was logged; at finds the event by its slot. */
  ghost predicate RefLogged(al: seq<int>, tr: seq<seq<Item>>, log: seq<Event>, at: map<int, nat>, s: nat, j: nat) {
    s < |tr| && j < |tr[s]| && (IsRef(At(al, tr[s][j].p)) || IsLabel(At(al, tr[s][j].p))) ==>
      var x := tr[s][j];
      && x.pos in at && at[x.pos] < |log|
      && (IsRef(At(al, x.p)) ==> RefFor(al, x, log[at[x.pos]]))
      && (IsLabel(At(al, x.p)) ==> log[at[x.pos]].Def? && (At(al, x.p) == LABEL_LG ==> log[at[x.pos]].lab == LabelOf(al, x.p, 0)))
  }

  ghost predicate Logged(al: seq<int>, tr: seq<seq<Item>>, log: seq<Event>, at: map<int, nat>) {
    && (forall x :: x in at ==> at[x] < |log| && log[at[x]].pos == x)
    && (forall i {:trigger LabelLogged(al, tr, log, i)} :: LabelLogged(al, tr, log, i))
    && (forall s, j {:trigger RefLogged(al, tr, log, at, s, j)} :: RefLogged(al, tr, log, at, s, j))
  }

  /** One more slot with fixed contents. */
  lemma SlotStored(b: map<int, int>, fixed: map<int, int>, log: seq<Event>, labels: map<Label, int>, ends: seq<int>,
                   s: nat, v: int)
    requires Buffers(b, fixed, log, labels, ends) && s < |ends| && SecPos(s) <= ends[s] < SecPos(s + 1)
    ensures ends[s] !in fixed
    ensures Buffers(b[ends[s] := v], fixed[ends[s] := v], log, labels, ends[s := ends[s] + 1])
    ensures forall i :: 0 <= i < |log| ==> log[i].pos != ends[s]
  {
    var x := ends[s];
    assert !InBuffers(ends, x);
    forall i | 0 <= i < |log| ensures log[i].pos != x { assert EventOk(fixed, ends, log[i]); }
    var b', fixed', ends' := b[x := v], fixed[x := v], ends[s := x + 1];
    forall i: nat ensures RefSlot(b', log, i) { assert RefSlot(b, log, i); }
    forall i | 0 <= i < |log| ensures EventOk(fixed', ends', log[i]) { assert EventOk(fixed, ends, log[i]); }
  }

  /** The slot of a new reference. */
  lemma RefStored(b: map<int, int>, fixed: map<int, int>, log: seq<Event>, labels: map<Label, int>, ends: seq<int>,
                  s: nat,
                  l: Label, fwd: bool)
    requires Buffers(b, fixed, log, labels, ends) && s < |ends| && SecPos(s) <= ends[s] < SecPos(s + 1) && ends[s] > 0
               && l in labels
    requires fwd ==> l.Lg? && l.n <= 9
    ensures Buffers(b[ends[s] := Thread(labels, l, fwd)], fixed, log + [Ref(l, fwd, ends[s])],
                    Anchored(labels, l, fwd, ends[s]), ends[s := ends[s] + 1])
    ensures ends[s] !in fixed
  {
    var pos := ends[s];
    SlotStored(b, fixed, log, labels, ends, s, 0);
    RefAdded(b, labels, log, l, fwd, pos);
    var ends', log' := ends[s := pos + 1], log + [Ref(l, fwd, pos)];
    assert PosSec(pos) == s && InBuffers(ends', pos);
    forall i | 0 <= i < |log'| ensures EventOk(fixed, ends', log'[i]) {
      if i < |log| { assert EventOk(fixed, ends, log[i]); }
    }
  }

  /** The slot of a new definition. */
  lemma DefStored(b0: map<int, int>, b: map<int, int>, fixed: map<int, int>, log: seq<Event>, labels: map<Label, int>,
                  ends: seq<int>,
                  s: nat, e: Event, v: int)
    requires Buffers(b0, fixed, log, labels, ends) && s < |ends| && SecPos(s) <= ends[s] < SecPos(s + 1) && ends[s] > 0
    requires e.Def? && e.lab in labels && e.pos == ends[s] && Collapsed(b0, b, log, e.lab, 0, e.pos)
    ensures Buffers(b[e.pos := v], fixed[e.pos := v], log + [e], labels[e.lab := -e.pos], ends[s := e.pos + 1])
    ensures e.pos !in fixed
  {
    SlotStored(b0, fixed, log, labels, ends, s, v);
    DefAdded(b0, b, labels, log, e, v);
    var fixed', ends' := fixed[e.pos := v], ends[s := e.pos + 1];
    forall i | 0 <= i < |log| ensures EventOk(fixed', ends', log[i]) { assert EventOk(fixed, ends, log[i]); }
    FixedKept(b0, b, fixed, log, ends, e.lab, e.pos);
  }

  /** Threading writes to slots of references only. */
  lemma FixedKept(b0: map<int, int>, b: map<int, int>, fixed: map<int, int>, log: seq<Event>, ends: seq<int>, l: Label,
                  v: int)
    requires Collapsed(b0, b, log, l, 0, v) && forall i :: 0 <= i < |log| ==> EventOk(fixed, ends, log[i])
    requires forall x :: x in fixed ==> x in b0
    ensures forall x :: x in fixed ==> x in b && b[x] == b0[x]
  {
    forall x | x in fixed ensures x in b && b[x] == b0[x] {
      forall j | Waits(log, l, 0, j) ensures log[j].pos != x { assert EventOk(fixed, ends, log[j]); }
    }
  }

  /** An executed action joins the trace of its section. */
  lemma ItemLogged(al: seq<int>, tr: seq<seq<Item>>, log: seq<Event>, log': seq<Event>, at: map<int, nat>,
                   at': map<int, nat>, s: nat, x: Item)
    requires Logged(al, tr, log, at) && s < |tr|
    requires log' == log || (|log'| == |log| + 1 && log' == log + [log'[|log|]])
    requires at' == at || (at' == at[x.pos := |log|] && x.pos !in at && log' != log && log'[|log|].pos == x.pos)
    requires IsRef(At(al, x.p)) || IsLabel(At(al, x.p)) ==> x.pos in at' && at'[x.pos] < |log'|
    requires IsRef(At(al, x.p)) ==> RefFor(al, x, log'[at'[x.pos]])
    requires IsLabel(At(al, x.p)) ==> log' != log && at'[x.pos] == |log| && log'[|log|].Def?
    requires log' != log && log'[|log|].Def? ==>
               var e := log'[|log|];
               && e.s == s && e.j == |tr[s]| && x.pos == e.pos && IsLabel(At(al, x.p))
               && (At(al, x.p) == LABEL_LG ==> e.lab == LabelOf(al, x.p, 0))
               && (At(al, x.p) == LABEL_PC ==> e.lab.Pc?)
    ensures Logged(al, tr[s := tr[s] + [x]], log', at')
  {
    var tr' := tr[s := tr[s] + [x]];
    forall i: nat ensures LabelLogged(al, tr', log', i) { assert LabelLogged(al, tr, log, i); }
    forall k: nat, j: nat ensures RefLogged(al, tr', log', at', k, j) { assert RefLogged(al, tr, log, at, k, j); }
  }

  /** A new slot is the slot of no event. */
  lemma NewSlot(al: seq<int>, tr: seq<seq<Item>>, log: seq<Event>, at: map<int, nat>, pos: int)
    requires Logged(al, tr, log, at) && forall i :: 0 <= i < |log| ==> log[i].pos != pos
    ensures pos !in at
  {
  }

  // ---- What one call of dasm_put does ----

  /** How many arguments a sequence of actions takes. */
  function Taken(al: seq<int>, t: seq<Item>): nat {
    if t == [] then 0
    else Taken(al, t[..|t| - 1]) + if TakesArg(At(al, t[|t| - 1].p)) then 1 else 0
  }

  /** The argument of an action that comes behind the actions t. */
  function ArgFor(al: seq<int>, t: seq<Item>, x: Item, args: seq<int>): int {
    if TakesArg(At(al, x.p)) && Taken(al, t) < |args| then args[Taken(al, t)] else 0
  }

  function EventOf(al: seq<int>, x: Item, n: int, s: nat, j: nat): seq<Event> {
    if IsRef(At(al, x.p)) then [Ref(LabelOf(al, x.p, n), IsForward(al, x.p), x.pos)]
    else if IsLabel(At(al, x.p)) then [Def(LabelOf(al, x.p, n), x.pos, s, j)]
    else []
  }

  /** The references and definitions of a sequence of actions, which starts as item j of section s. */
  function Events(al: seq<int>, t: seq<Item>, args: seq<int>, s: nat, j: nat): seq<Event> {
    if t == [] then []
    else
      var front, x := t[..|t| - 1], t[|t| - 1];
      Events(al, front, args, s, j) + EventOf(al, x, ArgFor(al, front, x, args), s, j + |t| - 1)
  }

  ghost predicate ArgStored(al: seq<int>, fixed: map<int, int>, t: seq<Item>, args: seq<int>, i: nat) {
    i < |t| && IsArg(At(al, t[i].p)) ==> t[i].pos in fixed && fixed[t[i].pos] == ArgFor(al, t[..i], t[i], args)
  }

  /** The arguments that the actions t leave. */
  function Left(al: seq<int>, t: seq<Item>, args: seq<int>): seq<int> {
    if t == [] || Taken(al, t) > |args| then args else args[Taken(al, t)..]
  }

  /** The references and definitions with those of the actions t. */
  function Log(al: seq<int>, log0: seq<Event>, t: seq<Item>, args: seq<int>, s: nat, j: nat): seq<Event> {
    if t == [] then log0 else log0 + Events(al, t, args, s, j)
  }

  /** The actions t were executed, and rest is what is left of the arguments. */
  ghost predicate Did(al: seq<int>, fixed: map<int, int>, log0: seq<Event>, log: seq<Event>, t: seq<Item>,
                      args: seq<int>, rest: seq<int>, s: nat, j: nat) {
    && Taken(al, t) <= |args| && rest == Left(al, t, args) && log == Log(al, log0, t, args, s, j)
    && (forall i {:trigger ArgStored(al, fixed, t, args, i)} :: ArgStored(al, fixed, t, args, i))
  }

  lemma DidMore(al: seq<int>, fixed: map<int, int>, fixed': map<int, int>, log0: seq<Event>, log: seq<Event>,
                log': seq<Event>,
                t: seq<Item>, x: Item, args: seq<int>, rest: seq<int>, s: nat, j: nat)
    requires Did(al, fixed, log0, log, t, args, rest, s, j) && Grown(fixed, fixed')
    requires TakesArg(At(al, x.p)) ==> rest != []
    requires IsArg(At(al, x.p)) ==> x.pos in fixed' && fixed'[x.pos] == rest[0]
    requires log' == log + EventOf(al, x, if TakesArg(At(al, x.p)) then rest[0] else 0, s, j + |t|)
    ensures Did(al, fixed', log0, log', t + [x], args, if TakesArg(At(al, x.p)) then rest[1..] else rest, s, j)
  {
    var t' := t + [x];
    assert t'[..|t|] == t;
    assert ArgFor(al, t, x, args) == if TakesArg(At(al, x.p)) then rest[0] else 0;
    assert rest == args[Taken(al, t)..] && log == log0 + Events(al, t, args, s, j);
    forall i: nat ensures ArgStored(al, fixed', t', args, i) {
      assert ArgStored(al, fixed, t, args, i);
      if i < |t| { assert t'[..i] == t[..i]; }
    }
  }
}
