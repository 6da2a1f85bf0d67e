/**
 * The head of a side trace (asm_head_side in lj_asm.c): the values that the
 * parent trace leaves in its registers and spill slots are brought to where the
 * side trace expects them. In the order of execution, registers are shuffled
 * first, then parent slots are loaded, the stack frame grows, and what the trace
 * expects in slots is stored there; the code is emitted the other way round.
 */
module RegHead {
  import opened RaMachine
  import opened RegState
  import opened RegAlloc

  /** Where the parent has a value: in a slot, or else in a register. */
  datatype RegSP = RegSP(reg: nat, spill: nat, wide: bool)

  predicate InReg(rs: RegSP, r: nat) {
    rs.spill == 0 && rs.reg == r
  }

  /** The state in which the parent leaves. */
  ghost predicate ParentHolds(m: Machine, parent: map<nat, RegSP>, sem: Sem) {
    forall x {:trigger x in parent} :: x in parent ==>
      if parent[x].spill != 0 then Stored(m, Slot(parent[x].spill, parent[x].wide), sem.val(x))
      else parent[x].reg in m.regs && m.regs[parent[x].reg] == sem.val(x)
  }

  /** All that is demanded is where the parent has it. */
  ghost predicate FromParent(d: Demand, parent: map<nat, RegSP>) {
    && (forall r {:trigger r in d.regs} :: r in d.regs ==> d.regs[r] in parent && InReg(parent[d.regs[r]], r))
    && (forall x {:trigger x in d.slots} :: x in d.slots ==>
          && x in parent && parent[x].spill != 0
          && d.slots[x] == Slot(parent[x].spill, parent[x].wide))
    && d.outs == map[]
  }

  lemma ParentSuffices(m: Machine, d: Demand, parent: map<nat, RegSP>, sem: Sem)
    requires FromParent(d, parent) && ParentHolds(m, parent, sem)
    ensures Holds(m, d, sem)
  {
    forall r: nat ensures RegOk(m, d, sem, r) { }
    forall x: nat ensures SlotOk(m, d, sem, x) { }
    forall idx: nat ensures OutOk(m, d, sem, idx) { }
  }

  // ---- Transitions ----

  /** A reference whose register is also the parent's needs no move. */
  lemma CoalesceOk(s: St, code: seq<Op>, pend: map<nat, nat>, goal: Demand, sems: iset<Sem>, ref: nat, r: nat)
    requires Core(s, code, pend, goal, sems) && s.weak == {} && r !in pend
    requires ref in s.ir && ref < s.live && ref !in s.gone && HasReg(s.ir[ref].r) && s.ir[ref].r == r
    ensures Core(s.(free := s.free + {r}, gone := s.gone + {ref}), code, pend[r := ref], goal, sems)
    ensures IsReg(r) && r !in s.free
  {
    var s' := s.(free := s.free + {r}, gone := s.gone + {ref});
    assert RefEntry(s, ref);
    forall q: nat ensures RegEntry(s', q) && RefEntry(s', q) { assert RegEntry(s, q) && RefEntry(s, q); }
    SameSlots(s, s');
    AllStronger(code, Want(s, pend), Want(s', pend[r := ref]), goal, sems);
  }

  /** The stack frame grows: what is still wanted in slots is wanted in slots of the parent. */
  lemma GrowOk(s: St, code: seq<Op>, pend: map<nat, nat>, goal: Demand, sems: iset<Sem>, delta: int)
    requires Core(s, code, pend, goal, sems) && s.inherited == map[]
    ensures Core(s.(homed := s.homed + Spilled(s).Keys, inherited := Shifted(Spilled(s), -delta)),
              [SpSub(delta)] + code, pend, goal, sems)
  {
    var slots := Spilled(s);
    var s' := s.(homed := s.homed + slots.Keys, inherited := Shifted(slots, -delta));
    forall q: nat ensures RegEntry(s', q) && RefEntry(s', q) { assert RegEntry(s, q) && RefEntry(s, q); }
    SameSlots(s, s');
    assert Spilled(s') == map[];
    var before, after := Want(s', pend), Want(s, pend);
    assert before.slots == s'.inherited;
    assert after.slots == slots == Shifted(before.slots, delta);
    forall sem | sem in sems { SubStep(delta, before, after, sem); }
    AllFront(SpSub(delta), code, before, after, goal, sems);
  }

  /** A register is loaded from a slot of the parent. */
  lemma FromSlotOk(s: St, code: seq<Op>, pend: map<nat, nat>, goal: Demand, sems: iset<Sem>, ref: nat, r: nat,
                   slot: Slot)
    requires Core(s, code, pend, goal, sems) && s.weak == {} && r !in pend
    requires ref in s.ir && ref < s.live && ref !in s.gone && HasReg(s.ir[ref].r) && s.ir[ref].r == r
    requires ref !in s.inherited && ref !in Spilled(s)
    ensures Core(s.(free := s.free + {r}, gone := s.gone + {ref}, inherited := s.inherited[ref := slot]),
              [SpLoad(r, slot)] + code, pend, goal, sems)
  {
    var s' := s.(free := s.free + {r}, gone := s.gone + {ref}, inherited := s.inherited[ref := slot]);
    assert RefEntry(s, ref);
    forall q: nat ensures RegEntry(s', q) && RefEntry(s', q) { assert RegEntry(s, q) && RefEntry(s, q); }
    SameSlots(s, s');
    var before, after := Want(s', pend), Want(s, pend);
    forall sem | sem in sems { LoadStep(r, ref, slot, before, after, sem); }
    AllFront(SpLoad(r, slot), code, before, after, goal, sems);
  }

  /** A register is filled from a free register of the parent. */
  lemma FromRegOk(s: St, code: seq<Op>, pend: map<nat, nat>, goal: Demand, sems: iset<Sem>, ref: nat, r: nat, rp: nat)
    requires Core(s, code, pend, goal, sems) && s.weak == {} && r !in pend && rp !in pend && rp in s.free
    requires ref in s.ir && ref < s.live && ref !in s.gone && HasReg(s.ir[ref].r) && s.ir[ref].r == r
    ensures Core(s.(free := s.free + {r}, gone := s.gone + {ref}), [Mov(r, rp)] + code, pend[rp := ref], goal, sems)
  {
    var s' := s.(free := s.free + {r}, gone := s.gone + {ref});
    assert RefEntry(s, ref);
    forall q: nat ensures RegEntry(s', q) && RefEntry(s', q) { assert RegEntry(s, q) && RefEntry(s, q); }
    SameSlots(s, s');
    var before, after := Want(s', pend[rp := ref]), Want(s, pend);
    forall sem | sem in sems { MovStep(r, rp, before, after, sem); }
    AllFront(Mov(r, rp), code, before, after, goal, sems);
  }

  // ---- The state of the algorithm ----

  /**
   * Registers to allocate from, parent registers that are still to be moved, and where to; and what
   * is where it belongs.
   */
  datatype Todo = Todo(allow: set<nat>, live: set<nat>, sloadins: map<nat, nat>, pend: map<nat, nat>, pass3: bool)

  predicate Used(s: St, x: nat)
    requires x in s.ir
  {
    HasReg(s.ir[x].r) || (s.ir[x].s != 0 && x !in s.homed)
  }

  /** Distinct references have distinct registers in the parent. */
  ghost predicate Injective(parent: map<nat, RegSP>) {
    forall x, y {:trigger parent[x], parent[y]} ::
        x in parent && y in parent && parent[x].spill == 0 && InReg(parent[y], parent[x].reg) ==> x == y
  }

  ghost predicate ParentOk(parent: map<nat, RegSP>, ir: map<nat, Ins>, stop: nat) {
    && Injective(parent) && (forall x {:trigger x in parent} :: x in parent && parent[x].spill == 0 ==> IsReg(parent[x].reg))
    && forall x {:trigger x in ir} :: x in ir && REF_BASE < x <= stop ==> x in parent && parent[x].wide == ir[x].wide
  }

  /** Register r holds the value of inherited reference x in the parent, or is the one that x was given. */
  ghost predicate SpokenBy(s: St, parent: map<nat, RegSP>, r: nat, x: nat) {
    x in s.ir && REF_BASE < x < s.live && x in parent && (InReg(parent[x], r) || s.ir[x].r == r)
  }

  ghost predicate SpokenFor(s: St, parent: map<nat, RegSP>, r: nat) {
    exists x: nat {:trigger SpokenBy(s, parent, r, x)} :: SpokenBy(s, parent, r, x)
  }

  /**
   * A coalesced register is the parent's own, and is never allocated again. Nothing else is kept from
   * being allocated than registers of inherited references.
   */
  ghost predicate PendAt(s: St, h: Todo, parent: map<nat, RegSP>, r: nat) {
    && (r in h.pend ==>
          r in s.free && r !in h.allow && h.pend[r] in s.gone && h.pend[r] in s.ir && h.pend[r] in parent
          && InReg(parent[h.pend[r]], r))
    && (IsReg(r) && r in s.free && r !in h.allow ==> SpokenFor(s, parent, r))
  }

  /** Only reference y may lose its register. */
  lemma SpokenKept(s: St, s': St, parent: map<nat, RegSP>, y: nat)
    requires s'.live == s.live
    requires forall x {:trigger s.ir[x]} :: x in s.ir && x != y ==> x in s'.ir && s'.ir[x] == s.ir[x]
    requires y in s.ir ==> y in s'.ir
    ensures forall r: nat {:trigger SpokenFor(s', parent, r)} :: SpokenFor(s, parent, r) ==>
              SpokenFor(s', parent, r) || (y in s.ir && s.ir[y].r == r && s'.ir[y].r != r)
    ensures y in s.ir && REF_BASE < y < s.live && y in parent ==> SpokenFor(s, parent, s.ir[y].r)
  {
    forall r: nat | SpokenFor(s, parent, r)
      ensures SpokenFor(s', parent, r) || (y in s.ir && s.ir[y].r == r && s'.ir[y].r != r)
    {
      var x: nat :| SpokenBy(s, parent, r, x);
      assert SpokenBy(s', parent, r, x) || (x == y && s.ir[y].r == r);
    }
    if y in s.ir && REF_BASE < y < s.live && y in parent { assert SpokenBy(s, parent, s.ir[y].r, y); }
  }

  /** A live parent register has a value that some reference above i still needs. */
  ghost predicate LiveAt(s: St, h: Todo, parent: map<nat, RegSP>, i: nat, r: nat) {
    r in h.live ==>
      && r in h.sloadins && h.sloadins[r] in s.ir && i < h.sloadins[r] < s.live && h.sloadins[r] !in s.gone
      && h.sloadins[r] in parent && InReg(parent[h.sloadins[r]], r) && Used(s, h.sloadins[r])
  }

  /** References above i are accounted for: by a slot or by a live register of the parent. */
  ghost predicate RefAt(s: St, h: Todo, parent: map<nat, RegSP>, i: nat, x: nat) {
    && (x in s.ir && x <= REF_BASE ==> !HasReg(s.ir[x].r))
    && (x in s.ir && REF_BASE < x < s.live ==>
          if x <= i then x !in s.gone && x !in s.homed
          else x !in s.gone && Used(s, x) ==>
            && x in parent && (parent[x].spill == 0 ==> parent[x].reg in h.live && parent[x].reg in h.sloadins && h.sloadins[parent[x].reg] == x)
            && (HasReg(s.ir[x].r) ==> s.ir[x].s == 0 || x in s.homed)
            && (HasReg(s.ir[x].r) && parent[x].spill != 0 ==> h.pass3))
  }

  /** Registers to allocate from are free, as far as references above i are concerned. */
  ghost predicate AllowAt(s: St, h: Todo, i: nat, r: nat)
    requires |s.cost| == RID_MAX
  {
    r in h.allow ==> IsReg(r) && (r in s.free || Owner(s.cost[r]) <= i)
  }

  ghost predicate Scanned(s: St, h: Todo, parent: map<nat, RegSP>, i: nat) {
    && |s.cost| == RID_MAX && s.weak == {} && s.outs == map[] && s.live > 0 && ParentOk(parent, s.ir, s.live - 1)
    && (forall r: nat {:trigger PendAt(s, h, parent, r)} :: PendAt(s, h, parent, r))
    && (forall r: nat {:trigger LiveAt(s, h, parent, i, r)} :: LiveAt(s, h, parent, i, r))
    && (forall x: nat {:trigger RefAt(s, h, parent, i, x)} :: RefAt(s, h, parent, i, x))
    && (forall r: nat {:trigger AllowAt(s, h, i, r)} :: AllowAt(s, h, i, r))
  }

  // ---- The scan over all inherited references ----

  /** A register is taken out of those to allocate from, and a slot is provided for. */
  function Homed(s: St, x: nat): St
    requires x in s.ir
  {
    if HasReg(s.ir[x].r) && s.ir[x].s != 0 then s.(homed := s.homed + {x}) else s
  }

  function Blocked(s: St, h: Todo, x: nat): Todo
    requires x in s.ir
  {
    if HasReg(s.ir[x].r) then h.(allow := h.allow - {s.ir[x].r}) else h
  }

  function Gone(s: St, x: nat): St
    requires x in s.ir
  {
    s.(free := s.free + {s.ir[x].r}, gone := s.gone + {x})
  }

  lemma ScanCoalesce(s: St, h: Todo, parent: map<nat, RegSP>, x: nat, i: nat)
    requires x == i + 1 && Consistent(s) && Scanned(s, h, parent, x) && x in s.ir && REF_BASE < x < s.live
               && HasReg(s.ir[x].r) && InReg(parent[x], s.ir[x].r)
    ensures Scanned(Gone(Homed(s, x), x), Blocked(s, h, x).(pend := h.pend[s.ir[x].r := x]), parent, i)
    ensures s.ir[x].r !in h.pend && x !in s.gone
  {
    var s', h', r := Gone(Homed(s, x), x), Blocked(s, h, x).(pend := h.pend[s.ir[x].r := x]), s.ir[x].r;
    assert RefEntry(s, x) && RefAt(s, h, parent, x, x) && PendAt(s, h, parent, r);
    SpokenKept(s, s', parent, x);
    forall q: nat ensures PendAt(s', h', parent, q) && LiveAt(s', h', parent, i, q) && AllowAt(s', h', i, q)
        && RefAt(s', h', parent, i, q) {
      assert PendAt(s, h, parent, q) && LiveAt(s, h, parent, x, q) && AllowAt(s, h, x, q) && RefAt(s, h, parent, x, q);
      assert RegEntry(s, q);
    }
  }

  lemma ScanSlot(s: St, h: Todo, parent: map<nat, RegSP>, x: nat, i: nat, p: bool)
    requires x == i + 1 && Consistent(s) && Scanned(s, h, parent, x) && x in s.ir && REF_BASE < x < s.live
    requires (x in parent && parent[x].spill != 0) || !Used(s, x)
    requires p == (h.pass3 || HasReg(s.ir[x].r))
    ensures Scanned(Homed(s, x), Blocked(s, h, x).(pass3 := p), parent, i)
  {
    var s', h' := Homed(s, x), Blocked(s, h, x).(pass3 := p);
    SpokenKept(s, s', parent, x);
    forall q: nat ensures PendAt(s', h', parent, q) && LiveAt(s', h', parent, i, q) && AllowAt(s', h', i, q)
        && RefAt(s', h', parent, i, q) {
      assert PendAt(s, h, parent, q) && LiveAt(s, h, parent, x, q) && AllowAt(s, h, x, q) && RefAt(s, h, parent, x, q);
      assert RegEntry(s, q);
    }
  }

  lemma ScanLive(s: St, h: Todo, parent: map<nat, RegSP>, x: nat, i: nat)
    requires x == i + 1 && Consistent(s) && Scanned(s, h, parent, x) && x in s.ir && REF_BASE < x < s.live
               && x in parent && parent[x].spill == 0 && Used(s, x)
    ensures var rs, h1 := parent[x].reg, Blocked(s, h, x);
            Scanned(Homed(s, x), h1.(live := h.live + {rs}, sloadins := h.sloadins[rs := x]), parent, i)
  {
    var rs, h1 := parent[x].reg, Blocked(s, h, x);
    var s', h' := Homed(s, x), h1.(live := h.live + {rs}, sloadins := h.sloadins[rs := x]);
    assert RefAt(s, h, parent, x, x);
    SpokenKept(s, s', parent, x);
    forall q: nat ensures PendAt(s', h', parent, q) && AllowAt(s', h', i, q) {
      assert PendAt(s, h, parent, q) && AllowAt(s, h, x, q) && RegEntry(s, q);
    }
    forall q: nat ensures LiveAt(s', h', parent, i, q) { assert LiveAt(s, h, parent, x, q); }
    forall y: nat ensures RefAt(s', h', parent, i, y) {
      assert RefAt(s, h, parent, x, y);
      if y in parent && y > x { assert parent[y].spill == 0 && InReg(parent[x], parent[y].reg) ==> y == x; }
    }
  }

  /** References above i that are wanted in slots only are marked. */
  ghost predicate MarkAt(s: St, marks: set<nat>, i: nat, x: nat) {
    x in s.ir && i < x < s.live && s.ir[x].s != 0 && x !in s.homed ==> x !in s.gone && !HasReg(s.ir[x].r) && x in marks
  }

  /** Only such references are marked. */
  ghost predicate MarkOnly(s: St, marks: set<nat>, x: nat) {
    x in marks ==>
        x in s.ir && REF_BASE < x < s.live && s.ir[x].s != 0 && !HasReg(s.ir[x].r) && x !in s.homed && x !in s.gone
  }

  ghost predicate Marked(s: St, marks: set<nat>, i: nat) {
    && (forall x: nat {:trigger MarkAt(s, marks, i, x)} :: MarkAt(s, marks, i, x))
    && (forall x: nat {:trigger MarkOnly(s, marks, x)} :: MarkOnly(s, marks, x))
  }

  lemma MarkedNext(s: St, s': St, marks: set<nat>, marks': set<nat>, x: nat, i: nat)
    requires x == i + 1 && Marked(s, marks, x) && s'.ir == s.ir && s'.live == s.live && marks <= marks' <= marks + {x}
    requires s.homed <= s'.homed <= s.homed + {x} && s'.gone <= s.gone + {x} && MarkOnly(s', marks', x)
    requires x in s.ir && s.ir[x].s != 0 && x !in s'.homed ==> x !in s'.gone && !HasReg(s.ir[x].r) && x in marks'
    ensures Marked(s', marks', i)
  {
    forall y: nat ensures MarkAt(s', marks', i, y) && MarkOnly(s', marks', y) {
      assert MarkAt(s, marks, x, y) && MarkOnly(s, marks, y);
    }
  }

  /** The slots that are wanted: marked up to i, and above it the parent has the very same slot. */
  ghost predicate SlotAt(s: St, marks: set<nat>, parent: map<nat, RegSP>, delta: int, i: nat, x: nat) {
    x in s.ir && x < s.live && s.ir[x].s != 0 && x !in s.homed ==>
      && x !in s.gone && !HasReg(s.ir[x].r)
      && if x <= i then x in marks else x in parent && parent[x].spill != 0 && parent[x].spill + delta == s.ir[x].s
  }

  ghost predicate SlotsLeft(s: St, marks: set<nat>, parent: map<nat, RegSP>, delta: int, i: nat) {
    && (forall x: nat {:trigger SlotAt(s, marks, parent, delta, i, x)} :: SlotAt(s, marks, parent, delta, i, x))
    && (forall x: nat {:trigger MarkOnly(s, marks, x)} :: MarkOnly(s, marks, x))
  }

  class SideHead {
    const a: Assembler
    const parent: map<nat, RegSP>
    var allow: set<nat>
    var live: set<nat>
    var sloadins: map<nat, nat>
    var pass2: bool
    var pass3: bool
    ghost var pend: map<nat, nat>

    ghost function Value(): Todo
      reads this
    {
      Todo(allow, live, sloadins, pend, pass3)
    }

    ghost predicate Inv(i: nat)
      reads this, a
    {
      Core(a.State(), a.code, pend, a.goal, a.sems) && Scanned(a.State(), Value(), parent, i) && a.inherited == map[]
    }

    constructor (a: Assembler, parent: map<nat, RegSP>)
      requires Core(a.State(), a.code, map[], a.goal, a.sems) && Plain(a.State()) && a.weakset == {} && a.outs == map[]
                 && a.live > 0 && a.marks == {}
      requires ParentOk(parent, a.ir, a.live - 1)
      requires forall x {:trigger x in a.ir} :: x in a.ir && x <= REF_BASE ==> !HasReg(a.ir[x].r)
      ensures Inv(a.live - 1) && this.a == a && this.parent == parent && !pass2
                && Marked(a.State(), a.marks, a.live - 1)
    {
      this.a, this.parent := a, parent;
      allow, live, sloadins, pend := FPR + GPR, {}, map[], map[];
      pass2, pass3 := false, false;
      new;
      ghost var s, h, i := a.State(), Value(), a.live - 1;
      forall q: nat ensures PendAt(s, h, parent, q) && LiveAt(s, h, parent, i, q) && AllowAt(s, h, i, q)
          && RefAt(s, h, parent, i, q) {
        assert RegEntry(s, q);
        FileRegs(true, q);
        FileRegs(false, q);
      }
      forall x: nat ensures MarkAt(s, a.marks, i, x) && MarkOnly(s, a.marks, x) { }
    }

    /** The register of a reference is blocked; its slot, if any, is filled from it. */
    method HomeOne(x: nat)
      requires Inv(x) && x in a.ir && REF_BASE < x < a.live
      modifies this`allow, this`pass2, a`code, a`saved, a`marks, a`homed
      ensures a.State() == Homed(old(a.State()), x) && Value() == Blocked(old(a.State()), old(Value()), x)
      ensures Core(a.State(), a.code, pend, a.goal, a.sems) && (old(pass2) ==> pass2)
                && (a.marks != old(a.marks) ==> pass2)
      ensures a.marks == old(a.marks) + if !HasReg(a.ir[x].r) && a.ir[x].s != 0 then {x} else {}
    {
      ghost var s, h := a.State(), Value();
      assert RefAt(s, h, parent, x, x);
      if HasReg(a.ir[x].r) {
        allow := allow - {a.ir[x].r};
        if a.ir[x].s != 0 {
          PendFree(s, h, x, x);
          HomeOk(s, a.code, pend, a.goal, a.sems, x, a.ir[x].r);
          a.Save(x, a.ir[x].r);
          a.homed := a.homed + {x};
        }
      } else if a.ir[x].s != 0 {
        a.marks := a.marks + {x};
        pass2 := true;
      }
    }

    /** A register is the parent's own. */
    method Coalesce(x: nat, r: nat)
      requires Core(a.State(), a.code, pend, a.goal, a.sems) && a.weakset == {} && r !in pend
      requires x in a.ir && x < a.live && x !in a.gone && HasReg(a.ir[x].r) && a.ir[x].r == r
      modifies this`pend, a`freeset, a`gone
      ensures a.State() == Gone(old(a.State()), x) && pend == old(pend)[r := x]
                && Core(a.State(), a.code, pend, a.goal, a.sems)
    {
      CoalesceOk(a.State(), a.code, pend, a.goal, a.sems, x, r);
      pend := pend[r := x];
      a.freeset := a.freeset + {r};
      a.gone := a.gone + {x};
    }

    /** One step of the scan over the references that the parent provides. */
    method ScanOne(x: nat, ghost i: nat)
      requires x == i + 1 && Inv(x) && x in a.ir && REF_BASE < x < a.live && Marked(a.State(), a.marks, x)
      modifies this, a`freeset, a`code, a`saved, a`marks, a`gone, a`homed
      ensures Inv(i) && Marked(a.State(), a.marks, i) && (a.marks != old(a.marks) ==> pass2) && (old(pass2) ==> pass2)
    {
      ghost var s, h := a.State(), Value();
      assert RefAt(s, h, parent, x, x) && MarkOnly(s, a.marks, x);
      HomeOne(x);
      Place(x, i, s, h);
      MarkedNext(s, a.State(), old(a.marks), a.marks, x, i);
    }

    /** A reference is coalesced, or left to the third pass, or to the shuffle. */
    method Place(x: nat, ghost i: nat, ghost s: St, ghost h: Todo)
      requires x == i + 1 && x in s.ir && REF_BASE < x < s.live && Consistent(s) && Scanned(s, h, parent, x)
                 && s.inherited == map[]
      requires a.State() == Homed(s, x) && Value() == Blocked(s, h, x) && Core(a.State(), a.code, pend, a.goal, a.sems)
      modifies this`pass3, this`sloadins, this`live, this`pend, a`freeset, a`gone
      ensures Inv(i) && a.gone <= s.gone + {x} && (x in a.gone ==> HasReg(a.ir[x].r) || x in s.gone)
    {
      var rs := parent[x];
      var r := a.ir[x].r;
      if HasReg(r) && InReg(rs, r) {
        ScanCoalesce(s, h, parent, x, i);
        Coalesce(x, r);
      } else if rs.spill != 0 {
        ScanSlot(s, h, parent, x, i, pass3 || HasReg(r));
        if HasReg(r) {
          pass3 := true;
        }
      } else if HasReg(r) || a.ir[x].s != 0 {
        assert RefAt(s, h, parent, x, x);
        ScanLive(s, h, parent, x, i);
        sloadins := sloadins[rs.reg := x];
        live := live + {rs.reg};
      } else {
        ScanSlot(s, h, parent, x, i, pass3);
      }
    }

    /** A register with a reference of its own is not the parent's. */
    lemma PendFree(s: St, h: Todo, x: nat, i: nat)
      requires Consistent(s) && Scanned(s, h, parent, i) && x in s.ir && x < s.live && x !in s.gone && HasReg(s.ir[x].r)
      ensures s.ir[x].r !in h.pend
    {
      assert RefEntry(s, x);
      assert PendAt(s, h, parent, s.ir[x].r);
    }

    /** References that do not occur need nothing. */
    lemma ScanNone(x: nat, i: nat)
      requires x == i + 1 && Inv(x) && x !in a.ir && Marked(a.State(), a.marks, x)
      ensures Inv(i) && Marked(a.State(), a.marks, i)
    {
      var s, h := a.State(), Value();
      forall q: nat ensures PendAt(s, h, parent, q) && LiveAt(s, h, parent, i, q) && AllowAt(s, h, i, q)
          && RefAt(s, h, parent, i, q) {
        assert PendAt(s, h, parent, q) && LiveAt(s, h, parent, x, q) && AllowAt(s, h, x, q)
            && RefAt(s, h, parent, x, q);
        assert RegEntry(s, q);
      }
      MarkedNext(s, s, a.marks, a.marks, x, i);
    }

    /** Collects register dependencies. */
    method Scan(stopins: nat)
      requires Inv(stopins) && a.live == stopins + 1 && stopins >= REF_BASE && !pass2 && a.marks == {}
                 && Marked(a.State(), a.marks, stopins)
      modifies this, a`freeset, a`code, a`saved, a`marks, a`gone, a`homed
      ensures Inv(REF_BASE) && Marked(a.State(), a.marks, REF_BASE) && (!pass2 ==> a.marks == {})
    {
      var i := stopins;
      while i > REF_BASE
        invariant REF_BASE <= i <= stopins && Inv(i) && Marked(a.State(), a.marks, i) && (!pass2 ==> a.marks == {})
      {
        if i in a.ir {
          ScanOne(i, i - 1);
        } else {
          ScanNone(i, i - 1);
        }
        i := i - 1;
      }
    }

    // ---- Reloads of spilled references ----

    /** All the slots that are left are marked. */
    lemma SlotsMarked(delta: int, i: nat)
      requires Inv(REF_BASE) && Marked(a.State(), a.marks, REF_BASE) && a.live == i + 1
      ensures SlotsLeft(a.State(), a.marks, parent, delta, i)
    {
      forall x: nat ensures SlotAt(a.State(), a.marks, parent, delta, i, x) {
        assert MarkAt(a.State(), a.marks, REF_BASE, x) && SpillEntry(a.State(), x) && MarkOnly(a.State(), a.marks, x);
      }
    }

    lemma SlotsNext(s: St, s': St, marks: set<nat>, delta: int, x: nat, i: nat)
      requires x == i + 1 && SlotsLeft(s, marks, parent, delta, x) && s'.live == s.live
                 && s.homed <= s'.homed <= s.homed + {x} && s'.gone <= s.gone + {x}
      requires x in s.ir && x in s'.ir ==> s'.ir == s.ir[x := s'.ir[x]]
      requires x !in s.ir ==> s'.ir == s.ir
      requires x in s'.ir && s'.ir[x].s != 0 && x !in s'.homed && x < s.live ==>
                 x !in s'.gone && !HasReg(s'.ir[x].r) && x in parent && parent[x].spill != 0
                     && parent[x].spill + delta == s'.ir[x].s
      requires x in s.ir ==> x in s'.ir
      ensures SlotsLeft(s', marks - {x}, parent, delta, i)
    {
      forall y: nat ensures SlotAt(s', marks - {x}, parent, delta, i, y) && MarkOnly(s', marks - {x}, y) {
        assert SlotAt(s, marks, parent, delta, x, y) && MarkOnly(s, marks, y);
      }
    }

    /** A register for a spilled reference, from which its slot is filled. */
    method Reload(x: nat, mask: set<nat>) returns (ok: bool, r: nat)
      requires Inv(REF_BASE) && x in a.ir && REF_BASE < x < a.live && !HasReg(a.ir[x].r) && a.ir[x].s != 0
                 && x !in a.homed && x !in a.gone
      requires mask != {} && mask <= File(a.ir[x].fp) && mask <= allow && x in parent
      modifies this`allow, this`pass3, a`ir, a`freeset, a`modset, a`weakset, a`cost, a`evenspill, a`oddspill, a`code,
          a`saved, a`homed
      ensures ok || a.Overflown() || NoTemporary()
      ensures ok ==>
                Inv(REF_BASE) && x in a.ir && a.ir == old(a.ir)[x := a.ir[x]] && a.ir[x].r == r && IsReg(r)
                && r !in allow && r !in pend && a.homed == old(a.homed) + {x}
      ensures ok ==> a.ir[x].s == old(a.ir[x].s) && allow == old(allow) - {r}
    {
      ghost var s, h := a.State(), Value();
      AllowFree(s, h, parent);
      ok, r := a.AllocRef(x, mask, pend);
      if ok {
        ghost var s1 := Given(s, x, r, RegCost(x, s.ir[x].phi));
        var p := pass3 || parent[x].spill != 0;
        ReloadNext(s, h, parent, x, r, RegCost(x, s.ir[x].phi), p);
        HomeOk(s1, a.code, pend, a.goal, a.sems, x, r);
        SetHome(x, r, p);
      }
    }

    /** A register, now in use, is stored to the slot of its reference. */
    method SetHome(x: nat, r: nat, p: bool)
      requires x in a.ir && a.ir[x].s != 0
      modifies this`allow, this`pass3, a`code, a`saved, a`homed
      ensures a.State() == old(a.State()).(homed := old(a.homed) + {x})
                && Value() == old(Value()).(allow := old(allow) - {r}, pass3 := p)
      ensures a.code == [SpStore(r, SlotOf(a.ir[x]))] + old(a.code)
    {
      a.Save(x, r);
      a.homed := a.homed + {x};
      allow := allow - {r};
      pass3 := p;
    }

    /** One step of the second pass. */
    method ReloadOne(x: nat, delta: int, ghost i: nat) returns (ok: bool)
      requires x == i + 1 && REF_BASE < x && Left(delta, x) && x < a.live
      modifies this, a`ir, a`freeset, a`modset, a`weakset, a`cost, a`evenspill, a`oddspill, a`code, a`saved, a`marks,
          a`gone, a`homed
      ensures ok || a.Overflown() || NoTemporary()
      ensures ok ==> Left(delta, i)
    {
      ok := true;
      ghost var s0, marks0 := a.State(), a.marks;
      assert SlotAt(s0, marks0, parent, delta, x, x);
      assert RefAt(s0, Value(), parent, REF_BASE, x) && MarkOnly(s0, marks0, x);
      if x in a.marks {
        a.marks := a.marks - {x};
        ok := ReloadMarked(x, delta);
      }
      if ok {
        SlotsNext(s0, a.State(), marks0, delta, x, i);
        assert marks0 - {x} == a.marks;
      }
    }

    method ReloadMarked(x: nat, delta: int) returns (ok: bool)
      requires REF_BASE < x && Inv(REF_BASE) && x < a.live && x in parent && x in a.ir
      requires a.ir[x].s != 0 && !HasReg(a.ir[x].r) && x !in a.homed && x !in a.gone
      modifies this, a`ir, a`freeset, a`modset, a`weakset, a`cost, a`evenspill, a`oddspill, a`code, a`saved, a`gone,
          a`homed
      ensures ok || a.Overflown() || NoTemporary()
      ensures ok ==>
                Inv(REF_BASE) && x in a.ir && a.ir == old(a.ir)[x := a.ir[x]]
                && old(a.homed) <= a.homed <= old(a.homed) + {x} && a.gone <= old(a.gone) + {x}
      ensures ok && x !in a.homed ==>
                !HasReg(a.ir[x].r) && parent[x].spill != 0 && parent[x].spill + delta == a.ir[x].s && x !in a.gone
    {
      ok := true;
      var rs := parent[x];
      if rs.spill == 0 {
        Hint(x, RID_NONE + rs.reg);
      } else if rs.spill + delta == a.ir[x].s {
        return;
      }
      ok := ReloadFrom(x, rs);
    }

    method ReloadFrom(x: nat, rs: RegSP) returns (ok: bool)
      requires REF_BASE < x && Inv(REF_BASE) && x < a.live && x in parent && rs == parent[x] && x in a.ir
      requires a.ir[x].s != 0 && !HasReg(a.ir[x].r) && x !in a.homed && x !in a.gone
      modifies this, a`ir, a`freeset, a`modset, a`weakset, a`cost, a`evenspill, a`oddspill, a`code, a`saved, a`gone,
          a`homed
      ensures ok || a.Overflown() || NoTemporary()
      ensures ok ==>
                Inv(REF_BASE) && x in a.ir && a.ir == old(a.ir)[x := a.ir[x]] && a.homed == old(a.homed) + {x}
                && a.gone <= old(a.gone) + {x}
    {
      var mask := File(a.ir[x].fp) * allow;
      if mask == {} {
        assert (a.freeset - live) * allow * File(a.ir[x].fp) <= mask;
        NoneAllowed(Value(), a.ir[x].fp);
        return false;
      }
      var r;
      ok, r := Reload(x, mask);
      if ok && InReg(rs, r) {
        Settle(x, r);
      }
    }

    /** A reference without a register gets a hint again. */
    method Hint(x: nat, hint: nat)
      requires Inv(REF_BASE) && x in a.ir && !HasReg(a.ir[x].r) && !HasReg(hint)
      modifies a`ir
      ensures Inv(REF_BASE) && a.ir == old(a.ir)[x := old(a.ir[x]).(r := hint)]
    {
      ghost var s := a.State();
      HintNext(s, Value(), parent, x, hint);
      HintOk(s, a.code, pend, a.goal, a.sems, x, hint);
      a.ir := a.ir[x := a.ir[x].(r := hint)];
      assert a.State() == Hinted(s, x, hint);
    }

    /** A register that turned out to be the parent's own is done. */
    method Settle(x: nat, r: nat)
      requires Inv(REF_BASE) && x in a.ir && REF_BASE < x < a.live && x !in a.gone && HasReg(a.ir[x].r)
                 && a.ir[x].r == r && r !in pend && r !in allow
      requires x in parent && InReg(parent[x], r)
      modifies this`live, this`pend, a`freeset, a`gone
      ensures Inv(REF_BASE) && a.gone == old(a.gone) + {x}
    {
      ghost var s, h := a.State(), Value();
      DoneNext(s, h, parent, x, r, allow);
      Coalesce(x, r);
      live := live - {r};
      assert Value() == h.(pend := h.pend[r := x], live := h.live - {r}, allow := allow);
    }

    /** The second pass has reached reference i. */
    ghost predicate Left(delta: int, i: nat)
      reads this, a
    {
      Inv(REF_BASE) && SlotsLeft(a.State(), a.marks, parent, delta, i)
    }

    /** The second pass: registers for references that are wanted in slots only. */
    method ReloadAll(stopins: nat, delta: int) returns (ok: bool)
      requires Left(delta, stopins) && a.live == stopins + 1 && stopins >= REF_BASE
      modifies this, a`ir, a`freeset, a`modset, a`weakset, a`cost, a`evenspill, a`oddspill, a`code, a`saved, a`marks,
          a`gone, a`homed
      ensures ok || a.Overflown() || NoTemporary()
      ensures ok ==> Left(delta, REF_BASE)
    {
      ok := true;
      var i := stopins;
      while i > REF_BASE
        invariant REF_BASE <= i <= stopins && ok && Left(delta, i)
      {
        ok := ReloadOne(i, delta, i - 1);
        if !ok {
          return;
        }
        i := i - 1;
      }
    }

    lemma NoneMarked(s: St, marks: set<nat>, delta: int, i: nat)
      requires SlotsLeft(s, marks, parent, delta, i) && Consistent(s) && (marks == {} || i == REF_BASE)
      ensures SlotsLeft(s, {}, parent, delta, REF_BASE)
    {
      forall x: nat ensures SlotAt(s, {}, parent, delta, REF_BASE, x) && MarkOnly(s, {}, x) {
        assert SlotAt(s, marks, parent, delta, i, x) && SpillEntry(s, x) && MarkOnly(s, marks, x);
      }
    }

    ghost predicate GrownInv()
      reads this, a
    {
      Core(a.State(), a.code, pend, a.goal, a.sems) && Grown(a.State(), Value(), parent)
    }

    /** emit_spsub: the frame of the side trace is larger than the parent's. */
    method Grow(delta: int)
      requires Inv(REF_BASE) && SlotsLeft(a.State(), {}, parent, delta, REF_BASE)
      modifies a`code, a`homed, a`inherited
      ensures GrownInv()
    {
      ghost var s := a.State();
      GrowOk(s, a.code, pend, a.goal, a.sems, delta);
      GrowNext(s, Value(), parent, delta);
      a.code := [SpSub(delta)] + a.code;
      a.homed := a.homed + Spilled(s).Keys;
      a.inherited := Shifted(Spilled(s), -delta);
    }

    /** The reference of a register that is not free. */
    lemma Held(r: nat)
      requires GrownInv() && IsReg(r) && r !in a.freeset
      ensures var x := Owner(a.cost[r]);
              x in a.ir && REF_BASE < x < a.live && x !in a.gone && HasReg(a.ir[x].r) && a.ir[x].r == r && x in parent
                  && r !in pend
      ensures parent[Owner(a.cost[r])].spill != 0 ==> pass3
    {
      assert RegEntry(a.State(), r);
      assert RefAt(a.State(), Value(), parent, REF_BASE, Owner(a.cost[r])) && PendAt(a.State(), Value(), parent, r);
    }

    /** A register is loaded from the parent's slot, if that is where its value is. */
    method LoadOne(r: nat)
      requires GrownInv() && IsReg(r) && r !in a.freeset
      modifies a`freeset, a`code, a`gone, a`inherited
      ensures GrownInv() && (a.freeset == old(a.freeset) || a.freeset == old(a.freeset) + {r})
      ensures WaitsAt(a.State(), parent, r)
    {
      Held(r);
      ghost var s := a.State();
      var ref := Owner(a.cost[r]);
      var rs := parent[ref];
      if rs.spill != 0 {
        var slot := Slot(rs.spill, a.ir[ref].wide);
        LoadNext(s, Value(), parent, ref);
        FromSlotOk(s, a.code, pend, a.goal, a.sems, ref, r, slot);
        a.freeset := a.freeset + {r};
        a.code := [SpLoad(r, slot)] + a.code;
        a.gone := a.gone + {ref};
        a.inherited := a.inherited[ref := slot];
      }
    }

    ghost predicate WaitingInv()
      reads this, a
    {
      Core(a.State(), a.code, pend, a.goal, a.sems) && Waiting(a.State(), Value(), parent)
    }

    /** The third pass: loads from slots of the parent. */
    method LoadAll()
      requires GrownInv()
      modifies a`freeset, a`code, a`gone, a`inherited
      ensures WaitingInv()
    {
      if pass3 {
        var work := (FPR + GPR) - a.freeset;
        forall r: nat | r !in work ensures WaitsAt(a.State(), parent, r) { FileRegs(true, r); FileRegs(false, r); }
        while work != {}
          invariant GrownInv() && (forall r {:trigger r in work} :: r in work ==> IsReg(r) && r !in a.freeset)
          invariant forall r: nat {:trigger WaitsAt(a.State(), parent, r)} :: r !in work
                      ==> WaitsAt(a.State(), parent, r)
          decreases work
        {
          ghost var x :| x in work;
          ghost var s := a.State();
          var r := PickBot(work);
          LoadOne(r);
          work := work - {r};
          forall q: nat | q !in work ensures WaitsAt(a.State(), parent, q) {
            if q != r { assert WaitsAt(s, parent, q); }
          }
        }
      } else {
        forall r: nat ensures WaitsAt(a.State(), parent, r) {
          if IsReg(r) && r !in a.freeset { Held(r); }
        }
      }
    }

    // ---- The shuffle ----

    /** In the shuffle only free registers count as allowed. */
    ghost function Free(): Todo
      reads this, a
    {
      Value().(allow := allow * a.freeset)
    }

    ghost predicate ShuffleInv()
      reads this, a
    {
      Core(a.State(), a.code, pend, a.goal, a.sems) && Waiting(a.State(), Free(), parent)
    }

    lemma StartShuffle()
      requires WaitingInv()
      ensures ShuffleInv()
    {
      AllowFree(a.State(), Value(), parent);
      assert allow * a.freeset == allow;
    }

    /** A free live register is moved to where it is awaited. */
    method MoveOne(rp: nat)
      requires ShuffleInv() && rp in live && rp in a.freeset
      modifies this`live, this`allow, this`pend, a`freeset, a`code, a`gone
      ensures ShuffleInv() && live == old(live) - {rp}
    {
      ghost var s, h := a.State(), Free();
      Awaited(s, h, parent, rp);
      var x := sloadins[rp];
      var r := a.ir[x].r;
      MoveNext(s, h, parent, rp, (allow - {rp}) * (a.freeset + {r}));
      FromRegOk(s, a.code, pend, a.goal, a.sems, x, r, rp);
      SetMoved(x, r, rp);
    }

    /** The assignments that go with the move. */
    method SetMoved(x: nat, r: nat, rp: nat)
      requires x in a.ir && r == a.ir[x].r
      modifies this`live, this`allow, this`pend, a`freeset, a`code, a`gone
      ensures a.State() == Gone(old(a.State()), x) && a.code == [Mov(r, rp)] + old(a.code) && live == old(live) - {rp}
      ensures Free() == old(Free()).(pend := old(pend)[rp := x], live := live,
                allow := (old(allow) - {rp}) * (old(a.freeset) + {r}))
    {
      live := live - {rp};
      allow := allow - {rp};
      a.freeset := a.freeset + {r};
      a.code := [Mov(r, rp)] + a.code;
      a.gone := a.gone + {x};
      pend := pend[rp := x];
    }

    /** A live register that is not free becomes free: its reference moves to a temporary register. */
    method Break(down: nat, up: nat)
      requires ShuffleInv() && down in live && down !in a.freeset && up in a.freeset && up in allow && IsReg(up)
                 && (down < RID_MAX_GPR <==> up < RID_MAX_GPR)
      modifies a`ir, a`freeset, a`modset, a`weakset, a`cost, a`code
      ensures ShuffleInv() && a.freeset == old(a.freeset) + {down} - {up}
    {
      ghost var s, h := a.State(), Free();
      Awaited(s, h, parent, down);
      BreakNext(s, h, parent, down, up, allow * (a.freeset + {down} - {up}));
      a.Rename(down, up, pend);
      assert allow * a.freeset == allow * (s.free + {down} - {up});
    }

    /** All free live registers, one after the other. */
    method MoveFree()
      requires ShuffleInv()
      modifies this`live, this`allow, this`pend, a`freeset, a`code, a`gone
      ensures ShuffleInv() && a.freeset * live == {} && live <= old(live)
      ensures old(a.freeset * live) != {} ==> live < old(live)
    {
      var work := a.freeset * live;
      while work != {}
        invariant ShuffleInv() && work == a.freeset * live && live <= old(live)
        invariant live == old(live) ==> work == old(a.freeset * live)
        decreases live
      {
        ghost var x :| x in work;
        var rp := PickBot(work);
        MoveOne(rp);
        work := a.freeset * live;
      }
    }

    /**
     * No register of one kind is left to move a value to: those in use are owned by references, and those
     * that are free are the ones in which inherited references were in the parent, or which they were given.
     */
    ghost predicate NoTemporary()
      reads this, a
    {
      Consistent(a.State()) && exists fp {:trigger AllSpoken(fp)} :: AllSpoken(fp)
    }

    ghost predicate AllSpoken(fp: bool)
      reads this, a
    {
      forall r {:trigger r in File(fp)} :: r in File(fp) && r in a.freeset ==> SpokenFor(a.State(), parent, r)
    }

    lemma NoneAllowed(h: Todo, fp: bool)
      requires Consistent(a.State()) && Scanned(a.State(), h, parent, REF_BASE) && h.live == live
      requires (a.freeset - live) * h.allow * File(fp) == {}
      ensures NoTemporary()
    {
      forall r: nat | r in File(fp) && r in a.freeset ensures SpokenFor(a.State(), parent, r) {
        FileRegs(fp, r);
        assert PendAt(a.State(), h, parent, r) && LiveAt(a.State(), h, parent, REF_BASE, r);
        assert r !in (a.freeset - live) * h.allow * File(fp);
        if r in live { assert SpokenBy(a.State(), parent, r, h.sloadins[r]); }
      }
      assert AllSpoken(fp);
    }

    /** Breaks a cycle among the registers of one kind, if there is a temporary register. */
    method BreakCycle(file: set<nat>) returns (ok: bool)
      requires ShuffleInv() && (file == GPR || file == FPR) && a.freeset * live * file == {}
      modifies a`ir, a`freeset, a`modset, a`weakset, a`cost, a`code
      ensures ok || NoTemporary()
      ensures ok ==> ShuffleInv() && (live * file != {} ==> a.freeset * live * file != {})
      ensures ok ==> forall r {:trigger r in a.freeset} :: r !in file ==> (r in a.freeset <==> r in old(a.freeset))
    {
      ok := true;
      if live * file != {} {
        var tmpset := (a.freeset - live) * allow * file;
        if tmpset == {} {
          assert (a.freeset - live) * (allow * a.freeset) * file <= tmpset;
          NoneAllowed(Free(), file == FPR);
          return false;
        }
        ghost var x, y :| x in live * file && y in tmpset;
        var down := PickBot(live * file);
        var up := PickBot(tmpset);
        FileRegs(true, down);
        FileRegs(false, down);
        FileRegs(true, up);
        FileRegs(false, up);
        assert down !in a.freeset * live * file;
        Break(down, up);
        assert down in a.freeset * live * file;
      }
    }

    /** Breaks cycles of either kind; afterwards some live register is free. */
    method BreakCycles() returns (ok: bool)
      requires ShuffleInv() && a.freeset * live == {} && live != {}
      modifies a`ir, a`freeset, a`modset, a`weakset, a`cost, a`code
      ensures ok || NoTemporary()
      ensures ok ==> ShuffleInv() && a.freeset * live != {}
    {
      LiveKinds();
      ghost var free0 := a.freeset;
      NoneFree(live, free0);
      ok := BreakCycle(GPR);
      if !ok {
        return;
      }
      OtherStill(free0, a.freeset);
      ok := BreakCycle(FPR);
      if ok { SomeFree(a.freeset); }
    }

    /** Breaking a cycle among one kind frees none of the other. */
    lemma OtherStill(free0: set<nat>, free: set<nat>)
      requires live !! free0 && GPR !! FPR && forall r {:trigger r in free} :: r !in GPR ==> (r in free <==> r in free0)
      ensures free * live * FPR == {}
    {
    }

    lemma SomeFree(free: set<nat>)
      requires live != {} && live == live * GPR + live * FPR && (live * FPR != {} ==> free * live * FPR != {})
      requires live * FPR == {} ==> free * live != {}
      ensures free * live != {}
    {
      if live * FPR != {} {
        var r :| r in free * live * FPR;
        assert r in free * live;
      }
    }

    /** Moves target registers to parent registers; the error is raised when there is no temporary register. */
    method Shuffle() returns (ok: bool)
      requires ShuffleInv()
      modifies this`live, this`allow, this`pend, a`ir, a`freeset, a`modset, a`weakset, a`cost, a`code, a`gone
      ensures ok || NoTemporary()
      ensures ok ==> ShuffleInv() && live == {}
    {
      ok := true;
      while true
        invariant ok && ShuffleInv()
        decreases live, if a.freeset * live == {} then 1 else 0
      {
        MoveFree();
        if live == {} {
          break;
        }
        ok := BreakCycles();
        if !ok {
          return;
        }
      }
    }

    /** Live registers are of one kind or the other. */
    lemma LiveKinds()
      requires ShuffleInv()
      ensures live == live * GPR + live * FPR && GPR !! FPR
    {
      forall rp | rp in live ensures rp in GPR || rp in FPR {
        Awaited(a.State(), Free(), parent, rp);
        FileRegs(true, rp);
        FileRegs(false, rp);
      }
    }

    /** The first two passes: afterwards only slots that the parent has filled are wanted. */
    method FillSlots(stopins: nat, delta: int) returns (ok: bool)
      requires Inv(stopins) && a.live == stopins + 1 && stopins >= REF_BASE && !pass2 && a.marks == {}
                 && Marked(a.State(), a.marks, stopins)
      modifies this, a`ir, a`freeset, a`modset, a`weakset, a`cost, a`evenspill, a`oddspill, a`code, a`saved, a`marks,
          a`gone, a`homed
      ensures ok || a.Overflown() || NoTemporary()
      ensures ok ==> Inv(REF_BASE) && SlotsLeft(a.State(), {}, parent, delta, REF_BASE)
    {
      ok := true;
      Scan(stopins);
      SlotsMarked(delta, stopins);
      if pass2 {
        ok := ReloadAll(stopins, delta);
        if ok { NoneMarked(a.State(), a.marks, delta, REF_BASE); }
      } else {
        NoneMarked(a.State(), a.marks, delta, stopins);
      }
    }

    /** The third pass and the shuffle. */
    method FillRegs(delta: int) returns (ok: bool)
      requires Inv(REF_BASE) && SlotsLeft(a.State(), {}, parent, delta, REF_BASE)
      modifies this`live, this`allow, this`pend, a`ir, a`freeset, a`modset, a`weakset, a`cost, a`code, a`gone, a`homed,
          a`inherited
      ensures ok || NoTemporary()
      ensures ok ==> Enters(a.code, parent, a.goal, a.sems)
    {
      Grow(delta);
      LoadAll();
      StartShuffle();
      ok := Shuffle();
      if ok {
        AllEnter(a.State(), a.code, Free(), parent, a.goal, a.sems);
      }
    }
  }

  /** All registers to allocate from are free. */
  lemma AllowFree(s: St, h: Todo, parent: map<nat, RegSP>)
    requires Consistent(s) && Scanned(s, h, parent, REF_BASE)
    ensures h.allow <= s.free && h.allow !! h.pend.Keys
  {
    forall r | r in h.allow ensures r in s.free && r !in h.pend {
      assert AllowAt(s, h, REF_BASE, r) && PendAt(s, h, parent, r);
      assert RegEntry(s, r);
      assert RefAt(s, h, parent, REF_BASE, Owner(s.cost[r]));
    }
  }

  function Hinted(s: St, x: nat, hint: nat): St
    requires x in s.ir
  {
    s.(ir := s.ir[x := s.ir[x].(r := hint)])
  }

  lemma HintNext(s: St, h: Todo, parent: map<nat, RegSP>, x: nat, hint: nat)
    requires Scanned(s, h, parent, REF_BASE) && x in s.ir && !HasReg(s.ir[x].r) && !HasReg(hint)
    ensures Scanned(Hinted(s, x, hint), h, parent, REF_BASE)
  {
    var s' := Hinted(s, x, hint);
    SpokenKept(s, s', parent, x);
    forall q: nat ensures PendAt(s', h, parent, q) && LiveAt(s', h, parent, REF_BASE, q) && AllowAt(s', h, REF_BASE, q)
        && RefAt(s', h, parent, REF_BASE, q) {
      assert PendAt(s, h, parent, q) && LiveAt(s, h, parent, REF_BASE, q) && AllowAt(s, h, REF_BASE, q)
          && RefAt(s, h, parent, REF_BASE, q);
    }
  }

  /** A spilled reference gets a register, from which its slot is filled. */
  lemma ReloadNext(s: St, h: Todo, parent: map<nat, RegSP>, x: nat, r: nat, c: nat, p: bool)
    requires x in parent && p == (h.pass3 || parent[x].spill != 0)
    requires Consistent(s) && Scanned(s, h, parent, REF_BASE) && x in s.ir && REF_BASE < x < s.live && x !in s.gone
               && x !in s.homed
    requires !HasReg(s.ir[x].r) && s.ir[x].s != 0 && r in h.allow && r < RID_MAX
    ensures var s1 := Given(s, x, r, c);
            Scanned(s1.(homed := s1.homed + {x}), h.(allow := h.allow - {r}, pass3 := p), parent, REF_BASE)
    ensures r !in h.pend
  {
    var s1 := Given(s, x, r, c);
    var s', h' := s1.(homed := s1.homed + {x}), h.(allow := h.allow - {r}, pass3 := p);
    AllowFree(s, h, parent);
    SpokenKept(s, s', parent, x);
    forall q: nat ensures PendAt(s', h', parent, q) && LiveAt(s', h', parent, REF_BASE, q)
        && AllowAt(s', h', REF_BASE, q) && RefAt(s', h', parent, REF_BASE, q) {
      assert PendAt(s, h, parent, q) && LiveAt(s, h, parent, REF_BASE, q) && AllowAt(s, h, REF_BASE, q)
          && RefAt(s, h, parent, REF_BASE, q);
    }
  }

  /** A parent's register has been coalesced, and is not live any more. */
  lemma DoneNext(s: St, h: Todo, parent: map<nat, RegSP>, x: nat, rp: nat, allow: set<nat>)
    requires Scanned(s, h, parent, REF_BASE) && Consistent(s) && x in s.ir && REF_BASE < x < s.live && x !in s.gone
               && HasReg(s.ir[x].r)
    requires x in parent && InReg(parent[x], rp) && (rp in s.free || s.ir[x].r == rp)
               && allow <= h.allow + {s.ir[x].r} - {rp}
    requires forall q {:trigger q in allow} :: q in h.allow && q != rp && (q in s.free || q == s.ir[x].r) ==> q in allow
    ensures Scanned(Gone(s, x), h.(pend := h.pend[rp := x], live := h.live - {rp}, allow := allow), parent, REF_BASE)
  {
    var s', h' := Gone(s, x), h.(pend := h.pend[rp := x], live := h.live - {rp}, allow := allow);
    assert RefEntry(s, x);
    SpokenKept(s, s', parent, x);
    assert SpokenBy(s', parent, rp, x);
    forall q: nat ensures PendAt(s', h', parent, q) && LiveAt(s', h', parent, REF_BASE, q)
        && AllowAt(s', h', REF_BASE, q) {
      assert PendAt(s, h, parent, q) && LiveAt(s, h, parent, REF_BASE, q) && AllowAt(s, h, REF_BASE, q);
    }
    forall y: nat ensures RefAt(s', h', parent, REF_BASE, y) {
      assert RefAt(s, h, parent, REF_BASE, y);
      if y in parent && y != x { assert parent[y].spill == 0 && InReg(parent[x], parent[y].reg) ==> y == x; }
    }
  }

  // ---- Loads from parent slots ----

  /** A slot of the parent that is wanted. */
  ghost predicate InhAt(s: St, parent: map<nat, RegSP>, x: nat) {
    x in s.inherited ==>
      && x in parent && x in s.ir && parent[x].spill != 0 && s.inherited[x] == Slot(parent[x].spill, parent[x].wide)
      && (x in s.gone || !HasReg(s.ir[x].r))
  }

  /** No slots of the side trace are wanted any more. */
  ghost predicate Grown(s: St, h: Todo, parent: map<nat, RegSP>) {
    && Scanned(s, h, parent, REF_BASE) && Spilled(s) == map[]
    && forall x: nat {:trigger InhAt(s, parent, x)} :: InhAt(s, parent, x)
  }

  lemma GrowNext(s: St, h: Todo, parent: map<nat, RegSP>, delta: int)
    requires Scanned(s, h, parent, REF_BASE) && SlotsLeft(s, {}, parent, delta, REF_BASE) && s.inherited == map[]
    ensures Grown(s.(homed := s.homed + Spilled(s).Keys, inherited := Shifted(Spilled(s), -delta)), h, parent)
  {
    var s' := s.(homed := s.homed + Spilled(s).Keys, inherited := Shifted(Spilled(s), -delta));
    SpokenKept(s, s', parent, 0);
    forall q: nat ensures PendAt(s', h, parent, q) && LiveAt(s', h, parent, REF_BASE, q) && AllowAt(s', h, REF_BASE, q)
        && RefAt(s', h, parent, REF_BASE, q) && InhAt(s', parent, q) {
      assert PendAt(s, h, parent, q) && LiveAt(s, h, parent, REF_BASE, q) && AllowAt(s, h, REF_BASE, q)
          && RefAt(s, h, parent, REF_BASE, q);
      assert SlotAt(s, {}, parent, delta, REF_BASE, q);
      if q in h.live { assert SlotAt(s, {}, parent, delta, REF_BASE, h.sloadins[q]); }
    }
    assert Spilled(s') == map[];
  }

  lemma LoadNext(s: St, h: Todo, parent: map<nat, RegSP>, x: nat)
    requires Consistent(s) && Grown(s, h, parent) && x in s.ir && REF_BASE < x < s.live && x !in s.gone
               && HasReg(s.ir[x].r) && x in parent && parent[x].spill != 0
    ensures var s' := Gone(s, x);
            Grown(s'.(inherited := s.inherited[x := Slot(parent[x].spill, s.ir[x].wide)]), h, parent)
    ensures x !in s.inherited && s.ir[x].r !in h.pend
  {
    var s' := Gone(s, x).(inherited := s.inherited[x := Slot(parent[x].spill, s.ir[x].wide)]);
    assert InhAt(s, parent, x) && RefEntry(s, x) && PendAt(s, h, parent, s.ir[x].r);
    SpokenKept(s, s', parent, x);
    forall q: nat ensures PendAt(s', h, parent, q) && LiveAt(s', h, parent, REF_BASE, q) && AllowAt(s', h, REF_BASE, q)
        && RefAt(s', h, parent, REF_BASE, q) && InhAt(s', parent, q) {
      assert PendAt(s, h, parent, q) && LiveAt(s, h, parent, REF_BASE, q) && AllowAt(s, h, REF_BASE, q)
          && RefAt(s, h, parent, REF_BASE, q);
      assert InhAt(s, parent, q);
    }
    assert Spilled(s') == Spilled(s);
  }

  // ---- The shuffle ----

  /** A register that is not free waits for a live register of the parent. */
  ghost predicate WaitsAt(s: St, parent: map<nat, RegSP>, r: nat)
    requires |s.cost| == RID_MAX
  {
    IsReg(r) && r !in s.free ==> Owner(s.cost[r]) in parent && parent[Owner(s.cost[r])].spill == 0
  }

  /** Every register that is not free waits for a live register of the parent, and each live one is awaited. */
  ghost predicate Waiting(s: St, h: Todo, parent: map<nat, RegSP>) {
    Grown(s, h, parent) && forall r: nat {:trigger WaitsAt(s, parent, r)} :: WaitsAt(s, parent, r)
  }

  /** What a live register of the parent is awaited by. */
  lemma Awaited(s: St, h: Todo, parent: map<nat, RegSP>, rp: nat)
    requires Consistent(s) && Waiting(s, h, parent) && rp in h.live
    ensures rp in h.sloadins && rp !in h.pend
    ensures var x := h.sloadins[rp]; x in s.ir && REF_BASE < x < s.live && x !in s.gone && HasReg(s.ir[x].r) && x in parent && InReg(parent[x], rp)
    ensures IsReg(rp) && s.ir[h.sloadins[rp]].r !in h.pend && IsReg(s.ir[h.sloadins[rp]].r)
              && s.ir[h.sloadins[rp]].r !in s.free
  {
    assert LiveAt(s, h, parent, REF_BASE, rp) && PendAt(s, h, parent, rp);
    var x := h.sloadins[rp];
    assert x !in Spilled(s);
    assert RefEntry(s, x) && PendAt(s, h, parent, s.ir[x].r);
    var y := if rp in h.pend then h.pend[rp] else x;
    assert y in parent && InReg(parent[y], rp);
  }

  lemma MoveNext(s: St, h: Todo, parent: map<nat, RegSP>, rp: nat, allow: set<nat>)
    requires Consistent(s) && Waiting(s, h, parent) && rp in h.live && rp in s.free && rp in h.sloadins
               && h.sloadins[rp] in s.ir
    requires allow <= h.allow + {s.ir[h.sloadins[rp]].r} - {rp}
    requires forall q {:trigger q in allow} ::
               q in h.allow && q != rp && (q in s.free || q == s.ir[h.sloadins[rp]].r) ==> q in allow
    ensures Waiting(Gone(s, h.sloadins[rp]),
              h.(pend := h.pend[rp := h.sloadins[rp]], live := h.live - {rp}, allow := allow), parent)
  {
    var x := h.sloadins[rp];
    var s', h' := Gone(s, x), h.(pend := h.pend[rp := x], live := h.live - {rp}, allow := allow);
    Awaited(s, h, parent, rp);
    DoneNext(s, h, parent, x, rp, allow);
    assert Spilled(s') == Spilled(s);
    forall q: nat ensures InhAt(s', parent, q) && WaitsAt(s', parent, q) {
      assert InhAt(s, parent, q) && WaitsAt(s, parent, q);
    }
  }

  /** Renaming a live register to a temporary one makes it free. */
  lemma BreakNext(s: St, h: Todo, parent: map<nat, RegSP>, down: nat, up: nat, allow: set<nat>)
    requires Consistent(s) && Waiting(s, h, parent) && IsReg(down) && IsReg(up) && down !in s.free && up in s.free
    requires (down < RID_MAX_GPR <==> up < RID_MAX_GPR) && up in h.allow && allow <= h.allow + {down} - {up}
    requires down in h.live && forall q {:trigger q in allow} :: q in h.allow && q in s.free && q != up ==> q in allow
    ensures Owner(s.cost[down]) in s.ir && Waiting(Renamed(s, down, up), h.(allow := allow), parent) && down !in h.pend
              && up !in h.pend
  {
    RenamedOk(s, down, up);
    var s', h', ref := Renamed(s, down, up), h.(allow := allow), Owner(s.cost[down]);
    assert RegEntry(s, down) && RefEntry(s, ref) && PendAt(s, h, parent, down) && PendAt(s, h, parent, up);
    assert WaitsAt(s, parent, down);
    SpokenKept(s, s', parent, ref);
    assert LiveAt(s, h, parent, REF_BASE, down);
    assert SpokenBy(s', parent, down, h.sloadins[down]);
    forall q: nat ensures PendAt(s', h', parent, q) && LiveAt(s', h', parent, REF_BASE, q)
        && AllowAt(s', h', REF_BASE, q) && RefAt(s', h', parent, REF_BASE, q) {
      assert PendAt(s, h, parent, q) && LiveAt(s, h, parent, REF_BASE, q) && AllowAt(s, h, REF_BASE, q)
          && RefAt(s, h, parent, REF_BASE, q);
    }
    forall q: nat ensures InhAt(s', parent, q) && WaitsAt(s', parent, q) {
      assert InhAt(s, parent, q) && WaitsAt(s, parent, q);
    }
  }

  /** When no live register is left, all is where the parent has it. */
  lemma AllFromParent(s: St, h: Todo, parent: map<nat, RegSP>)
    requires Consistent(s) && Waiting(s, h, parent) && h.live == {}
    ensures FromParent(Want(s, h.pend), parent)
  {
    forall r: nat ensures r !in Demanded(s) {
      if r < RID_MAX {
        assert RegEntry(s, r) && WaitsAt(s, parent, r) && RefAt(s, h, parent, REF_BASE, Owner(s.cost[r]));
      }
    }
    assert Demanded(s) + h.pend == h.pend;
    assert Spilled(s) + s.inherited == s.inherited;
    forall r | r in h.pend ensures h.pend[r] in parent && InReg(parent[h.pend[r]], r) {
      assert PendAt(s, h, parent, r);
    }
    forall x | x in s.inherited ensures x in parent && parent[x].spill != 0
        && s.inherited[x] == Slot(parent[x].spill, parent[x].wide) {
      assert InhAt(s, parent, x);
    }
  }

  // ---- The head ----

  /** From any state in which the parent leaves, the code reaches the goal. */
  ghost predicate Enters(code: seq<Op>, parent: map<nat, RegSP>, goal: Demand, sems: iset<Sem>) {
    forall m, sem {:trigger Execs(code, m, sem)} :: sem in sems && ParentHolds(m, parent, sem)
        ==> Holds(Execs(code, m, sem), goal, sem)
  }

  lemma AllEnter(s: St, code: seq<Op>, h: Todo, parent: map<nat, RegSP>, goal: Demand, sems: iset<Sem>)
    requires Core(s, code, h.pend, goal, sems) && Waiting(s, h, parent) && h.live == {}
    ensures Enters(code, parent, goal, sems)
  {
    var d := Want(s, h.pend);
    AllFromParent(s, h, parent);
    forall m, sem | sem in sems && ParentHolds(m, parent, sem) ensures Holds(Execs(code, m, sem), goal, sem) {
      assert Leads(code, d, goal, sem);
      ParentSuffices(m, d, parent, sem);
    }
  }

  /** At the head of a trace weak references are needed like any other. */
  lemma NoneWeak(s: St, code: seq<Op>, pend: map<nat, nat>, goal: Demand, sems: iset<Sem>)
    requires Core(s, code, pend, goal, sems)
    ensures Core(s.(weak := {}), code, pend, goal, sems)
  {
    var s' := s.(weak := {});
    forall q: nat ensures RegEntry(s', q) && RefEntry(s', q) { assert RegEntry(s, q) && RefEntry(s, q); }
    SameSlots(s, s');
    AllStronger(code, Want(s, pend), Want(s', pend), goal, sems);
  }

  /** Constants lose their registers, and so does the base. */
  method DropConstants(a: Assembler)
    requires a.Valid(map[]) && REF_BASE < a.live
    modifies a`ir, a`freeset, a`modset, a`code
    ensures a.Valid(map[]) && Kept(old(a.State()), a.State())
    ensures forall x {:trigger a.ir[x]} :: x in a.ir && x <= REF_BASE && x < a.live ==> !HasReg(a.ir[x].r)
  {
    ghost var s := a.State();
    a.EvictK();
    ghost var s1 := a.State();
    forall x | x in a.ir && x < REF_BASE && x < a.live ensures !HasReg(a.ir[x].r) { assert RefEntry(s1, x); }
    if REF_BASE in a.ir && HasReg(a.ir[REF_BASE].r) {
      var r := a.Rematk(REF_BASE, map[]);
      KeptTwice(s, s1, a.State());
      forall x | x in a.ir && x <= REF_BASE && x < a.live ensures !HasReg(a.ir[x].r) {
        assert NoneNew(s1, a.State(), x);
      }
    }
  }

  lemma ParentKept(s: St, s': St, parent: map<nat, RegSP>, stop: nat)
    requires ParentOk(parent, s.ir, stop) && KeptRefs(s, s')
    ensures ParentOk(parent, s'.ir, stop)
  {
    forall x: nat | x in s'.ir && REF_BASE < x <= stop ensures x in parent && parent[x].wide == s'.ir[x].wide {
      assert KeptRef(s, s', x);
    }
  }

  /** asm_head_side: whatever the parent's registers are, its values arrive where the trace wants them. */
  method HeadSide(a: Assembler, parent: map<nat, RegSP>, stopins: nat, delta: int)
    returns (ok: bool, h: SideHead)
    requires a.Valid(map[]) && a.outs == map[] && a.live == stopins + 1 && stopins >= REF_BASE && a.marks == {}
    requires ParentOk(parent, a.ir, stopins)
    modifies a
    ensures ok || a.Overflown() || (h.a == a && h.parent == parent && h.NoTemporary())
    ensures ok ==> Enters(a.code, parent, a.goal, a.sems) && a.goal == old(a.goal)
  {
    ghost var s := a.State();
    DropConstants(a);
    ParentKept(s, a.State(), parent, stopins);
    NoneWeak(a.State(), a.code, map[], a.goal, a.sems);
    a.weakset := {};
    h := new SideHead(a, parent);
    ok := h.FillSlots(stopins, delta);
    if ok {
      ok := h.FillRegs(delta);
    }
  }

  // ---- A side trace as a whole ----

  /** The results of a trace, by slot of the Lua stack. */
  function Outs(results: seq<nat>, n: nat): map<nat, nat>
    requires n <= |results|
  {
    map idx: nat | idx < n :: results[idx]
  }

  /** asm_tail_link: the results are stored to the Lua stack. */
  method Tail(a: Assembler, results: seq<nat>) returns (ok: bool)
    requires a.Valid(map[]) && a.outs == Outs(results, |results|)
    requires forall i :: 0 <= i < |results| ==> results[i] in a.ir && results[i] < a.live
    modifies a`ir, a`freeset, a`modset, a`weakset, a`cost, a`evenspill, a`oddspill, a`code, a`outs
    ensures !ok ==> a.Overflown()
    ensures ok ==> a.Valid(map[]) && a.outs == map[] && KeptRefs(old(a.State()).(outs := map[]), a.State())
  {
    ok := true;
    var n: nat := |results|;
    ghost var s0 := a.State();
    forall x: nat ensures KeptRef(s0, s0, x) { }
    while n > 0
      invariant n <= |results| && ok && a.Valid(map[]) && a.outs == Outs(results, n)
      invariant KeptRefs(s0.(outs := a.outs), a.State())
    {
      ghost var s := a.State();
      n := n - 1;
      ok := a.StackRestore(results[n], n);
      if !ok {
        return;
      }
      assert a.outs == Outs(results, n);
      OutsKept(s0.(outs := s.outs), s, a.outs);
      KeptThrough(s0.(outs := a.outs), s.(outs := a.outs), a.State());
    }
  }

  /**
   * A side trace from its last instruction to its head: run from a state in
   * which the parent leaves, the code leaves the value of each result in its slot
   * of the Lua stack. It gives up only where the references with spill slots leave
   * no room for another one, or where no register is left to move parent registers.
   */
  method AssembleSide(ir: map<nat, Ins>, last: nat, stopins: nat, results: seq<nat>, snaps: map<nat, seq<nat>>,
                      parent: map<nat, RegSP>,
                      delta: int, ghost sems: iset<Sem>)
    returns (ok: bool, a: Assembler, h: SideHead?, code: seq<Op>)
    requires forall x {:trigger ir[x]} :: x in ir ==> x < REF_DROP && !HasReg(ir[x].r) && ir[x].s == 0
    requires REF_BASE <= stopins <= last && TraceOk(ir, stopins, sems) && ParentOk(parent, ir, stopins)
    requires forall g {:trigger g in snaps} :: g in snaps ==> SnapOk(ir, snaps[g], g)
    requires forall i :: 0 <= i < |results| ==> results[i] in ir && results[i] <= last
    ensures !ok ==> a.Overflown() || (h != null && h.a == a && h.parent == parent && h.NoTemporary())
    ensures ok ==> forall m, sem {:trigger Execs(code, m, sem)} :: sem in sems && ParentHolds(m, parent, sem) ==>
                     forall idx :: 0 <= idx < |results| ==>
                       idx in Execs(code, m, sem).stack && Execs(code, m, sem).stack[idx] == sem.val(results[idx])
  {
    code, h := [], null;
    a := new Assembler(ir, last + 1, 0, Outs(results, |results|), sems);
    ghost var s0 := a.State();
    ok := Tail(a, results);
    if !ok {
      return;
    }
    ghost var s1 := a.State();
    TraceKept(s0, s1, stopins, sems);
    ParentKept(s0.(outs := map[]), s1, parent, stopins);
    ok := a.Body(stopins, last, snaps);
    if !ok {
      return;
    }
    ParentKept(s1, a.State(), parent, stopins);
    ok, h := HeadSide(a, parent, stopins, delta);
    code := a.code;
    forall m, sem | ok && sem in sems && ParentHolds(m, parent, sem)
      ensures forall idx :: 0 <= idx < |results| ==>
                idx in Execs(code, m, sem).stack && Execs(code, m, sem).stack[idx] == sem.val(results[idx])
    {
      Reaches(code, m, sem, a.goal, results);
    }
  }

  lemma Reaches(code: seq<Op>, m: Machine, sem: Sem, goal: Demand, results: seq<nat>)
    requires Holds(Execs(code, m, sem), goal, sem) && goal.outs == Outs(results, |results|)
    ensures forall idx :: 0 <= idx < |results| ==>
              idx in Execs(code, m, sem).stack && Execs(code, m, sem).stack[idx] == sem.val(results[idx])
  {
    forall idx: nat | idx < |results| ensures idx in Execs(code, m, sem).stack
        && Execs(code, m, sem).stack[idx] == sem.val(results[idx]) {
      assert OutOk(Execs(code, m, sem), goal, sem, idx);
    }
  }
}
