/**
 * A tiny machine for the code that the register allocator emits (lj_asm.c):
 * registers and spill slots hold the values of IR references. Code is emitted
 * backwards, each operation in front of what is already there, so a demand on
 * the state before the code is turned into one on the state before it plus one
 * operation.
 */
module RaMachine {
  const RID_MAX: nat := 32
  const RID_MAX_GPR: nat := 16
  const RID_SP: nat := 4

  /** A register that can be allocated: any but the stack pointer. */
  predicate IsReg(r: nat) {
    r < RID_MAX && r != RID_SP
  }

  const GPR: set<nat> := set r: nat | r < RID_MAX_GPR && r != RID_SP
  const FPR: set<nat> := set r: nat | RID_MAX_GPR <= r < RID_MAX

  /** The registers for a type. */
  function File(fp: bool): set<nat> {
    if fp then FPR else GPR
  }

  lemma FileRegs(fp: bool, r: nat)
    ensures r in File(fp) <==> IsReg(r) && (fp <==> r >= RID_MAX_GPR)
  {
  }

  /** One register less still leaves some. */
  lemma FileLeft(fp: bool, r: nat)
    ensures File(fp) - {r} != {} && File(fp) != {}
  {
    FileRegs(fp, if fp then 16 else 0);
    FileRegs(fp, if fp then 17 else 1);
    var x := (if fp then 16 else 0) + if r == 0 || r == 16 then 1 else 0;
    assert x in File(fp) - {r};
  }

  /** Wide slots take two cells. */
  datatype Slot = Slot(at: int, wide: bool)

  datatype Op =
    | Mov(dst: nat, src: nat)
    | LoadRef(dst: nat, ref: nat)
    | SpLoad(dst: nat, slot: Slot)
    | SpStore(src: nat, slot: Slot)
    | Compute(dst: nat, ref: nat, left: nat, right: nat)
    | SpSub(delta: int)
    | StackStore(src: nat, idx: nat)

  /** What references are worth, and what an instruction makes of its operands. */
  datatype Sem = Sem(val: nat -> int, fn: (nat, int, int) -> int)

  /**
   * Memory cells are half a value each: the value and which half of it. The Lua stack holds what
   * the trace leaves behind.
   */
  datatype Machine = Machine(regs: map<nat, int>, sp: int, mem: map<int, (int, int)>, stack: map<nat, int>)

  predicate Stored(m: Machine, slot: Slot, v: int) {
    && m.sp + slot.at in m.mem && m.mem[m.sp + slot.at] == (v, 0)
    && (slot.wide ==> m.sp + slot.at + 1 in m.mem && m.mem[m.sp + slot.at + 1] == (v, 1))
  }

  function Exec(op: Op, m: Machine, sem: Sem): Machine {
    match op
    case Mov(dst, src) => if src in m.regs then m.(regs := m.regs[dst := m.regs[src]]) else m
    case LoadRef(dst, ref) => m.(regs := m.regs[dst := sem.val(ref)])
    case SpLoad(dst, slot) =>
      var a := m.sp + slot.at;
      if a in m.mem && Stored(m, slot, m.mem[a].0) then m.(regs := m.regs[dst := m.mem[a].0])
          else m.(regs := m.regs - {dst})
    case SpStore(src, slot) =>
      var a := m.sp + slot.at;
      if src !in m.regs then m
      else if slot.wide then m.(mem := m.mem[a := (m.regs[src], 0)][a + 1 := (m.regs[src], 1)])
      else m.(mem := m.mem[a := (m.regs[src], 0)])
    case Compute(dst, ref, left, right) =>
      if left in m.regs && right in m.regs then m.(regs := m.regs[dst := sem.fn(ref, m.regs[left], m.regs[right])])
          else m
    case SpSub(delta) => m.(sp := m.sp - delta)
    case StackStore(src, idx) => if src in m.regs then m.(stack := m.stack[idx := m.regs[src]]) else m
  }

  function Execs(code: seq<Op>, m: Machine, sem: Sem): Machine {
    if code == [] then m else Execs(code[1..], Exec(code[0], m, sem), sem)
  }

  // ---- Demands ----

  /** Registers, slots, and slots of the Lua stack that must hold references. */
  datatype Demand = Demand(regs: map<nat, nat>, slots: map<nat, Slot>, outs: map<nat, nat>)

  ghost predicate RegOk(m: Machine, d: Demand, sem: Sem, r: nat) {
    r in d.regs ==> r in m.regs && m.regs[r] == sem.val(d.regs[r])
  }

  ghost predicate SlotOk(m: Machine, d: Demand, sem: Sem, ref: nat) {
    ref in d.slots ==> Stored(m, d.slots[ref], sem.val(ref))
  }

  ghost predicate OutOk(m: Machine, d: Demand, sem: Sem, idx: nat) {
    idx in d.outs ==> idx in m.stack && m.stack[idx] == sem.val(d.outs[idx])
  }

  ghost predicate Holds(m: Machine, d: Demand, sem: Sem) {
    && (forall r: nat {:trigger RegOk(m, d, sem, r)} :: RegOk(m, d, sem, r))
    && (forall ref: nat {:trigger SlotOk(m, d, sem, ref)} :: SlotOk(m, d, sem, ref))
    && (forall idx: nat {:trigger OutOk(m, d, sem, idx)} :: OutOk(m, d, sem, idx))
  }

  /** From any state that meets a demand, the code reaches the goal. */
  ghost predicate Leads(code: seq<Op>, d: Demand, goal: Demand, sem: Sem) {
    forall m {:trigger Execs(code, m, sem)} :: Holds(m, d, sem) ==> Holds(Execs(code, m, sem), goal, sem)
  }

  ghost predicate Step(op: Op, before: Demand, after: Demand, sem: Sem) {
    forall m {:trigger Exec(op, m, sem)} :: Holds(m, before, sem) ==> Holds(Exec(op, m, sem), after, sem)
  }

  lemma Nothing(d: Demand, sem: Sem)
    ensures Leads([], d, d, sem)
  {
  }

  lemma Front(op: Op, code: seq<Op>, before: Demand, after: Demand, goal: Demand, sem: Sem)
    requires Step(op, before, after, sem) && Leads(code, after, goal, sem)
    ensures Leads([op] + code, before, goal, sem)
  {
    forall m | Holds(m, before, sem) ensures Holds(Execs([op] + code, m, sem), goal, sem) {
      var m' := Exec(op, m, sem);
      assert ([op] + code)[1..] == code;
      assert Holds(Execs(code, m', sem), goal, sem);
    }
  }

  ghost predicate Sub<K, V>(a: map<K, V>, b: map<K, V>) {
    forall k {:trigger k in a} :: k in a ==> k in b && b[k] == a[k]
  }

  ghost predicate Weaker(d: Demand, d': Demand) {
    Sub(d.regs, d'.regs) && Sub(d.slots, d'.slots) && Sub(d.outs, d'.outs)
  }

  /** A stronger demand is met by fewer states. */
  lemma Stronger(code: seq<Op>, d: Demand, d': Demand, goal: Demand, sem: Sem)
    requires Leads(code, d, goal, sem) && Weaker(d, d')
    ensures Leads(code, d', goal, sem)
  {
    forall m | Holds(m, d', sem) ensures Holds(Execs(code, m, sem), goal, sem) {
      HoldsWeaker(m, d, d', sem);
    }
  }

  lemma HoldsWeaker(m: Machine, d: Demand, d': Demand, sem: Sem)
    requires Holds(m, d', sem) && Weaker(d, d')
    ensures Holds(m, d, sem)
  {
    forall r: nat ensures RegOk(m, d, sem, r) { assert RegOk(m, d', sem, r); }
    forall ref: nat ensures SlotOk(m, d, sem, ref) { assert SlotOk(m, d', sem, ref); }
    forall idx: nat ensures OutOk(m, d, sem, idx) { assert OutOk(m, d', sem, idx); }
  }

  // ---- What one operation does to a demand ----

  /** The only register that changes is dst, which holds what it should. */
  lemma RegStep(op: Op, dst: nat, before: Demand, after: Demand, sem: Sem)
    requires forall m {:trigger Exec(op, m, sem)} :: Holds(m, before, sem) ==>
               var m' := Exec(op, m, sem);
               m'.sp == m.sp && m'.mem == m.mem && m'.stack == m.stack && Sub(m.regs - {dst}, m'.regs)
                   && RegOk(m', after, sem, dst)
    requires Sub(after.regs - {dst}, before.regs) && Sub(after.slots, before.slots) && Sub(after.outs, before.outs)
    ensures Step(op, before, after, sem)
  {
    forall m | Holds(m, before, sem) ensures Holds(Exec(op, m, sem), after, sem) {
      var m' := Exec(op, m, sem);
      forall r: nat ensures RegOk(m', after, sem, r) {
        assert RegOk(m, before, sem, r);
        if r != dst && r in after.regs {
          assert r in after.regs - {dst} && r in m.regs - {dst};
        }
      }
      forall ref: nat ensures SlotOk(m', after, sem, ref) { assert SlotOk(m, before, sem, ref); }
      forall idx: nat ensures OutOk(m', after, sem, idx) { assert OutOk(m, before, sem, idx); }
    }
  }

  lemma MovStep(dst: nat, src: nat, before: Demand, after: Demand, sem: Sem)
    requires dst in after.regs ==> src in before.regs && before.regs[src] == after.regs[dst]
    requires Sub(after.regs - {dst}, before.regs) && Sub(after.slots, before.slots) && Sub(after.outs, before.outs)
    ensures Step(Mov(dst, src), before, after, sem)
  {
    forall m | Holds(m, before, sem) ensures RegOk(Exec(Mov(dst, src), m, sem), after, sem, dst) {
      assert RegOk(m, before, sem, src);
    }
    RegStep(Mov(dst, src), dst, before, after, sem);
  }

  lemma RematStep(dst: nat, ref: nat, before: Demand, after: Demand, sem: Sem)
    requires dst in after.regs ==> after.regs[dst] == ref
    requires Sub(after.regs - {dst}, before.regs) && Sub(after.slots, before.slots) && Sub(after.outs, before.outs)
    ensures Step(LoadRef(dst, ref), before, after, sem)
  {
    RegStep(LoadRef(dst, ref), dst, before, after, sem);
  }

  lemma LoadStep(dst: nat, ref: nat, slot: Slot, before: Demand, after: Demand, sem: Sem)
    requires dst in after.regs ==> after.regs[dst] == ref && ref in before.slots && before.slots[ref] == slot
    requires Sub(after.regs - {dst}, before.regs) && Sub(after.slots, before.slots) && Sub(after.outs, before.outs)
    ensures Step(SpLoad(dst, slot), before, after, sem)
  {
    forall m | Holds(m, before, sem) ensures RegOk(Exec(SpLoad(dst, slot), m, sem), after, sem, dst) {
      assert SlotOk(m, before, sem, ref);
    }
    RegStep(SpLoad(dst, slot), dst, before, after, sem);
  }

  lemma ComputeStep(dst: nat, ref: nat, left: nat, right: nat, before: Demand, after: Demand, sem: Sem)
    requires dst in after.regs ==> after.regs[dst] == ref
    requires left in before.regs && right in before.regs
    requires sem.val(ref) == sem.fn(ref, sem.val(before.regs[left]), sem.val(before.regs[right]))
    requires Sub(after.regs - {dst}, before.regs) && Sub(after.slots, before.slots) && Sub(after.outs, before.outs)
    ensures Step(Compute(dst, ref, left, right), before, after, sem)
  {
    forall m | Holds(m, before, sem) ensures RegOk(Exec(Compute(dst, ref, left, right), m, sem), after, sem, dst) {
      assert RegOk(m, before, sem, left) && RegOk(m, before, sem, right);
    }
    RegStep(Compute(dst, ref, left, right), dst, before, after, sem);
  }

  /** Slots that share no cell. */
  predicate Apart(a: Slot, b: Slot) {
    a.at + (if a.wide then 2 else 1) <= b.at || b.at + (if b.wide then 2 else 1) <= a.at
  }

  /** A store provides one slot and leaves the others alone. */
  lemma StoreStep(src: nat, ref: nat, slot: Slot, before: Demand, after: Demand, sem: Sem)
    requires ref in after.slots ==> after.slots[ref] == slot && src in before.regs && before.regs[src] == ref
    requires Sub(after.regs, before.regs) && Sub(after.slots - {ref}, before.slots) && Sub(after.outs, before.outs)
    requires forall x {:trigger x in after.slots} :: x in after.slots && x != ref ==> Apart(after.slots[x], slot)
    ensures Step(SpStore(src, slot), before, after, sem)
  {
    forall m | Holds(m, before, sem) ensures Holds(Exec(SpStore(src, slot), m, sem), after, sem) {
      var m' := Exec(SpStore(src, slot), m, sem);
      forall r: nat ensures RegOk(m', after, sem, r) { assert RegOk(m, before, sem, r); }
      forall x: nat ensures SlotOk(m', after, sem, x) {
        assert SlotOk(m, before, sem, x) && RegOk(m, before, sem, src);
        if x in after.slots && x != ref { assert x in after.slots - {ref}; }
      }
      forall idx: nat ensures OutOk(m', after, sem, idx) { assert OutOk(m, before, sem, idx); }
    }
  }

  /** Slots as seen from a stack pointer that is delta lower. */
  function Shifted(slots: map<nat, Slot>, delta: int): map<nat, Slot> {
    map ref | ref in slots :: Slot(slots[ref].at + delta, slots[ref].wide)
  }

  lemma SubStep(delta: int, before: Demand, after: Demand, sem: Sem)
    requires after.regs == before.regs && after.slots == Shifted(before.slots, delta) && after.outs == before.outs
    ensures Step(SpSub(delta), before, after, sem)
  {
    forall m | Holds(m, before, sem) ensures Holds(Exec(SpSub(delta), m, sem), after, sem) {
      var m' := Exec(SpSub(delta), m, sem);
      forall r: nat ensures RegOk(m', after, sem, r) { assert RegOk(m, before, sem, r); }
      forall ref: nat ensures SlotOk(m', after, sem, ref) { assert SlotOk(m, before, sem, ref); }
      forall idx: nat ensures OutOk(m', after, sem, idx) { assert OutOk(m, before, sem, idx); }
    }
  }

  /** The Lua stack gets one more value. */
  lemma StackStep(src: nat, idx: nat, before: Demand, after: Demand, sem: Sem)
    requires idx in after.outs ==> src in before.regs && before.regs[src] == after.outs[idx]
    requires Sub(after.regs, before.regs) && Sub(after.slots, before.slots) && Sub(after.outs - {idx}, before.outs)
    ensures Step(StackStore(src, idx), before, after, sem)
  {
    forall m | Holds(m, before, sem) ensures Holds(Exec(StackStore(src, idx), m, sem), after, sem) {
      var m' := Exec(StackStore(src, idx), m, sem);
      forall r: nat ensures RegOk(m', after, sem, r) { assert RegOk(m, before, sem, r); }
      forall ref: nat ensures SlotOk(m', after, sem, ref) { assert SlotOk(m, before, sem, ref); }
      forall x: nat ensures OutOk(m', after, sem, x) {
        assert OutOk(m, before, sem, x) && RegOk(m, before, sem, src);
        if x in after.outs && x != idx { assert x in after.outs - {idx}; }
      }
    }
  }

  // ---- Demands can be met ----

  /** One register at a time holds one reference; slots that are apart can hold theirs all at once. */
  lemma {:induction false} Satisfiable(d: Demand, sem: Sem) returns (m: Machine)
    requires forall a, b {:trigger d.slots[a], d.slots[b]} :: a in d.slots && b in d.slots && a != b
               ==> Apart(d.slots[a], d.slots[b])
    ensures Holds(m, d, sem) && m.sp == 0
    decreases |d.slots|
  {
    var regs := map r | r in d.regs :: sem.val(d.regs[r]);
    if d.slots == map[] {
      m := Machine(regs, 0, map[], map idx | idx in d.outs :: sem.val(d.outs[idx]));
    } else {
      var ref :| ref in d.slots;
      var d', slot := d.(slots := d.slots - {ref}), d.slots[ref];
      var m0 := Satisfiable(d', sem);
      var v := sem.val(ref);
      m := m0.(mem := if slot.wide then m0.mem[slot.at := (v, 0)][slot.at + 1 := (v, 1)]
          else m0.mem[slot.at := (v, 0)]);
      OneMoreSlot(d, ref, sem, m0, m);
    }
  }

  lemma OneMoreSlot(d: Demand, ref: nat, sem: Sem, m0: Machine, m: Machine)
    requires ref in d.slots && Holds(m0, d.(slots := d.slots - {ref}), sem) && m0.sp == 0
    requires forall a, b {:trigger d.slots[a], d.slots[b]} :: a in d.slots && b in d.slots && a != b
               ==> Apart(d.slots[a], d.slots[b])
    requires var slot, v := d.slots[ref], sem.val(ref);
             m == m0.(mem := if slot.wide then m0.mem[slot.at := (v, 0)][slot.at + 1 := (v, 1)]
                 else m0.mem[slot.at := (v, 0)])
    ensures Holds(m, d, sem)
  {
    var d' := d.(slots := d.slots - {ref});
    forall r: nat ensures RegOk(m, d, sem, r) && OutOk(m, d, sem, r) {
      assert RegOk(m0, d', sem, r) && OutOk(m0, d', sem, r);
    }
    forall x: nat ensures SlotOk(m, d, sem, x) {
      assert SlotOk(m0, d', sem, x);
      if x in d.slots && x != ref { assert x in d'.slots && Apart(d.slots[x], d.slots[ref]); }
    }
  }
}
