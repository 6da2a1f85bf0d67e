/**
 * The register allocator (lj_asm.c). Code is emitted backwards: every operation
 * puts its machine operations in front of the code and changes what that code
 * wants to find in registers and spill slots. Where ok is false, lj_asm.c
 * raises a trace error.
 */
module RegAlloc {
  import opened RaMachine
  import opened RegState

  /** From every state that meets what the allocator wants, the code reaches the goal. */
  ghost predicate Sound(code: seq<Op>, s: St, pend: map<nat, nat>, goal: Demand, sems: iset<Sem>) {
    |s.cost| == RID_MAX && AllLead(code, Want(s, pend), goal, sems)
  }

  /** Whatever the references are worth. */
  ghost predicate AllLead(code: seq<Op>, d: Demand, goal: Demand, sems: iset<Sem>) {
    forall sem {:trigger Leads(code, d, goal, sem)} :: sem in sems ==> Leads(code, d, goal, sem)
  }

  lemma AllFront(op: Op, code: seq<Op>, before: Demand, after: Demand, goal: Demand, sems: iset<Sem>)
    requires AllLead(code, after, goal, sems) && forall sem {:trigger Step(op, before, after, sem)} ::
               sem in sems ==> Step(op, before, after, sem)
    ensures AllLead([op] + code, before, goal, sems)
  {
    forall sem | sem in sems ensures Leads([op] + code, before, goal, sem) {
      assert Step(op, before, after, sem) && Leads(code, after, goal, sem);
      Front(op, code, before, after, goal, sem);
    }
  }

  lemma AllStronger(code: seq<Op>, d: Demand, d': Demand, goal: Demand, sems: iset<Sem>)
    requires AllLead(code, d, goal, sems) && Weaker(d, d')
    ensures AllLead(code, d', goal, sems)
  {
    forall sem | sem in sems ensures Leads(code, d', goal, sem) {
      assert Leads(code, d, goal, sem);
      Stronger(code, d, d', goal, sem);
    }
  }

  /** An operation writes a register that counts as modified, or the slot of a reference that was saved. */
  ghost predicate Effect(op: Op, modset: set<nat>, saved: map<nat, Slot>) {
    match op
    case Mov(dst, _) => dst in modset
    case LoadRef(dst, _) => dst in modset
    case SpLoad(dst, _) => dst in modset
    case Compute(dst, _, _, _) => dst in modset
    case SpStore(_, slot) => exists ref :: ref in saved && saved[ref] == slot
    case SpSub(_) => false
    case StackStore(_, _) => true
  }

  ghost predicate EffectAt(code: seq<Op>, modset: set<nat>, saved: map<nat, Slot>, i: nat) {
    i < |code| ==> Effect(code[i], modset, saved)
  }

  /** All that the code may write. */
  ghost predicate Effects(code: seq<Op>, modset: set<nat>, saved: map<nat, Slot>) {
    forall i: nat {:trigger EffectAt(code, modset, saved, i)} :: EffectAt(code, modset, saved, i)
  }

  lemma EffectsMore(op: Op, code: seq<Op>, modset: set<nat>, more: set<nat>, saved: map<nat, Slot>)
    requires Effects(code, modset, saved) && Effect(op, modset + more, saved)
    ensures Effects([op] + code, modset + more, saved)
  {
    forall i: nat ensures EffectAt([op] + code, modset + more, saved, i) {
      if i > 0 { assert EffectAt(code, modset, saved, i - 1); }
    }
  }

  lemma EffectsSame(code: seq<Op>, modset: set<nat>, more: set<nat>, saved: map<nat, Slot>)
    requires Effects(code, modset, saved)
    ensures Effects(code, modset + more, saved)
  {
    forall i: nat ensures EffectAt(code, modset + more, saved, i) {
      assert EffectAt(code, modset, saved, i);
    }
  }

  lemma EffectsSaved(src: nat, code: seq<Op>, modset: set<nat>, saved: map<nat, Slot>, ref: nat, slot: Slot)
    requires Effects(code, modset, saved) && (ref in saved ==> saved[ref] == slot)
    ensures Effects([SpStore(src, slot)] + code, modset, saved[ref := slot])
  {
    var saved' := saved[ref := slot];
    forall i: nat ensures EffectAt([SpStore(src, slot)] + code, modset, saved', i) {
      assert ref in saved' && saved'[ref] == slot;
      if i > 0 {
        assert EffectAt(code, modset, saved, i - 1);
        if i - 1 < |code| && code[i - 1].SpStore? {
          var x :| x in saved && saved[x] == code[i - 1].slot;
          assert x in saved' && saved'[x] == code[i - 1].slot;
        }
      }
    }
  }

  // ---- Soundness of the transitions ----

  lemma ReleasedLoad(code: seq<Op>, s: St, ref: nat, hint: nat, pend: map<nat, nat>, goal: Demand, sems: iset<Sem>)
    requires Consistent(s) && Plain(s) && Sound(code, s, pend, goal, sems) && ref in s.ir && ref < s.live
               && HasReg(s.ir[ref].r) && !HasReg(hint)
    requires s.ir[ref].r !in pend && s.ir[ref].s != 0
    ensures Sound([SpLoad(s.ir[ref].r, SlotOf(s.ir[ref]))] + code, Released(s, ref, hint), pend, goal, sems)
  {
    var r, s' := s.ir[ref].r, Released(s, ref, hint);
    ReleasedOk(s, ref, hint);
    assert RefEntry(s, ref);
    forall sem | sem in sems { LoadStep(r, ref, SlotOf(s.ir[ref]), Want(s', pend), Want(s, pend), sem); }
    AllFront(SpLoad(r, SlotOf(s.ir[ref])), code, Want(s', pend), Want(s, pend), goal, sems);
  }

  lemma ReleasedRemat(code: seq<Op>, s: St, ref: nat, hint: nat, pend: map<nat, nat>, goal: Demand, sems: iset<Sem>)
    requires Consistent(s) && Plain(s) && Sound(code, s, pend, goal, sems) && ref in s.ir && ref < s.live
               && HasReg(s.ir[ref].r) && !HasReg(hint)
    requires s.ir[ref].r !in pend
    ensures Sound([LoadRef(s.ir[ref].r, ref)] + code, Released(s, ref, hint), pend, goal, sems)
  {
    var r, s' := s.ir[ref].r, Released(s, ref, hint);
    ReleasedOk(s, ref, hint);
    assert RefEntry(s, ref);
    forall sem | sem in sems { RematStep(r, ref, Want(s', pend), Want(s, pend), sem); }
    AllFront(LoadRef(r, ref), code, Want(s', pend), Want(s, pend), goal, sems);
  }

  lemma ReleasedWeak(code: seq<Op>, s: St, ref: nat, hint: nat, pend: map<nat, nat>, goal: Demand, sems: iset<Sem>)
    requires Consistent(s) && Plain(s) && Sound(code, s, pend, goal, sems) && ref in s.ir && ref < s.live
               && HasReg(s.ir[ref].r) && !HasReg(hint)
    requires s.ir[ref].r in s.weak
    ensures Sound(code, Released(s, ref, hint), pend, goal, sems)
  {
    ReleasedOk(s, ref, hint);
    AllStronger(code, Want(s, pend), Want(Released(s, ref, hint), pend), goal, sems);
  }

  lemma SlotSound(code: seq<Op>, s: St, ref: nat, slot: nat, even: nat, odd: nat, pend: map<nat, nat>, goal: Demand,
                  sems: iset<Sem>)
    requires Consistent(s) && Plain(s) && Sound(code, s, pend, goal, sems) && ref in s.ir && ref < s.live
               && s.ir[ref].s == 0 && !CanRemat(ref)
    requires FreshSlot(s, s.ir[ref].wide, slot, even, odd) && even <= 256
    ensures Sound(code, WithSlot(s, ref, slot, even, odd), pend, goal, sems)
  {
    SlotGiven(s, ref, slot, even, odd);
    AllStronger(code, Want(s, pend), Want(WithSlot(s, ref, slot, even, odd), pend), goal, sems);
  }

  lemma GivenSound(code: seq<Op>, s: St, ref: nat, r: nat, cost: nat, pend: map<nat, nat>, goal: Demand,
                   sems: iset<Sem>)
    requires Consistent(s) && Sound(code, s, pend, goal, sems) && ref in s.ir && ref < s.live && ref !in s.gone
               && !HasReg(s.ir[ref].r) && IsReg(r) && r in s.free
    requires Owner(cost) == ref && cost < 0x1_0000_0000 && (s.ir[ref].fp <==> r >= RID_MAX_GPR)
    ensures Sound(code, Given(s, ref, r, cost), pend, goal, sems)
    ensures var s' := Given(s, ref, r, cost);
            Sound(code, s'.(weak := s'.weak + {r}), pend, goal, sems)
  {
    GivenOk(s, ref, r, cost);
    var s' := Given(s, ref, r, cost);
    AllStronger(code, Want(s, pend), Want(s', pend), goal, sems);
    AllStronger(code, Want(s, pend), Want(s'.(weak := s'.weak + {r}), pend), goal, sems);
  }

  lemma RenamedSound(code: seq<Op>, s: St, down: nat, up: nat, pend: map<nat, nat>, goal: Demand, sems: iset<Sem>)
    requires Consistent(s) && Sound(code, s, pend, goal, sems) && down !in pend && up !in pend
    requires IsReg(down) && IsReg(up) && down !in s.free && up in s.free && (down < RID_MAX_GPR <==> up < RID_MAX_GPR)
    ensures Owner(s.cost[down]) in s.ir && Sound([Mov(down, up)] + code, Renamed(s, down, up), pend, goal, sems)
  {
    RenamedOk(s, down, up);
    var s' := Renamed(s, down, up);
    forall sem | sem in sems { MovStep(down, up, Want(s', pend), Want(s, pend), sem); }
    AllFront(Mov(down, up), code, Want(s', pend), Want(s, pend), goal, sems);
  }

  /** What a register is about to be written with takes the place of what it held. */
  lemma DefinedSound(code: seq<Op>, s: St, ref: nat, r: nat, goal: Demand, sems: iset<Sem>)
    requires Consistent(s) && Plain(s) && Sound(code, s, map[], goal, sems) && ref in s.ir && s.live == ref + 1
               && IsReg(r)
    requires if HasReg(s.ir[ref].r) then s.ir[ref].r == r else r in s.free
    ensures s.ir[ref].s == 0 ==> Sound(code, Defined(s, ref, r), map[r := ref], goal, sems)
    ensures s.ir[ref].s != 0 ==> Sound([SpStore(r, SlotOf(s.ir[ref]))] + code, Defined(s, ref, r), map[r := ref], goal,
              sems)
  {
    DefinedOk(s, ref, r);
    var s', pend := Defined(s, ref, r), map[r := ref];
    if s.ir[ref].s == 0 {
      AllStronger(code, Want(s, map[]), Want(s', pend), goal, sems);
    } else {
      var slot := SlotOf(s.ir[ref]);
      forall x | x in Spilled(s) && x != ref ensures Apart(Spilled(s)[x], slot) {
        assert SpillPair(s, x, ref);
      }
      forall sem | sem in sems { StoreStep(r, ref, slot, Want(s', pend), Want(s, map[]), sem); }
      AllFront(SpStore(r, slot), code, Want(s', pend), Want(s, map[]), goal, sems);
    }
  }

  lemma ComputedSound(code: seq<Op>, s: St, ref: nat, dest: nat, left: nat, right: nat, goal: Demand, sems: iset<Sem>)
    requires Sound(code, s, map[dest := ref], goal, sems)
    requires left in Demanded(s) && right in Demanded(s)
    requires forall sem {:trigger sem.val(ref)} :: sem in sems ==>
               sem.val(ref) == sem.fn(ref, sem.val(Demanded(s)[left]), sem.val(Demanded(s)[right]))
    ensures Sound([Compute(dest, ref, left, right)] + code, s, map[], goal, sems)
  {
    forall sem | sem in sems { ComputeStep(dest, ref, left, right, Want(s, map[]), Want(s, map[dest := ref]), sem); }
    AllFront(Compute(dest, ref, left, right), code, Want(s, map[]), Want(s, map[dest := ref]), goal, sems);
  }

  // ---- All that is kept ----

  /** The allocator's state fits together, and so does the code emitted so far. */
  ghost predicate Ok(s: St, code: seq<Op>, modset: set<nat>, saved: map<nat, Slot>, pend: map<nat, nat>, goal: Demand,
                     sems: iset<Sem>) {
    Consistent(s) && Sound(code, s, pend, goal, sems) && Effects(code, modset, saved) && SavedOk(s, saved)
  }

  lemma RematOk(s: St, code: seq<Op>, modset: set<nat>, saved: map<nat, Slot>, pend: map<nat, nat>, goal: Demand,
                sems: iset<Sem>, ref: nat, hint: nat)
    requires Ok(s, code, modset, saved, pend, goal, sems) && Plain(s)
    requires ref in s.ir && ref < s.live && HasReg(s.ir[ref].r) && s.ir[ref].r !in pend && !HasReg(hint)
    ensures var r := s.ir[ref].r;
            && IsReg(r) && r !in s.free && Freed(s, Released(s, ref, hint), ref, r)
            && Ok(Released(s, ref, hint), [LoadRef(r, ref)] + code, modset + {r}, saved, pend, goal, sems)
  {
    var r := s.ir[ref].r;
    assert RefEntry(s, ref);
    ReleasedOk(s, ref, hint);
    ReleasedRemat(code, s, ref, hint, pend, goal, sems);
    ReleasedFrees(s, s, ref, hint);
    SavedKept(s, Released(s, ref, hint), saved);
    EffectsMore(LoadRef(r, ref), code, modset, {r}, saved);
  }

  lemma ReloadOk(s: St, code: seq<Op>, modset: set<nat>, saved: map<nat, Slot>, pend: map<nat, nat>, goal: Demand,
                 sems: iset<Sem>, ref: nat, hint: nat)
    requires Ok(s, code, modset, saved, pend, goal, sems) && Plain(s)
    requires ref in s.ir && ref < s.live && HasReg(s.ir[ref].r) && s.ir[ref].r !in pend && s.ir[ref].s != 0
               && !HasReg(hint)
    ensures var r := s.ir[ref].r;
            && (r in s.weak ==> Ok(Released(s, ref, hint), code, modset, saved, pend, goal, sems))
            && (r !in s.weak ==> Ok(Released(s, ref, hint), [SpLoad(r, SlotOf(s.ir[ref]))] + code, modset + {r}, saved,
                pend, goal, sems))
  {
    var r := s.ir[ref].r;
    ReleasedOk(s, ref, hint);
    assert Slotted(s, s, ref);
    ReleasedFrees(s, s, ref, hint);
    SavedKept(s, Released(s, ref, hint), saved);
    if r in s.weak {
      ReleasedWeak(code, s, ref, hint, pend, goal, sems);
    } else {
      ReleasedLoad(code, s, ref, hint, pend, goal, sems);
      EffectsMore(SpLoad(r, SlotOf(s.ir[ref])), code, modset, {r}, saved);
    }
  }

  lemma RenameOk(s: St, code: seq<Op>, modset: set<nat>, saved: map<nat, Slot>, pend: map<nat, nat>, goal: Demand,
                 sems: iset<Sem>, down: nat, up: nat)
    requires Consistent(s) && Sound(code, s, pend, goal, sems) && down !in pend && up !in pend
    requires IsReg(down) && IsReg(up) && down !in s.free && up in s.free && (down < RID_MAX_GPR <==> up < RID_MAX_GPR)
    ensures Owner(s.cost[down]) in s.ir
    ensures Consistent(Renamed(s, down, up)) && Sound([Mov(down, up)] + code, Renamed(s, down, up), pend, goal, sems)
    ensures Ok(s, code, modset, saved, pend, goal, sems) ==>
              Ok(Renamed(s, down, up), [Mov(down, up)] + code, modset + {down}, saved, pend, goal, sems)
  {
    RenamedOk(s, down, up);
    RenamedSound(code, s, down, up, pend, goal, sems);
    RenamedKept(s, down, up);
    if Ok(s, code, modset, saved, pend, goal, sems) {
      SavedKept(s, Renamed(s, down, up), saved);
      EffectsMore(Mov(down, up), code, modset, {down}, saved);
    }
  }

  lemma GiveOk(s: St, code: seq<Op>, modset: set<nat>, saved: map<nat, Slot>, pend: map<nat, nat>, goal: Demand,
               sems: iset<Sem>, ref: nat, r: nat)
    requires Consistent(s) && Sound(code, s, pend, goal, sems) && ref in s.ir && ref < s.live && ref !in s.gone
               && !HasReg(s.ir[ref].r)
    requires r in s.free && r in File(s.ir[ref].fp)
    ensures var s' := Given(s, ref, r, RegCost(ref, s.ir[ref].phi));
            && Consistent(s') && Sound(code, s', pend, goal, sems) && Owner(s'.cost[r]) == ref
            && (Ok(s, code, modset, saved, pend, goal, sems) ==> Ok(s', code, modset, saved, pend, goal, sems))
            && Sound(code, s'.(weak := s'.weak + {r}), pend, goal, sems)
  {
    var c := RegCost(ref, s.ir[ref].phi);
    assert RefOk(s, ref);
    CostOwner(ref, s.ir[ref].phi);
    FileRegs(s.ir[ref].fp, r);
    GivenOk(s, ref, r, c);
    GivenSound(code, s, ref, r, c, pend, goal, sems);
    NothingChanged(s, {});
    GivenTook(s, s, ref, r, c, {});
    if Ok(s, code, modset, saved, pend, goal, sems) {
      SavedKept(s, Given(s, ref, r, c), saved);
    }
  }

  lemma DefineOk(s: St, code: seq<Op>, modset: set<nat>, saved: map<nat, Slot>, goal: Demand, sems: iset<Sem>, ref: nat,
                 r: nat)
    requires Ok(s, code, modset, saved, map[], goal, sems) && Plain(s) && ref in s.ir && s.live == ref + 1 && IsReg(r)
    requires if HasReg(s.ir[ref].r) then s.ir[ref].r == r else r in s.free
    ensures var s', slot := Defined(s, ref, r), SlotOf(s.ir[ref]);
            && KeptRefs(s, s')
            && (slot.at == 0 ==> Ok(s', code, modset, saved, map[r := ref], goal, sems))
            && (slot.at != 0 ==> Ok(s', [SpStore(r, slot)] + code, modset, saved[ref := slot], map[r := ref], goal,
                sems))
  {
    var s' := Defined(s, ref, r);
    DefinedOk(s, ref, r);
    DefinedSound(code, s, ref, r, goal, sems);
    NothingChanged(s, {});
    DefinedKept(s, s, ref, r);
    SavedKept(s, s', saved);
    if s.ir[ref].s != 0 {
      assert SavedAt(s, saved, ref);
      EffectsSaved(r, code, modset, saved, ref, SlotOf(s.ir[ref]));
      SavedMore(s', saved, ref);
    }
  }

  lemma StackOk(s: St, code: seq<Op>, modset: set<nat>, saved: map<nat, Slot>, goal: Demand, sems: iset<Sem>, r: nat,
                idx: nat)
    requires Ok(s, code, modset, saved, map[], goal, sems)
    requires idx in s.outs && r in Demanded(s) && Demanded(s)[r] == s.outs[idx]
    ensures Ok(s.(outs := s.outs - {idx}), [StackStore(r, idx)] + code, modset, saved, map[], goal, sems)
  {
    var s' := s.(outs := s.outs - {idx});
    forall q: nat ensures RegEntry(s', q) && RefEntry(s', q) && SavedAt(s', saved, q) {
      assert RegEntry(s, q) && RefEntry(s, q) && SavedAt(s, saved, q);
    }
    SameSlots(s, s');
    forall sem | sem in sems { StackStep(r, idx, Want(s', map[]), Want(s, map[]), sem); }
    AllFront(StackStore(r, idx), code, Want(s', map[]), Want(s, map[]), goal, sems);
    EffectsMore(StackStore(r, idx), code, modset, {}, saved);
    assert modset + {} == modset;
  }

  /** Nothing is allocated yet. */
  lemma SetUp(s: St, sems: iset<Sem>)
    requires Plain(s) && |s.cost| == RID_MAX && s.free == FPR + GPR && s.even == SPS_FIRST && s.odd == 0
    requires forall x {:trigger s.ir[x]} :: x in s.ir ==> x < REF_DROP && !HasReg(s.ir[x].r) && s.ir[x].s == 0
    ensures Ok(s, [], {}, map[], map[], Demand(map[], map[], s.outs), sems)
  {
    forall r: nat ensures RegEntry(s, r) { FileRegs(true, r); FileRegs(false, r); }
    forall x: nat ensures RefEntry(s, x) && RefOk(s, x) && SpillEntry(s, x) && SavedAt(s, map[], x) { }
    forall a: nat, b: nat ensures SpillPair(s, a, b) { }
    forall c ensures PackedAt(s, c) { }
    forall i: nat ensures EffectAt([], {}, map[], i) { }
    forall r | r in Demanded(s) ensures false { FileRegs(true, r); FileRegs(false, r); }
    var d := Demand(map[], map[], s.outs);
    assert Want(s, map[]) == d;
    forall sem | sem in sems ensures Leads([], d, d, sem) { Nothing(d, sem); }
  }

  // ---- The part that does not ask what the code writes ----

  ghost predicate Core(s: St, code: seq<Op>, pend: map<nat, nat>, goal: Demand, sems: iset<Sem>) {
    Consistent(s) && Sound(code, s, pend, goal, sems)
  }

  /** A reference in a register is stored to its slot: the slot needs nothing any more. */
  lemma HomeOk(s: St, code: seq<Op>, pend: map<nat, nat>, goal: Demand, sems: iset<Sem>, ref: nat, r: nat)
    requires Core(s, code, pend, goal, sems) && s.inherited == map[] && r !in s.weak
    requires ref in s.ir && ref < s.live && ref !in s.gone && s.ir[ref].s != 0 && HasReg(s.ir[ref].r)
               && s.ir[ref].r == r && r !in pend
    ensures Core(s.(homed := s.homed + {ref}), [SpStore(r, SlotOf(s.ir[ref]))] + code, pend, goal, sems)
  {
    var s', slot := s.(homed := s.homed + {ref}), SlotOf(s.ir[ref]);
    assert RefEntry(s, ref);
    forall q: nat ensures RegEntry(s', q) && RefEntry(s', q) { assert RegEntry(s, q) && RefEntry(s, q); }
    SameSlots(s, s');
    var before, after := Want(s', pend), Want(s, pend);
    forall x | x in after.slots && x != ref ensures Apart(after.slots[x], slot) {
      assert SpillPair(s, x, ref);
    }
    forall sem | sem in sems { StoreStep(r, ref, slot, before, after, sem); }
    AllFront(SpStore(r, slot), code, before, after, goal, sems);
  }

  /** A reference without a register gets a hint. */
  lemma HintOk(s: St, code: seq<Op>, pend: map<nat, nat>, goal: Demand, sems: iset<Sem>, ref: nat, hint: nat)
    requires Core(s, code, pend, goal, sems) && ref in s.ir && !HasReg(s.ir[ref].r) && !HasReg(hint)
    ensures Core(s.(ir := s.ir[ref := s.ir[ref].(r := hint)]), code, pend, goal, sems)
    ensures Spilled(s.(ir := s.ir[ref := s.ir[ref].(r := hint)])) == Spilled(s)
  {
    var s' := s.(ir := s.ir[ref := s.ir[ref].(r := hint)]);
    forall q: nat ensures RegEntry(s', q) && RefEntry(s', q) { assert RegEntry(s, q) && RefEntry(s, q); }
    SameSlots(s, s');
    assert Demanded(s') == Demanded(s) && Spilled(s') == Spilled(s);
  }

  // ---- Register sets ----

  /** rset_pickbot */
  method PickBot(rs: set<nat>) returns (r: nat)
    requires exists x :: x in rs
    ensures r in rs && forall x :: x in rs ==> r <= x
  {
    ghost var x :| x in rs;
    r := 0;
    while r !in rs
      invariant r <= x && forall y :: y in rs ==> r <= y
      decreases x - r
    {
      r := r + 1;
    }
  }

  /** rset_picktop */
  method PickTop(rs: set<nat>) returns (r: nat)
    requires (exists x :: x in rs) && forall x :: x in rs ==> x < RID_MAX
    ensures r in rs && forall x :: x in rs ==> x <= r
  {
    ghost var x :| x in rs;
    r := RID_MAX - 1;
    while r !in rs
      invariant x <= r && forall y :: y in rs ==> y <= r
      decreases r
    {
      r := r - 1;
    }
  }

  ghost predicate AreRegs(rs: set<nat>) {
    forall r {:trigger r in rs} :: r in rs ==> IsReg(r)
  }

  lemma NoneFree(a: set<nat>, b: set<nat>)
    requires b * a == {}
    ensures a - b == a && a !! b
  {
    forall x | x in a ensures x !in b {
      assert x in b ==> x in b * a;
    }
  }

  class Assembler {
    var ir: map<nat, Ins>
    var freeset: set<nat>
    var modset: set<nat>
    var weakset: set<nat>
    /** References with the mark bit set. */
    var marks: set<nat>
    var phiset: set<nat>
    var phireg: map<nat, nat>
    var cost: seq<nat>
    var evenspill: nat
    var oddspill: nat
    const loopref: nat
    var code: seq<Op>
    /** References below it are still to be defined. */
    ghost var live: nat
    /** References that the code stores to their slots. */
    ghost var saved: map<nat, Slot>
    ghost const sems: iset<Sem>
    /** Results that are still to be stored to the Lua stack. */
    ghost var outs: map<nat, nat>
    ghost var goal: Demand
    ghost var gone: set<nat>
    ghost var homed: set<nat>
    ghost var inherited: map<nat, Slot>

    ghost function State(): St
      reads this
    {
      St(ir, freeset, weakset, cost, evenspill, oddspill, live, outs, gone, homed, inherited)
    }

    ghost predicate Valid(pend: map<nat, nat>)
      reads this
    {
      Sane(pend) && Tracked() && Plain(State())
    }

    /** What the code may write is known. */
    ghost predicate Tracked()
      reads this
    {
      Effects(code, modset, saved) && SavedOk(State(), saved) && AreRegs(modset)
    }

    ghost predicate Sane(pend: map<nat, nat>)
      reads this
    {
      Consistent(State()) && Sound(code, State(), pend, goal, sems)
    }

    /** ra_setup: all registers are free. */
    constructor (ir: map<nat, Ins>, nins: nat, loopref: nat, ghost outs: map<nat, nat>, ghost sems: iset<Sem>)
      requires forall x {:trigger ir[x]} :: x in ir ==> x < REF_DROP && !HasReg(ir[x].r) && ir[x].s == 0
      ensures Valid(map[]) && this.ir == ir && live == nins && this.outs == outs && goal == Demand(map[], map[], outs)
                && this.sems == sems
      ensures code == [] && freeset == FPR + GPR && phiset == {} && marks == {} && weakset == {} && modset == {}
                && saved == map[] && this.loopref == loopref
    {
      this.ir, this.loopref := ir, loopref;
      freeset, modset, weakset, marks, phiset, phireg := FPR + GPR, {}, {}, {}, {}, map[];
      cost := seq(RID_MAX, i => 0xffff_0000);
      evenspill, oddspill, code := SPS_FIRST, 0, [];
      gone, homed, inherited := {}, {}, map[];
      this.outs, this.sems, saved, live, goal := outs, sems, map[], nins, Demand(map[], map[], outs);
      new;
      SetUp(State(), sems);
    }

    /** ra_rematk */
    method Rematk(ref: nat, ghost pend: map<nat, nat>) returns (r: nat)
      requires Valid(pend) && ref in ir && ref < live && CanRemat(ref) && HasReg(ir[ref].r) && ir[ref].r !in pend
      modifies this`ir, this`freeset, this`modset, this`code
      ensures modset >= old(modset)
      ensures Valid(pend) && IsReg(r) && r == old(ir[ref].r) && Freed(old(State()), State(), ref, r)
      ensures modset <= old(modset) + {r}
    {
      r := ir[ref].r;
      var hint := if ref == REF_BASE then RID_NONE + 2 else RID_INIT;
      RematOk(State(), code, modset, saved, pend, goal, sems, ref, hint);
      SetReleased(ref, hint);
      modset := modset + {r};
      code := [LoadRef(r, ref)] + code;
    }

    /** ra_free, and what becomes of the reference. */
    method SetReleased(ref: nat, hint: nat)
      requires ref in ir
      modifies this`ir, this`freeset
      ensures State() == Released(old(State()), ref, hint)
    {
      freeset := freeset + {ir[ref].r};
      ir := ir[ref := ir[ref].(r := hint)];
    }

    /** The error for too many spill slots: some reference needs one, and those that have slots leave no room. */
    ghost predicate Overflown()
      reads this`ir
    {
      SlotsApart(ir) && exists ref {:trigger OverflownBy(ref)} :: OverflownBy(ref)
    }

    ghost predicate OverflownBy(ref: nat)
      reads this`ir
    {
      ref in ir && ir[ref].s == 0 && Full(ir, ir[ref].wide)
    }

    /** ra_spill */
    method Spill(ref: nat, ghost pend: map<nat, nat>) returns (ok: bool)
      requires Valid(pend) && ref in ir && ref < live && !CanRemat(ref)
      modifies this`ir, this`evenspill, this`oddspill
      ensures !ok <==> old(ir[ref].s == 0 && evenspill + 2 > 256 && (ir[ref].wide || oddspill == 0))
      ensures !ok ==> Overflown()
      ensures ok ==> Valid(pend) && ref in ir && ir[ref].s != 0 && Slotted(old(State()), State(), ref)
    {
      ok := true;
      if ir[ref].s == 0 {
        ghost var s := State();
        var slot;
        if ir[ref].wide {
          slot := evenspill;
          evenspill := evenspill + 2;
        } else if oddspill != 0 {
          slot := oddspill;
          oddspill := 0;
        } else {
          slot := evenspill;
          oddspill := slot + 1;
          evenspill := evenspill + 2;
        }
        if evenspill > 256 {
          NoSlotLeft(s, ir[ref].wide);
          assert OverflownBy(ref);
          return false;
        }
        SlotGiven(s, ref, slot, evenspill, oddspill);
        SlotSound(code, s, ref, slot, evenspill, oddspill, pend, goal, sems);
        SlotKept(s, ref, slot, evenspill, oddspill);
        SavedKept(s, WithSlot(s, ref, slot, evenspill, oddspill), saved);
        ir := ir[ref := ir[ref].(s := slot)];
      }
    }

    /** ra_restore */
    method Restore(ref: nat, ghost pend: map<nat, nat>) returns (ok: bool, r: nat)
      requires Valid(pend) && ref in ir && ref < live && HasReg(ir[ref].r) && ir[ref].r !in pend
      modifies this`ir, this`freeset, this`modset, this`evenspill, this`oddspill, this`code
      ensures !ok ==> Overflown()
      ensures modset >= old(modset)
      ensures IsReg(r) && r == old(ir[ref].r)
      ensures ok ==> Valid(pend) && Freed(old(State()), State(), ref, r)
      ensures ok && !CanRemat(ref) ==> ir[ref].s != 0
      ensures modset <= old(modset) + {r}
    {
      assert RefEntry(State(), ref);
      if CanRemat(ref) {
        ok := true;
        r := Rematk(ref, pend);
      } else {
        ghost var s0 := State();
        r := ir[ref].r;
        ok := Spill(ref, pend);
        if ok {
          ReleasedFrees(s0, State(), ref, RID_NONE + r);
          Reload(ref, r, pend);
        }
      }
    }

    /** The register of a spilled reference becomes free; a weak one need not be loaded. */
    method Reload(ref: nat, r: nat, ghost pend: map<nat, nat>)
      requires Valid(pend) && ref in ir && ref < live && IsReg(r) && ir[ref].r == r && r !in pend && ir[ref].s != 0
      modifies this`ir, this`freeset, this`modset, this`code
      ensures modset >= old(modset) && Valid(pend) && State() == Released(old(State()), ref, RID_NONE + r)
      ensures modset <= old(modset) + {r}
    {
      var hint, load := RID_NONE + r, SpLoad(r, SlotOf(ir[ref]));
      ReloadOk(State(), code, modset, saved, pend, goal, sems, ref, hint);
      SetReleased(ref, hint);
      if r !in weakset {
        modset := modset + {r};
        code := [load] + code;
      }
    }

    /** The lowest cost among the allowed registers of a file, none of which is free. */
    method MinCost(allow: set<nat>, lo: nat, hi: nat) returns (c: nat)
      requires Consistent(State()) && hi <= RID_MAX && allow !! freeset
      requires exists r :: lo <= r < hi && r in allow && IsReg(r)
      ensures exists r :: lo <= r < hi && r in allow && IsReg(r) && cost[r] == c
      ensures forall r :: lo <= r < hi && r in allow && IsReg(r) ==> c <= cost[r]
    {
      c := 0xffff_ffff;
      var r := lo;
      while r < hi
        invariant r >= lo
        invariant forall q :: lo <= q < r && q < hi && q in allow && IsReg(q) ==> c <= cost[q]
        invariant c == 0xffff_ffff || exists q :: lo <= q < r && q < hi && q in allow && IsReg(q) && cost[q] == c
      {
        if IsReg(r) && r in allow {
          CostBelow(r);
          if cost[r] < c {
            c := cost[r];
          }
        }
        r := r + 1;
      }
      ghost var q :| lo <= q < hi && q in allow && IsReg(q);
      CostBelow(q);
    }

    lemma CostBelow(r: nat)
      requires Consistent(State()) && IsReg(r) && r !in freeset
      ensures cost[r] < 0xffff_ffff
    {
      assert RegEntry(State(), r);
      assert RefOk(State(), Owner(cost[r]));
    }

    /** The owner of a register that is not free. */
    lemma OwnerOf(r: nat)
      requires Consistent(State()) && IsReg(r) && r !in freeset
      ensures var ref := Owner(cost[r]); ref in ir && ref < live && HasReg(ir[ref].r) && ir[ref].r == r && (ir[ref].fp <==> r >= RID_MAX_GPR)
    {
      assert RegEntry(State(), r);
      assert RefEntry(State(), Owner(cost[r]));
    }

    /** ra_evict: the register of the lowest cost, unless there is a weak one. */
    method Evict(allow: set<nat>, ghost pend: map<nat, nat>) returns (ok: bool, r: nat)
      requires Valid(pend) && AreRegs(allow) && allow != {} && allow !! freeset && allow !! pend.Keys
      modifies this`ir, this`freeset, this`modset, this`evenspill, this`oddspill, this`code
      ensures !ok ==> Overflown()
      ensures modset >= old(modset)
      ensures r in allow && IsReg(r)
      ensures ok ==> Valid(pend) && Freed(old(State()), State(), Owner(cost[r]), r)
      ensures r in weakset || CheapestOf(allow, r)
    {
      var gpr := forall x :: x in allow ==> x < RID_MAX_GPR;
      var c;
      ghost var some :| some in allow;
      if gpr {
        c := MinCost(allow, 0, RID_MAX_GPR);
      } else {
        c := MinCost(allow, RID_MAX_GPR, RID_MAX);
      }
      ghost var cheap :| cheap in allow && IsReg(cheap) && cost[cheap] == c && CheapestOf(allow, cheap);
      OwnerOf(cheap);
      var ref := Owner(c);
      if ref >= REF_BASE && weakset * allow != {} && ir[ref].r !in weakset {
        var weak := PickBot(weakset * allow);
        OwnerOf(weak);
        ref := Owner(cost[weak]);
      }
      ok, r := Restore(ref, pend);
    }

    /** None of the allowed registers in the file of r is cheaper. */
    predicate CheapestOf(allow: set<nat>, r: nat)
      reads this`cost
    {
      r < |cost| && forall q {:trigger q in allow} ::
          q in allow && q < |cost| && (q < RID_MAX_GPR <==> r < RID_MAX_GPR) ==> cost[r] <= cost[q]
    }

    /** ra_pick */
    method Pick(allow: set<nat>, ghost pend: map<nat, nat>) returns (ok: bool, r: nat)
      requires Valid(pend) && AreRegs(allow) && allow != {} && allow - freeset !! pend.Keys
      modifies this`ir, this`freeset, this`modset, this`evenspill, this`oddspill, this`code
      ensures !ok ==> Overflown()
      ensures modset >= old(modset)
      ensures r in allow && IsReg(r)
      ensures ok ==>
                Valid(pend) && r in freeset && freeset == old(freeset) + {r} && Kept(old(State()), State())
                && Stays(old(State()), State(), allow)
      ensures ok && old(freeset) * allow != {} ==> State() == old(State()) && code == old(code)
    {
      ok := true;
      var pick := freeset * allow;
      ghost var s := State();
      if pick == {} {
        NoneFree(allow, freeset);
        ok, r := Evict(allow, pend);
        if ok { StaysMore(s, State(), {r}, allow); }
      } else {
        NothingChanged(s, allow);
        r := PickTop(pick);
      }
    }

    /** ra_scratch */
    method Scratch(allow: set<nat>, ghost pend: map<nat, nat>) returns (ok: bool, r: nat)
      requires Valid(pend) && AreRegs(allow) && allow != {} && allow - freeset !! pend.Keys
      modifies this`ir, this`freeset, this`modset, this`evenspill, this`oddspill, this`code
      ensures !ok ==> Overflown()
      ensures modset >= old(modset)
      ensures r in allow && IsReg(r)
      ensures ok ==> Valid(pend) && r in freeset && freeset == old(freeset) + {r} && r in modset
      ensures ok ==> Kept(old(State()), State()) && Stays(old(State()), State(), allow)
      ensures ok && old(freeset) * allow != {} ==> State() == old(State()) && code == old(code)
    {
      ok, r := Pick(allow, pend);
      if ok { EffectsSame(code, modset, {r}, saved); }
      modset := modset + {r};
    }

    /** ra_allocref */
    method AllocRef(ref: nat, allow: set<nat>, ghost pend: map<nat, nat>) returns (ok: bool, r: nat)
      requires Sane(pend) && (Valid(pend) || allow <= freeset) && ref in ir && ref < live && ref !in gone
                 && !HasReg(ir[ref].r)
      requires allow != {} && allow <= File(ir[ref].fp) && allow - freeset !! pend.Keys
      modifies this`ir, this`freeset, this`modset, this`weakset, this`cost, this`evenspill, this`oddspill, this`code
      ensures !ok ==> Overflown()
      ensures modset >= old(modset)
      ensures r in allow && IsReg(r)
      ensures ok ==>
                Sane(pend) && ref in ir && ir[ref].r == r && r !in freeset && r !in weakset && Owner(cost[r]) == ref
      ensures ok ==> Took(old(State()), State(), ref, allow) && weakset <= old(weakset) && freeset == old(freeset) - {r}
      ensures ok ==> Sound(code, State().(weak := weakset + {r}), pend, goal, sems)
      ensures ok && old(Tracked()) ==> Tracked()
      ensures ok && old(allow <= freeset) ==>
                modset == old(modset) && State() == Given(old(State()), ref, r, RegCost(ref, old(ir[ref].phi)))
      ensures ok && old(allow <= freeset) ==> code == old(code)
    {
      ghost var s0 := State();
      ok, r := PickFor(ref, allow, pend);
      if !ok {
        return;
      }
      ghost var s := State();
      assert KeptRef(s0, s, ref) && NoneNew(s0, s, ref);
      GiveOk(s, code, modset, saved, pend, goal, sems, ref, r);
      GivenTook(s0, s, ref, r, RegCost(ref, ir[ref].phi), allow);
      SetGiven(ref, r);
    }

    /** The assignments at the end of ra_allocref. */
    method SetGiven(ref: nat, r: nat)
      requires ref in ir && |cost| == RID_MAX && r < RID_MAX
      modifies this`ir, this`freeset, this`weakset, this`cost
      ensures State() == Given(old(State()), ref, r, RegCost(ref, old(ir[ref].phi)))
    {
      cost := cost[r := RegCost(ref, ir[ref].phi)];
      ir := ir[ref := ir[ref].(r := r)];
      freeset := freeset - {r};
      weakset := weakset - {r};
    }

    /** The first half of ra_allocref: the register, now free. */
    method PickFor(ref: nat, allow: set<nat>, ghost pend: map<nat, nat>) returns (ok: bool, r: nat)
      requires Sane(pend) && (Valid(pend) || allow <= freeset) && ref in ir && ref < live && ref !in gone
                 && !HasReg(ir[ref].r)
      requires allow != {} && allow <= File(ir[ref].fp) && allow - freeset !! pend.Keys
      modifies this`ir, this`freeset, this`modset, this`evenspill, this`oddspill, this`code
      ensures !ok ==> Overflown()
      ensures modset >= old(modset)
      ensures r in allow && IsReg(r)
      ensures ok ==> Sane(pend) && r in freeset && freeset == old(freeset) + {r}
      ensures ok ==> Kept(old(State()), State()) && Stays(old(State()), State(), allow)
      ensures ok && old(Tracked()) ==> Tracked()
      ensures ok && old(allow <= freeset) ==> modset == old(modset) && State() == old(State())
      ensures ok && old(allow <= freeset) ==> code == old(code)
    {
      ok := true;
      var pick := freeset * allow;
      ghost var s := State();
      NothingChanged(s, allow);
      if pick != {} {
        if HasHint(ir[ref].r) {
          r := GetHint(ir[ref].r);
          if r in pick {
            return;
          }
          if r in allow {
            OwnerOf(r);
            if CanRemat(Owner(cost[r])) {
              r := Rematk(Owner(cost[r]), pend);
              StaysMore(s, State(), {r}, allow);
              return;
            }
          }
        }
        if ref < loopref && !ir[ref].phi {
          if pick - modset != {} {
            pick := pick - modset;
          }
          r := PickBot(pick);
        } else {
          if pick - SCRATCH != {} {
            pick := pick - SCRATCH;
          }
          r := PickTop(pick);
        }
      } else {
        NoneFree(allow, freeset);
        ok, r := Evict(allow, pend);
        if ok { StaysMore(s, State(), {r}, allow); }
      }
    }

    /** ra_alloc1 */
    method Alloc1(ref: nat, allow: set<nat>, ghost pend: map<nat, nat>) returns (ok: bool, r: nat)
      requires Sane(pend) && ref in ir && ref < live && ref !in gone
                 && (Valid(pend) || allow <= freeset || HasReg(ir[ref].r))
      requires allow != {} && allow <= File(ir[ref].fp) && allow - freeset !! pend.Keys
      modifies this`ir, this`freeset, this`modset, this`weakset, this`cost, this`evenspill, this`oddspill, this`code
      ensures !ok ==> Overflown()
      ensures ok && old(HasReg(ir[ref].r)) ==> r == old(ir[ref].r)
      ensures ok ==> modset >= old(modset)
      ensures ok ==>
                IsReg(r) && Sane(pend) && ref in ir && ir[ref].r == r && r !in freeset && r !in weakset
                && Owner(cost[r]) == ref
      ensures ok ==> Took(old(State()), State(), ref, allow) && weakset <= old(weakset) && freeset == old(freeset) - {r}
      ensures ok && old(Tracked()) ==> Tracked()
      ensures ok && (old(HasReg(ir[ref].r)) || old(allow <= freeset)) ==> modset == old(modset)
      ensures ok && !old(HasReg(ir[ref].r)) ==> r in allow
      ensures ok && (old(HasReg(ir[ref].r)) || old(allow <= freeset)) ==> KeptSlots(old(State()), State())
    {
      ok, r := true, ir[ref].r;
      ghost var s := State();
      if !HasReg(r) {
        ok, r := AllocRef(ref, allow, pend);
        assert ok ==> weakset - {r} == weakset;
      } else {
        assert RefEntry(s, ref);
        NoWeak(code, s, r, ref, allow, pend, goal, sems);
        if Tracked() { SavedKept(s, s.(weak := s.weak - {r}), saved); }
      }
      weakset := weakset - {r};
    }

    /** ra_rename */
    method Rename(down: nat, up: nat, ghost pend: map<nat, nat>)
      requires Sane(pend) && down !in pend && up !in pend && IsReg(down) && IsReg(up) && down !in freeset
                 && up in freeset && (down < RID_MAX_GPR <==> up < RID_MAX_GPR)
      modifies this`ir, this`freeset, this`modset, this`weakset, this`cost, this`code
      ensures Sane(pend) && Owner(old(cost[down])) in old(ir) && State() == Renamed(old(State()), down, up)
      ensures modset == old(modset) + {down}
      ensures old(Tracked()) ==> Tracked()
    {
      RenameOk(State(), code, modset, saved, pend, goal, sems, down, up);
      SetRenamed(down, up);
    }

    /** The assignments of ra_rename. */
    method SetRenamed(down: nat, up: nat)
      requires |cost| == RID_MAX && down < RID_MAX && up < RID_MAX && Owner(cost[down]) in ir
      modifies this`ir, this`freeset, this`modset, this`weakset, this`cost, this`code
      ensures State() == Renamed(old(State()), down, up) && modset == old(modset) + {down}
                && code == [Mov(down, up)] + old(code)
    {
      cost := cost[up := cost[down]];
      var ref := Owner(cost[up]);
      ir := ir[ref := ir[ref].(r := up)];
      cost := cost[down := 0];
      freeset := freeset + {down};
      modset := modset + {down};
      freeset := freeset - {up};
      weakset := weakset - {up};
      code := [Mov(down, up)] + code;
    }

    /** The register for a result; it is free unless the reference has it. */
    method DestReg(ref: nat, allow: set<nat>) returns (ok: bool, dest: nat)
      requires Valid(map[]) && ref in ir && ref < live && allow != {} && allow <= File(ir[ref].fp)
      modifies this`ir, this`freeset, this`modset, this`evenspill, this`oddspill, this`code
      ensures !ok ==> Overflown()
      ensures ok ==> Valid(map[]) && IsReg(dest) && ref in ir && dest in modset && Kept(old(State()), State())
      ensures ok ==> if HasReg(ir[ref].r) then ir[ref].r == dest else dest in freeset
    {
      ghost var s0 := State();
      ok, dest := true, ir[ref].r;
      NothingChanged(s0, allow);
      assert RefEntry(s0, ref);
      if HasReg(dest) {
        EffectsSame(code, modset, {dest}, saved);
        modset := modset + {dest};
      } else if HasHint(dest) && GetHint(dest) in freeset * allow {
        dest := GetHint(dest);
        FileRegs(ir[ref].fp, dest);
        EffectsSame(code, modset, {dest}, saved);
        modset := modset + {dest};
      } else {
        ok, dest := Scratch(allow, map[]);
        if ok { assert NoneNew(s0, State(), ref); }
      }
    }

    /** ra_dest: the register in which an instruction leaves its result; it is free from here on. */
    method Dest(ref: nat, allow: set<nat>) returns (ok: bool, dest: nat)
      requires Valid(map[]) && ref in ir && live == ref + 1 && allow != {} && allow <= File(ir[ref].fp)
      modifies this`ir, this`freeset, this`modset, this`evenspill, this`oddspill, this`code, this`saved, this`live
      ensures !ok ==> Overflown()
      ensures ok ==> Valid(map[dest := ref]) && IsReg(dest) && dest in freeset && live == ref && dest in modset
      ensures ok ==> KeptRefs(old(State()), State())
      ensures ok ==> saved.Keys <= old(saved.Keys) + {ref}
    {
      ghost var s0 := State();
      ok, dest := DestReg(ref, allow);
      if !ok {
        return;
      }
      DefineOk(State(), code, modset, saved, goal, sems, ref, dest);
      KeptThrough(s0, State(), Defined(State(), ref, dest));
      SetDefined(ref, dest);
      if ir[ref].s != 0 {
        Save(ref, dest);
      }
    }

    method SetDefined(ref: nat, dest: nat)
      requires ref in ir
      modifies this`ir, this`freeset, this`live
      ensures State() == Defined(old(State()), ref, dest)
    {
      freeset := freeset + {dest};
      ir := ir[ref := ir[ref].(r := dest)];
      live := ref;
    }

    /** ra_save */
    method Save(ref: nat, r: nat)
      requires ref in ir && ir[ref].s != 0
      modifies this`code, this`saved
      ensures code == [SpStore(r, SlotOf(ir[ref]))] + old(code) && saved == old(saved)[ref := SlotOf(ir[ref])]
    {
      code := [SpStore(r, SlotOf(ir[ref]))] + code;
      saved := saved[ref := SlotOf(ir[ref])];
    }

    /** Registers for the operands of an instruction whose result goes to dest. */
    method Operands(op1: nat, op2: nat, ghost dest: nat, ghost ref: nat) returns (ok: bool, left: nat, right: nat)
      requires Valid(map[dest := ref]) && dest in freeset && op1 in ir && op1 < live && op2 in ir && op2 < live
                 && dest in modset
      modifies this`ir, this`freeset, this`modset, this`weakset, this`cost, this`evenspill, this`oddspill, this`code
      ensures !ok ==> Overflown()
      ensures ok ==> Valid(map[dest := ref]) && Kept(old(State()), State()) && dest in modset
      ensures ok ==>
                left in Demanded(State()) && Demanded(State())[left] == op1 && right in Demanded(State())
                && Demanded(State())[right] == op2
    {
      ghost var s1, pend := State(), map[dest := ref];
      right := 0;
      FileLeft(ir[op1].fp, 0);
      ok, left := Alloc1(op1, File(ir[op1].fp), pend);
      if !ok {
        return;
      }
      ghost var s2 := State();
      assert KeptRef(s1, s2, op2);
      FileLeft(ir[op2].fp, left);
      ok, right := Alloc1(op2, File(ir[op2].fp) - {left}, pend);
      if !ok {
        return;
      }
      OperandsThere(s2, State(), op1, op2, left, right, File(s2.ir[op2].fp) - {left});
      KeptTwice(s1, s2, State());
    }

    /** A two-operand instruction: its result, its operands, and the instruction in front of it all. */
    method Instruction(ref: nat, allow: set<nat>) returns (ok: bool)
      requires Valid(map[]) && ref in ir && live == ref + 1 && allow != {} && allow <= File(ir[ref].fp)
      requires InsOk(ir, ref, sems)
      modifies this`ir, this`freeset, this`modset, this`weakset, this`cost, this`evenspill, this`oddspill, this`code,
          this`saved, this`live
      ensures !ok ==> Overflown()
      ensures ok ==> Valid(map[]) && live == ref && KeptRefs(old(State()), State())
      ensures ok ==> saved.Keys <= old(saved.Keys) + {ref}
    {
      ghost var s0 := State();
      var dest, left, right;
      ok, dest := Dest(ref, allow);
      if !ok {
        return;
      }
      ghost var s1 := State();
      assert KeptRef(s0, s1, ref);
      ok, left, right := Operands(ir[ref].op1, ir[ref].op2, dest, ref);
      if !ok {
        return;
      }
      KeptThrough(s0, s1, State());
      Computed(s0, ref, dest, left, right);
      code := [Compute(dest, ref, left, right)] + code;
    }

    /** The instruction itself writes the register that was set aside for it. */
    lemma Computed(s0: St, ref: nat, dest: nat, left: nat, right: nat)
      requires Valid(map[dest := ref]) && InsOk(s0.ir, ref, sems) && ref in s0.ir && dest in modset
      requires left in Demanded(State()) && Demanded(State())[left] == s0.ir[ref].op1
      requires right in Demanded(State()) && Demanded(State())[right] == s0.ir[ref].op2
      ensures Sound([Compute(dest, ref, left, right)] + code, State(), map[], goal, sems)
      ensures Effects([Compute(dest, ref, left, right)] + code, modset, saved)
    {
      ComputedSound(code, State(), ref, dest, left, right, goal, sems);
      EffectsMore(Compute(dest, ref, left, right), code, modset, {}, saved);
      assert modset + {} == modset;
    }

    /** Restores the owners of some registers, one after the other. */
    method RestoreAll(regs: set<nat>) returns (ok: bool)
      requires Valid(map[]) && AreRegs(regs) && regs !! freeset
      modifies this`ir, this`freeset, this`modset, this`evenspill, this`oddspill, this`code
      ensures !ok ==> Overflown()
      ensures modset >= old(modset)
      ensures ok ==>
                Valid(map[]) && freeset == old(freeset) + regs && Kept(old(State()), State())
                && Stays(old(State()), State(), regs)
      ensures modset <= old(modset) + regs
    {
      ok := true;
      var work := regs;
      ghost var s0 := State();
      NothingChanged(s0, regs);
      while work != {}
        invariant work <= regs && Valid(map[]) && work !! freeset && freeset == old(freeset) + (regs - work)
        invariant Kept(s0, State()) && Stays(s0, State(), regs) && old(modset) <= modset <= old(modset) + regs
        decreases work
      {
        ghost var s := State();
        ghost var x :| x in work;
        var r := PickBot(work);
        OwnerOf(r);
        ok, r := Restore(Owner(cost[r]), map[]);
        if !ok {
          return;
        }
        StaysMore(s, State(), {r}, regs);
        StaysTwice(s0, s, State(), regs);
        KeptTwice(s0, s, State());
        work := work - {r};
      }
    }

    /** Rematerializes what is in a register, if it is a constant. */
    method RematIf(r: nat)
      requires Valid(map[]) && IsReg(r) && r !in freeset
      modifies this`ir, this`freeset, this`modset, this`code
      ensures Valid(map[]) && Kept(old(State()), State()) && Stays(old(State()), State(), {r}) && cost == old(cost)
      ensures freeset == old(freeset) + Constants({r}, cost)
    {
      OwnerOf(r);
      ghost var s := State();
      NothingChanged(s, {r});
      var ref := Owner(cost[r]);
      if CanRemat(ref) && ref < REF_BASE {
        var q := Rematk(ref, map[]);
      }
    }

    /** Rematerializes the constants among some registers. */
    method RematAll(regs: set<nat>)
      requires Valid(map[]) && AreRegs(regs) && regs !! freeset
      modifies this`ir, this`freeset, this`modset, this`code
      ensures Valid(map[]) && cost == old(cost) && Kept(old(State()), State()) && Stays(old(State()), State(), regs)
      ensures freeset == old(freeset) + Constants(regs, cost)
    {
      var work := regs;
      ghost var s0 := State();
      NothingChanged(s0, regs);
      while work != {}
        invariant work <= regs && Valid(map[]) && work !! freeset
        invariant freeset == old(freeset) + Constants(regs - work, cost)
        invariant Kept(s0, State()) && Stays(s0, State(), regs)
        decreases work
      {
        ghost var s := State();
        ghost var x :| x in work;
        var r := PickBot(work);
        RematIf(r);
        StaysMore(s, State(), {r}, regs);
        StaysTwice(s0, s, State(), regs);
        KeptTwice(s0, s, State());
        work := work - {r};
      }
      assert regs - work == regs;
    }

    /** Those among some registers that hold constants. */
    static ghost function Constants(regs: set<nat>, cost: seq<nat>): set<nat> {
      set r | r in regs && r < |cost| && Owner(cost[r]) < REF_BASE
    }

    /** ra_evictk: afterwards no constant has a register. */
    method EvictK()
      requires Valid(map[])
      modifies this`ir, this`freeset, this`modset, this`code
      ensures Valid(map[]) && cost == old(cost) && Kept(old(State()), State())
                && Stays(old(State()), State(), FPR + GPR)
      ensures forall r: nat :: IsReg(r) && r !in freeset ==> Owner(cost[r]) >= REF_BASE
    {
      ghost var s0 := State();
      RematAll(FPR - freeset);
      ghost var s1 := State();
      RematAll(GPR - freeset);
      forall r: nat | IsReg(r) && r !in freeset ensures Owner(cost[r]) >= REF_BASE {
        assert r in FPR - s0.free || r in GPR - s1.free;
        assert r !in Constants(FPR - s0.free, cost) && r !in Constants(GPR - s1.free, cost);
      }
      StaysMore(s0, s1, FPR - s0.free, FPR + GPR);
      StaysMore(s1, State(), GPR - s1.free, FPR + GPR);
      StaysTwice(s0, s1, State(), FPR + GPR);
      KeptTwice(s0, s1, State());
    }

    /** asm_snap_canremat */
    predicate SnapCanRemat()
      requires |cost| == RID_MAX
      reads this
    {
      exists r {:trigger r in FPR} :: r in FPR && Owner(cost[r]) < REF_BASE
    }

    /** asm_snap_alloc1: a reference that escapes to a snapshot gets a weak register, or a slot. */
    method SnapAlloc1(ref: nat) returns (ok: bool)
      requires Valid(map[]) && ref in ir && ref < live && ref != REF_BASE
      modifies this`ir, this`freeset, this`modset, this`weakset, this`cost, this`evenspill, this`oddspill, this`code
      ensures !ok ==> Overflown()
      ensures ok ==> Valid(map[]) && Kept(old(State()), State())
      ensures ok && ref >= REF_BASE ==> ref in ir && (HasReg(ir[ref].r) || ir[ref].s != 0)
    {
      ok := true;
      ghost var s := State();
      NothingChanged(s, {});
      if ref >= REF_BASE && !(HasReg(ir[ref].r) || ir[ref].s != 0) {
        var allow := File(ir[ref].fp);
        FileLeft(ir[ref].fp, 0);
        if freeset * allow != {} || (ir[ref].fp && SnapCanRemat()) {
          var r;
          ok, r := AllocRef(ref, allow, map[]);
          if ok && !ir[ref].phi {
            ghost var s1 := State();
            MadeWeak(s1, r);
            KeptWeak(s, s1, r);
            SavedKept(State(), State().(weak := weakset + {r}), saved);
            weakset := weakset + {r};
          }
        } else {
          ok := Spill(ref, map[]);
          if ok { SlotKept(s, ref, ir[ref].s, evenspill, oddspill); }
        }
      }
    }

    /** asm_snap_alloc: all references of a snapshot. */
    method SnapAlloc(refs: seq<nat>) returns (ok: bool)
      requires Valid(map[]) && forall i :: 0 <= i < |refs| ==> refs[i] in ir && refs[i] < live && refs[i] != REF_BASE
      modifies this`ir, this`freeset, this`modset, this`weakset, this`cost, this`evenspill, this`oddspill, this`code
      ensures !ok ==> Overflown()
      ensures ok ==> Valid(map[]) && Kept(old(State()), State())
    {
      ok := true;
      ghost var s0 := State();
      NothingChanged(s0, {});
      var n := 0;
      while n < |refs|
        invariant n <= |refs| && Valid(map[]) && Kept(s0, State())
        invariant forall i :: 0 <= i < |refs| ==> refs[i] in ir && refs[i] < live && refs[i] != REF_BASE
      {
        if refs[n] >= REF_BASE {
          ghost var s := State();
          ok := SnapAlloc1(refs[n]);
          if !ok {
            return;
          }
          KeptTwice(s0, s, State());
        }
        n := n + 1;
      }
    }

    /** asm_stack_restore: a result is stored to the Lua stack from a register. */
    method StackRestore(ref: nat, idx: nat) returns (ok: bool)
      requires Valid(map[]) && ref in ir && ref < live && idx in outs && outs[idx] == ref
      modifies this`ir, this`freeset, this`modset, this`weakset, this`cost, this`evenspill, this`oddspill, this`code,
          this`outs
      ensures !ok ==> Overflown()
      ensures ok ==> Valid(map[]) && outs == old(outs) - {idx} && KeptRefs(old(State()).(outs := outs), State())
    {
      var r;
      ghost var s0 := State();
      FileLeft(ir[ref].fp, 0);
      ok, r := Alloc1(ref, File(ir[ref].fp), map[]);
      if ok {
        StackOk(State(), code, modset, saved, goal, sems, r, idx);
        OutsKept(s0, State(), outs - {idx});
        code := [StackStore(r, idx)] + code;
        outs := outs - {idx};
      }
    }

    /** References that no instruction needs are skipped. */
    ghost method Skip(ref: nat)
      requires Valid(map[]) && live == ref + 1 && (ref in ir ==> !HasReg(ir[ref].r) && ir[ref].s == 0)
      modifies this`live
      ensures Valid(map[]) && live == ref && KeptRefs(old(State()), State())
    {
      ghost var s := State();
      Unused(s, ref);
      forall x: nat ensures KeptRef(s, s.(live := ref), x) { }
      SavedKept(s, s.(live := ref), saved);
      live := ref;
    }

    /** The main loop: instructions are assembled from the last one down to stop, unused ones are left out. */
    method Body(stop: nat, last: nat, snaps: map<nat, seq<nat>>) returns (ok: bool)
      requires Valid(map[]) && live == last + 1 && REF_BASE <= stop <= last && TraceOk(ir, stop, sems)
      requires forall g {:trigger g in snaps} :: g in snaps ==> SnapOk(ir, snaps[g], g)
      modifies this`ir, this`freeset, this`modset, this`weakset, this`cost, this`evenspill, this`oddspill, this`code,
          this`saved, this`live
      ensures !ok ==> Overflown()
      ensures ok ==> Valid(map[]) && live == stop + 1 && KeptRefs(old(State()), State())
      ensures ok ==> forall x :: x in saved ==> x in old(saved) || x > stop
    {
      ok := true;
      var curins := last;
      ghost var s0 := State();
      NothingChanged(s0, {});
      while curins > stop
        invariant stop <= curins && ok && Valid(map[]) && live == curins + 1 && KeptRefs(s0, State())
        invariant forall x :: x in saved ==> x in old(saved) || x > stop
      {
        ghost var s := State();
        if curins in ir && (HasReg(ir[curins].r) || ir[curins].s != 0) {
          if curins in snaps {
            SnapKept(s0, s, snaps[curins], curins);
            ok := SnapAlloc(snaps[curins]);
            if !ok {
              return;
            }
            KeptThrough(s0, s, State());
          }
          ghost var s1 := State();
          InsKept(s0, s1, stop, curins, sems);
          FileLeft(ir[curins].fp, 0);
          ok := Instruction(curins, File(ir[curins].fp));
          if !ok {
            return;
          }
          KeptThrough(s0, s1, State());
        } else {
          Skip(curins);
          KeptThrough(s0, s, State());
        }
        curins := curins - 1;
      }
    }
  }

  const SCRATCH: set<nat> := set r: nat | r < RID_MAX && (r < 3 || 6 <= r < 12 || r >= 16)

  /** A weak register becomes an ordinary one. */
  lemma NoWeak(code: seq<Op>, s: St, r: nat, ref: nat, drop: set<nat>, pend: map<nat, nat>, goal: Demand,
               sems: iset<Sem>)
    requires Consistent(s) && Sound(code, s, pend, goal, sems)
    ensures var s' := s.(weak := s.weak - {r});
            Consistent(s') && Sound(code, s', pend, goal, sems) && Took(s, s', ref, drop)
  {
    var s' := s.(weak := s.weak - {r});
    forall q: nat ensures RegEntry(s', q) && RefEntry(s', q) { assert RegEntry(s, q) && RefEntry(s, q); }
    SameSlots(s, s');
    AllStronger(code, Want(s, pend), Want(s', pend), goal, sems);
    forall x: nat ensures KeptRef(s, s', x) && TookRef(s, s', ref, drop, x) { }
  }

  lemma DefinedKept(s0: St, s: St, ref: nat, r: nat)
    requires Kept(s0, s) && ref in s.ir
    ensures KeptRefs(s0, Defined(s, ref, r))
  {
    forall x: nat ensures KeptRef(s0, Defined(s, ref, r), x) { assert KeptRef(s0, s, x); }
  }

  lemma KeptThrough(s0: St, s1: St, s2: St)
    requires KeptRefs(s0, s1) && KeptRefs(s1, s2)
    ensures KeptRefs(s0, s2)
  {
    forall x: nat ensures KeptRef(s0, s2, x) { assert KeptRef(s0, s1, x) && KeptRef(s1, s2, x); }
  }

  /** Both operands are in registers once the second one is. */
  lemma OperandsThere(s2: St, s3: St, op1: nat, op2: nat, left: nat, right: nat, drop: set<nat>)
    requires Consistent(s2) && Consistent(s3) && Plain(s2) && Plain(s3) && Took(s2, s3, op2, drop) && left !in drop
               && s3.weak <= s2.weak
    requires op1 in s2.ir && op1 < s2.live && s2.ir[op1].r == left && IsReg(left) && left !in s2.weak
    requires op2 in s3.ir && op2 < s3.live && s3.ir[op2].r == right && IsReg(right) && right !in s3.weak
               && (op1 == op2 ==> left == right)
    ensures left in Demanded(s3) && Demanded(s3)[left] == op1 && right in Demanded(s3) && Demanded(s3)[right] == op2
  {
    assert TookRef(s2, s3, op2, drop, op1);
    assert RefEntry(s3, op1) && RefEntry(s3, op2);
  }

  /** An instruction's operands come before it, and its value is made of theirs. */
  ghost predicate InsOk(ir: map<nat, Ins>, ref: nat, sems: iset<Sem>) {
    ref in ir ==>
      var op1, op2 := ir[ref].op1, ir[ref].op2;
      && op1 in ir && op1 < ref && op2 in ir && op2 < ref
      && forall sem {:trigger sem.val(ref)} :: sem in sems ==> sem.val(ref) == sem.fn(ref, sem.val(op1), sem.val(op2))
  }

  lemma MadeWeak(s: St, r: nat)
    requires Consistent(s)
    ensures Consistent(s.(weak := s.weak + {r}))
    ensures KeptRefs(s, s.(weak := s.weak + {r}))
  {
    var s' := s.(weak := s.weak + {r});
    forall q: nat ensures RegEntry(s', q) && RefEntry(s', q) && KeptRef(s, s', q) {
      assert RegEntry(s, q) && RefEntry(s, q);
    }
    SameSlots(s, s');
  }

  lemma KeptWeak(s: St, s': St, r: nat)
    requires Kept(s, s')
    ensures Kept(s, s'.(weak := s'.weak + {r}))
  {
    forall x: nat ensures KeptRef(s, s'.(weak := s'.weak + {r}), x) { assert KeptRef(s, s', x); }
  }

  lemma OutsKept(s: St, s': St, outs: map<nat, nat>)
    requires KeptRefs(s, s')
    ensures KeptRefs(s.(outs := outs), s'.(outs := outs))
  {
    forall x: nat ensures KeptRef(s.(outs := outs), s'.(outs := outs), x) { assert KeptRef(s, s', x); }
  }

  /** All instructions above stop are fit to be assembled. */
  ghost predicate TraceOk(ir: map<nat, Ins>, stop: nat, sems: iset<Sem>) {
    forall ref: nat {:trigger InsOk(ir, ref, sems)} :: ref > stop ==> InsOk(ir, ref, sems)
  }

  /** Snapshots name earlier references. */
  ghost predicate SnapOk(ir: map<nat, Ins>, refs: seq<nat>, g: nat) {
    forall i :: 0 <= i < |refs| ==> refs[i] in ir && refs[i] < g && refs[i] != REF_BASE
  }

  lemma SnapKept(s: St, s': St, refs: seq<nat>, g: nat)
    requires SnapOk(s.ir, refs, g) && KeptRefs(s, s')
    ensures SnapOk(s'.ir, refs, g)
  {
  }

  lemma InsKept(s: St, s': St, stop: nat, ref: nat, sems: iset<Sem>)
    requires TraceOk(s.ir, stop, sems) && KeptRefs(s, s') && ref > stop
    ensures InsOk(s'.ir, ref, sems)
  {
    assert InsOk(s.ir, ref, sems) && KeptRef(s, s', ref);
  }

  lemma TraceKept(s: St, s': St, stop: nat, sems: iset<Sem>)
    requires TraceOk(s.ir, stop, sems) && KeptRefs(s.(outs := s'.outs), s')
    ensures TraceOk(s'.ir, stop, sems)
    ensures forall refs, g {:trigger SnapOk(s.ir, refs, g)} :: SnapOk(s.ir, refs, g) ==> SnapOk(s'.ir, refs, g)
  {
    forall ref: nat | ref > stop ensures InsOk(s'.ir, ref, sems) {
      assert InsOk(s.ir, ref, sems) && KeptRef(s.(outs := s'.outs), s', ref);
    }
  }
}
