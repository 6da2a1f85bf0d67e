/**
 * The state of the register allocator (lj_asm.c) as a value: which registers are
 * free, which reference the cost of each of the others names, and the register
 * and spill slot of each reference.
 */
module RegState {
  import opened RaMachine

  const REF_BASE: nat := 0x8000
  const REF_DROP: nat := 0xffff
  const RID_NONE: nat := 0x80
  const RID_SUNK: nat := 0xfd
  const RID_INIT: nat := 0xff
  const SPS_FIRST: nat := 8

  /** An instruction: its operands and type, and its register (or a hint) and spill slot (or zero). */
  datatype Ins = Ins(op1: nat, op2: nat, wide: bool, fp: bool, phi: bool, r: nat, s: nat)

  /**
   * References below live are still to be defined; outs are still to be stored to
   * the Lua stack. At the head of a side trace, some references are gone from
   * their registers, some are homed, so that their slots need nothing any more,
   * and some are inherited from slots of the parent.
   */
  datatype St = St(ir: map<nat, Ins>, free: set<nat>, weak: set<nat>, cost: seq<nat>, even: nat, odd: nat, live: nat,
      outs: map<nat, nat>,
                   gone: set<nat>, homed: set<nat>, inherited: map<nat, Slot>)

  predicate HasReg(r: nat) { r < RID_NONE }

  predicate HasHint(r: nat) { r < RID_SUNK }

  function GetHint(r: nat): nat { r % RID_NONE }

  /** Constants, and the base, are loaded again rather than spilled. */
  predicate CanRemat(ref: nat) { ref <= REF_BASE }

  function Owner(cost: nat): nat { cost % 0x1_0000 }

  /** Later references are cheaper to keep, and so are PHIs; in 32-bit arithmetic. */
  function RegCost(ref: nat, phi: bool): nat {
    (ref + (ref + if phi then 64 else 0) * 0x1_0000) % 0x1_0000_0000
  }

  /** The cost names its reference, even where the weight wraps around. */
  lemma CostOwner(ref: nat, phi: bool)
    requires ref < 0x1_0000
    ensures Owner(RegCost(ref, phi)) == ref
  {
    var h: nat := ref + if phi then 64 else 0;
    assert (ref + h * 0x1_0000) % 0x1_0000_0000 == ref + h % 0x1_0000 * 0x1_0000;
  }

  function SlotOf(ins: Ins): Slot { Slot(ins.s, ins.wide) }

  // ---- Consistency ----

  /** A register that is not free belongs to the live reference that its cost names. */
  ghost predicate RegEntry(s: St, r: nat)
    requires |s.cost| == RID_MAX
  {
    IsReg(r) && r !in s.free ==>
      var ref := Owner(s.cost[r]);
      ref in s.ir && ref < s.live && ref !in s.gone && s.ir[ref].r == r && s.cost[r] < 0x1_0000_0000
  }

  /** The register of a live reference is not free, of the right kind, and names it. */
  ghost predicate RefEntry(s: St, ref: nat)
    requires |s.cost| == RID_MAX
  {
    ref in s.ir && ref < s.live && ref !in s.gone && HasReg(s.ir[ref].r) ==>
      var r := s.ir[ref].r;
      IsReg(r) && r !in s.free && Owner(s.cost[r]) == ref && (s.ir[ref].fp <==> r >= RID_MAX_GPR)
  }

  /** A spill slot lies among those handed out, behind the fixed ones, and is not the one kept for later. */
  ghost predicate SpillEntry(s: St, ref: nat) {
    ref in s.ir && s.ir[ref].s != 0 ==>
      && !CanRemat(ref) && SPS_FIRST <= s.ir[ref].s && s.ir[ref].s + (if s.ir[ref].wide then 2 else 1) <= s.even
      && (s.odd != 0 ==> Apart(SlotOf(s.ir[ref]), Slot(s.odd, false)))
  }

  ghost predicate SpillPair(s: St, a: nat, b: nat) {
    a in s.ir && b in s.ir && a != b && s.ir[a].s != 0 && s.ir[b].s != 0 ==> Apart(SlotOf(s.ir[a]), SlotOf(s.ir[b]))
  }

  /** Reference x has a slot with cell c. */
  ghost predicate Covers(ir: map<nat, Ins>, x: nat, c: int) {
    x in ir && ir[x].s != 0 && ir[x].s <= c < ir[x].s + if ir[x].wide then 2 else 1
  }

  ghost predicate Covered(ir: map<nat, Ins>, c: int) {
    exists x {:trigger Covers(ir, x, c)} :: Covers(ir, x, c)
  }

  ghost predicate PackedAt(s: St, c: int) {
    SPS_FIRST <= c < s.even && (s.odd == 0 || c != s.odd) ==> Covered(s.ir, c)
  }

  /** No cell is skipped: below even each one belongs to a reference, or is the odd one kept for later. */
  ghost predicate Packed(s: St) {
    && s.even % 2 == 0 && forall c {:trigger PackedAt(s, c)} :: PackedAt(s, c)
  }

  /** All cells but one, at most. */
  ghost predicate AllBut(ir: map<nat, Ins>, cell: int) {
    forall c {:trigger Covered(ir, c)} :: SPS_FIRST <= c < 256 && c != cell ==> Covered(ir, c)
  }

  /** References with slots leave no cell, or only one where two are needed. */
  ghost predicate Full(ir: map<nat, Ins>, wide: bool) {
    exists cell {:trigger AllBut(ir, cell)} :: AllBut(ir, cell) && (!wide ==> cell == 0)
  }

  ghost predicate RefOk(s: St, ref: nat) { ref in s.ir ==> ref < REF_DROP }

  ghost predicate RegsOk(s: St) {
    && |s.cost| == RID_MAX
    && (forall r: nat {:trigger RegEntry(s, r)} :: RegEntry(s, r))
    && (forall ref: nat {:trigger RefEntry(s, ref)} :: RefEntry(s, ref))
    && (forall ref: nat {:trigger RefOk(s, ref)} :: RefOk(s, ref))
  }

  ghost predicate SpillsOk(s: St) {
    && SPS_FIRST <= s.even <= 256 && (s.odd != 0 ==> SPS_FIRST <= s.odd < s.even) && Packed(s)
    && (forall ref: nat {:trigger SpillEntry(s, ref)} :: SpillEntry(s, ref))
    && (forall a: nat, b: nat {:trigger SpillPair(s, a, b)} :: SpillPair(s, a, b))
  }

  ghost predicate Consistent(s: St) {
    RegsOk(s) && SpillsOk(s)
  }

  // ---- What the state demands of the machine ----

  /** Weak references need not be in their registers. */
  ghost function Demanded(s: St): map<nat, nat>
    requires |s.cost| == RID_MAX
  {
    map r: nat | r < RID_MAX && r != RID_SP && r !in s.free && r !in s.weak :: Owner(s.cost[r])
  }

  /** Slots are written where their references are defined. */
  ghost function Spilled(s: St): map<nat, Slot> {
    map ref | ref in s.ir && ref < s.live && s.ir[ref].s != 0 && ref !in s.homed :: SlotOf(s.ir[ref])
  }

  /** The registers in pend are about to be written. */
  ghost function Want(s: St, pend: map<nat, nat>): Demand
    requires |s.cost| == RID_MAX
  {
    Demand(Demanded(s) + pend, Spilled(s) + s.inherited, s.outs)
  }

  /** Not at the head of a side trace. */
  ghost predicate Plain(s: St) {
    s.gone == {} && s.homed == {} && s.inherited == map[]
  }

  /** The demands of a consistent state can always be met. */
  lemma WantMet(s: St, sem: Sem) returns (m: Machine)
    requires Consistent(s) && Plain(s)
    ensures Holds(m, Want(s, map[]), sem)
  {
    forall a, b | a in Spilled(s) && b in Spilled(s) && a != b ensures Apart(Spilled(s)[a], Spilled(s)[b]) {
      assert SpillPair(s, a, b);
    }
    m := Satisfiable(Want(s, map[]), sem);
  }

  // ---- What a step may change ----

  /** Types, operands and marks stay, and slots once given. */
  ghost predicate Kept(s: St, s': St) {
    s'.ir.Keys == s.ir.Keys && s'.live == s.live && s'.outs == s.outs && forall x: nat {:trigger KeptRef(s, s', x)} ::
        KeptRef(s, s', x)
  }

  ghost predicate KeptRef(s: St, s': St, x: nat) {
    x in s.ir && x in s'.ir ==>
      var a, b := s.ir[x], s'.ir[x];
      b == a.(r := b.r, s := b.s) && (a.s != 0 ==> b.s == a.s)
  }

  lemma KeptTwice(s: St, s': St, s'': St)
    requires Kept(s, s') && Kept(s', s'')
    ensures Kept(s, s'')
  {
    forall x: nat ensures KeptRef(s, s'', x) { assert KeptRef(s, s', x) && KeptRef(s', s'', x); }
  }

  /** References that have a register keep it. */
  ghost predicate StaysRef(s: St, s': St, drop: set<nat>, x: nat) {
    x in s.ir && x in s'.ir && x < s.live && HasReg(s.ir[x].r) && s.ir[x].r !in drop ==> s'.ir[x].r == s.ir[x].r
  }

  /** Registers outside of drop stay with their references, and none gets a new one. */
  ghost predicate Stays(s: St, s': St, drop: set<nat>) {
    && (forall x: nat {:trigger StaysRef(s, s', drop, x)} :: StaysRef(s, s', drop, x))
    && (forall x: nat {:trigger NoneNew(s, s', x)} :: NoneNew(s, s', x))
  }

  ghost predicate NoneNew(s: St, s': St, x: nat) {
    x in s.ir && x in s'.ir && x < s.live && HasReg(s'.ir[x].r) ==> s'.ir[x].r == s.ir[x].r
  }

  // ---- The transitions ----

  /** The register of a reference becomes free; the reference gets a hint. */
  function Released(s: St, ref: nat, hint: nat): St
    requires ref in s.ir
  {
    s.(ir := s.ir[ref := s.ir[ref].(r := hint)], free := s.free + {s.ir[ref].r})
  }

  lemma ReleasedOk(s: St, ref: nat, hint: nat)
    requires Consistent(s) && ref in s.ir && ref < s.live && ref !in s.gone && HasReg(s.ir[ref].r) && !HasReg(hint)
    ensures Consistent(Released(s, ref, hint))
    ensures Spilled(Released(s, ref, hint)) == Spilled(s)
    ensures Demanded(Released(s, ref, hint)) == Demanded(s) - {s.ir[ref].r}
  {
    var s' := Released(s, ref, hint);
    assert RefEntry(s, ref);
    forall r: nat ensures RegEntry(s', r) { assert RegEntry(s, r); }
    forall x: nat ensures RefEntry(s', x) { assert RefEntry(s, x); }
    SameSlots(s, s');
  }

  /** Slots and what else the spill invariant is about. */
  ghost predicate SameSpills(s: St, s': St) {
    && s'.even == s.even && s'.odd == s.odd && s'.ir.Keys == s.ir.Keys
    && forall x {:trigger s'.ir[x]} {:trigger s.ir[x]} ::
        x in s.ir ==> s'.ir[x].s == s.ir[x].s && s'.ir[x].wide == s.ir[x].wide
  }

  lemma SameSlots(s: St, s': St)
    requires SpillsOk(s) && SameSpills(s, s') && forall x: nat {:trigger RefOk(s, x)} :: RefOk(s, x)
    ensures SpillsOk(s') && forall x: nat {:trigger RefOk(s', x)} :: RefOk(s', x)
  {
    forall x: nat ensures SpillEntry(s', x) && RefOk(s', x) { assert SpillEntry(s, x) && RefOk(s, x); }
    forall a: nat, b: nat ensures SpillPair(s', a, b) { assert SpillPair(s, a, b); }
    SamePacked(s, s');
  }

  lemma SamePacked(s: St, s': St)
    requires Packed(s) && SameSpills(s, s')
    ensures Packed(s')
  {
    forall c ensures PackedAt(s', c) {
      assert PackedAt(s, c);
      if Covered(s.ir, c) {
        var x :| Covers(s.ir, x, c);
        assert Covers(s'.ir, x, c);
      }
    }
  }

  /** A free register is given to a reference that has none. */
  function Given(s: St, ref: nat, r: nat, cost: nat): St
    requires ref in s.ir && |s.cost| == RID_MAX && r < RID_MAX
  {
    s.(ir := s.ir[ref := s.ir[ref].(r := r)], free := s.free - {r}, weak := s.weak - {r}, cost := s.cost[r := cost])
  }

  lemma GivenOk(s: St, ref: nat, r: nat, cost: nat)
    requires Consistent(s) && ref in s.ir && ref < s.live && ref !in s.gone && !HasReg(s.ir[ref].r) && IsReg(r)
               && r in s.free
    requires Owner(cost) == ref && cost < 0x1_0000_0000 && (s.ir[ref].fp <==> r >= RID_MAX_GPR)
    ensures Consistent(Given(s, ref, r, cost))
    ensures Spilled(Given(s, ref, r, cost)) == Spilled(s)
    ensures Demanded(Given(s, ref, r, cost)) == Demanded(s)[r := ref] && r !in Demanded(s)
  {
    var s' := Given(s, ref, r, cost);
    forall q: nat ensures RegEntry(s', q) { assert RegEntry(s, q); }
    forall x: nat ensures RefEntry(s', x) { assert RefEntry(s, x); }
    SameSlots(s, s');
  }

  /** A reference moves from one register to a free one. */
  function Renamed(s: St, down: nat, up: nat): St
    requires |s.cost| == RID_MAX && down < RID_MAX && up < RID_MAX && Owner(s.cost[down]) in s.ir
  {
    var ref := Owner(s.cost[down]);
    s.(ir := s.ir[ref := s.ir[ref].(r := up)], free := s.free + {down} - {up}, weak := s.weak - {up},
       cost := s.cost[up := s.cost[down]][down := 0])
  }

  lemma RenamedOk(s: St, down: nat, up: nat)
    requires Consistent(s) && IsReg(down) && IsReg(up) && down !in s.free && up in s.free
               && (down < RID_MAX_GPR <==> up < RID_MAX_GPR)
    ensures Owner(s.cost[down]) in s.ir && Consistent(Renamed(s, down, up))
    ensures Spilled(Renamed(s, down, up)) == Spilled(s)
    ensures Demanded(Renamed(s, down, up)) == (Demanded(s) - {down})[up := Owner(s.cost[down])] && up !in Demanded(s)
  {
    var ref := Owner(s.cost[down]);
    assert RegEntry(s, down) && RefEntry(s, ref);
    var s' := Renamed(s, down, up);
    forall q: nat ensures RegEntry(s', q) { assert RegEntry(s, q); }
    forall x: nat ensures RefEntry(s', x) { assert RefEntry(s, x); }
    SameSlots(s, s');
  }

  /** The definition of the last live reference is reached; its register, if any, becomes free. */
  function Defined(s: St, ref: nat, r: nat): St
    requires ref in s.ir
  {
    s.(ir := s.ir[ref := s.ir[ref].(r := r)], free := s.free + {r}, live := ref)
  }

  lemma DefinedOk(s: St, ref: nat, r: nat)
    requires Consistent(s) && Plain(s) && ref in s.ir && s.live == ref + 1 && IsReg(r)
    requires if HasReg(s.ir[ref].r) then s.ir[ref].r == r else r in s.free
    ensures Consistent(Defined(s, ref, r))
    ensures Spilled(Defined(s, ref, r)) == Spilled(s) - {ref}
    ensures Demanded(Defined(s, ref, r)) == Demanded(s) - {r}
    ensures r in Demanded(s) ==> Demanded(s)[r] == ref
  {
    var s' := Defined(s, ref, r);
    assert RefEntry(s, ref) && RegEntry(s, r);
    forall q: nat ensures RegEntry(s', q) { assert RegEntry(s, q); }
    forall x: nat ensures RefEntry(s', x) { assert RefEntry(s, x); }
    SameSlots(s, s');
  }

  /** A reference without register and slot needs no definition. */
  lemma Unused(s: St, ref: nat)
    requires Consistent(s) && s.live == ref + 1 && (ref in s.ir ==> !HasReg(s.ir[ref].r) && s.ir[ref].s == 0)
    ensures Consistent(s.(live := ref))
    ensures Spilled(s.(live := ref)) == Spilled(s) && Demanded(s.(live := ref)) == Demanded(s)
  {
    var s' := s.(live := ref);
    forall q: nat ensures RegEntry(s', q) { assert RegEntry(s, q); }
    forall x: nat ensures RefEntry(s', x) { assert RefEntry(s, x); }
    SameSlots(s, s');
  }

  // ---- Spill slots ----

  /** A slot for a reference, and what is left of the slots. */
  function WithSlot(s: St, ref: nat, slot: nat, even: nat, odd: nat): St
    requires ref in s.ir
  {
    s.(ir := s.ir[ref := s.ir[ref].(s := slot)], even := even, odd := odd)
  }

  /** The slot is fresh: behind all others, or the odd one that was kept. */
  ghost predicate FreshSlot(s: St, wide: bool, slot: nat, even: nat, odd: nat) {
    if slot == s.even then even == s.even + 2 && odd == (if wide then s.odd else slot + 1) && (!wide ==> s.odd == 0)
    else !wide && slot == s.odd != 0 && even == s.even && odd == 0
  }

  lemma SlotGiven(s: St, ref: nat, slot: nat, even: nat, odd: nat)
    requires Consistent(s) && Plain(s) && ref in s.ir && ref < s.live && s.ir[ref].s == 0 && !CanRemat(ref)
    requires FreshSlot(s, s.ir[ref].wide, slot, even, odd) && even <= 256
    ensures Consistent(WithSlot(s, ref, slot, even, odd)) && slot > 0
    ensures Spilled(WithSlot(s, ref, slot, even, odd)) == Spilled(s)[ref := Slot(slot, s.ir[ref].wide)]
              && ref !in Spilled(s)
    ensures Demanded(WithSlot(s, ref, slot, even, odd)) == Demanded(s)
  {
    var s' := WithSlot(s, ref, slot, even, odd);
    forall q: nat ensures RegEntry(s', q) { assert RegEntry(s, q); }
    forall x: nat ensures RefEntry(s', x) && RefOk(s', x) { assert RefEntry(s, x) && RefOk(s, x); }
    forall x: nat ensures SpillEntry(s', x) { assert SpillEntry(s, x); }
    forall a: nat, b: nat ensures SpillPair(s', a, b) {
      assert SpillPair(s, a, b) && SpillEntry(s, a) && SpillEntry(s, b);
    }
    SlotPacked(s, ref, slot, even, odd);
  }

  lemma SlotPacked(s: St, ref: nat, slot: nat, even: nat, odd: nat)
    requires Packed(s) && ref in s.ir && s.ir[ref].s == 0 && 0 < s.even
    requires FreshSlot(s, s.ir[ref].wide, slot, even, odd)
    ensures Packed(WithSlot(s, ref, slot, even, odd))
  {
    var s' := WithSlot(s, ref, slot, even, odd);
    forall c ensures PackedAt(s', c) {
      assert PackedAt(s, c);
      if Covered(s.ir, c) {
        var x :| Covers(s.ir, x, c);
        assert Covers(s'.ir, x, c);
      }
      assert slot <= c < slot + (if s.ir[ref].wide then 2 else 1) ==> Covers(s'.ir, ref, c);
    }
  }

  ghost predicate PairApart(ir: map<nat, Ins>, a: nat, b: nat) {
    a in ir && b in ir && a != b && ir[a].s != 0 && ir[b].s != 0 ==> Apart(SlotOf(ir[a]), SlotOf(ir[b]))
  }

  /** Each cell belongs to one reference. */
  ghost predicate SlotsApart(ir: map<nat, Ins>) {
    forall a: nat, b: nat {:trigger PairApart(ir, a, b)} :: PairApart(ir, a, b)
  }

  /** The allocator gives up only where no cell is left. */
  lemma NoSlotLeft(s: St, wide: bool)
    requires SpillsOk(s) && s.even + 2 > 256 && (wide || s.odd == 0)
    ensures s.even == 256 && Full(s.ir, wide) && SlotsApart(s.ir)
  {
    forall a: nat, b: nat ensures PairApart(s.ir, a, b) { assert SpillPair(s, a, b); }
    assert s.even % 2 == 0;
    forall c | SPS_FIRST <= c < 256 && c != s.odd ensures Covered(s.ir, c) { assert PackedAt(s, c); }
    assert AllBut(s.ir, s.odd);
  }

  /** A register was freed; its reference lost it, and may have got a slot. */
  ghost predicate Freed(s: St, s': St, ref: nat, r: nat) {
    && Kept(s, s') && Stays(s, s', {r}) && s'.free == s.free + {r} && s'.cost == s.cost && s'.weak == s.weak
    && ref in s'.ir && !HasReg(s'.ir[ref].r)
  }

  /** The reference has a slot, an old one or a new one. */
  ghost predicate Slotted(s: St, s': St, ref: nat) {
    ref in s.ir && ref in s'.ir &&
      if s.ir[ref].s != 0 then s' == s else s' == WithSlot(s, ref, s'.ir[ref].s, s'.even, s'.odd)
  }

  /** Slots change, nothing else. */
  lemma ReleasedFrees(s: St, s': St, ref: nat, hint: nat)
    requires ref in s.ir && HasReg(s.ir[ref].r) && !HasReg(hint) && Slotted(s, s', ref)
    ensures ref in s'.ir && s'.ir[ref].r == s.ir[ref].r
    ensures Freed(s, Released(s', ref, hint), ref, s.ir[ref].r)
  {
    var s'' := Released(s', ref, hint);
    forall x: nat ensures KeptRef(s, s'', x) && StaysRef(s, s'', {s.ir[ref].r}, x) && NoneNew(s, s'', x) { }
  }

  lemma SlotKept(s: St, ref: nat, slot: nat, even: nat, odd: nat)
    requires ref in s.ir && s.ir[ref].s == 0
    ensures var s' := WithSlot(s, ref, slot, even, odd);
            Kept(s, s') && Stays(s, s', {})
  {
    var s' := WithSlot(s, ref, slot, even, odd);
    forall x: nat ensures KeptRef(s, s', x) && StaysRef(s, s', {}, x) && NoneNew(s, s', x) { }
  }

  lemma StaysMore(s: St, s': St, drop: set<nat>, more: set<nat>)
    requires Stays(s, s', drop) && drop <= more
    ensures Stays(s, s', more)
  {
    forall x: nat ensures StaysRef(s, s', more, x) { assert StaysRef(s, s', drop, x); }
  }

  lemma StaysTwice(s: St, s': St, s'': St, drop: set<nat>)
    requires Stays(s, s', drop) && Stays(s', s'', drop) && Kept(s, s')
    ensures Stays(s, s'', drop)
  {
    forall x: nat ensures StaysRef(s, s'', drop, x) && NoneNew(s, s'', x) {
      assert StaysRef(s, s', drop, x) && StaysRef(s', s'', drop, x) && NoneNew(s, s', x) && NoneNew(s', s'', x);
    }
  }

  lemma NothingChanged(s: St, drop: set<nat>)
    ensures Kept(s, s) && Stays(s, s, drop)
  {
    forall x: nat ensures KeptRef(s, s, x) && StaysRef(s, s, drop, x) && NoneNew(s, s, x) { }
  }

  /** Only one reference may get a register, and only those in drop may lose theirs. */
  ghost predicate Took(s: St, s': St, ref: nat, drop: set<nat>) {
    Kept(s, s') && forall x: nat {:trigger TookRef(s, s', ref, drop, x)} :: TookRef(s, s', ref, drop, x)
  }

  ghost predicate TookRef(s: St, s': St, ref: nat, drop: set<nat>, x: nat) {
    x != ref ==> StaysRef(s, s', drop, x) && NoneNew(s, s', x)
  }

  lemma GivenTook(s0: St, s: St, ref: nat, r: nat, cost: nat, drop: set<nat>)
    requires Kept(s0, s) && Stays(s0, s, drop) && ref in s.ir && |s.cost| == RID_MAX && r < RID_MAX
    ensures Took(s0, Given(s, ref, r, cost), ref, drop)
  {
    var s' := Given(s, ref, r, cost);
    forall x: nat ensures KeptRef(s0, s', x) && TookRef(s0, s', ref, drop, x) {
      assert KeptRef(s0, s, x) && StaysRef(s0, s, drop, x) && NoneNew(s0, s, x);
    }
  }

  /** References that were stored to their slots. */
  ghost predicate SavedOk(s: St, saved: map<nat, Slot>) {
    forall x: nat {:trigger SavedAt(s, saved, x)} :: SavedAt(s, saved, x)
  }

  ghost predicate SavedAt(s: St, saved: map<nat, Slot>, x: nat) {
    x in saved ==> x in s.ir && s.ir[x].s != 0 && SlotOf(s.ir[x]) == saved[x]
  }

  lemma SavedMore(s: St, saved: map<nat, Slot>, ref: nat)
    requires SavedOk(s, saved) && ref in s.ir && s.ir[ref].s != 0
    ensures SavedOk(s, saved[ref := SlotOf(s.ir[ref])])
  {
    var saved' := saved[ref := SlotOf(s.ir[ref])];
    forall x: nat ensures SavedAt(s, saved', x) { assert SavedAt(s, saved, x); }
  }

  /** Types and slots stay as they are. */
  ghost predicate KeptRefs(s: St, s': St) {
    s'.ir.Keys == s.ir.Keys && s'.outs == s.outs && forall x: nat {:trigger KeptRef(s, s', x)} :: KeptRef(s, s', x)
  }

  lemma SavedKept(s: St, s': St, saved: map<nat, Slot>)
    requires SavedOk(s, saved) && KeptRefs(s, s')
    ensures SavedOk(s', saved)
  {
    forall x: nat ensures SavedAt(s', saved, x) { assert SavedAt(s, saved, x) && KeptRef(s, s', x); }
  }

  lemma RenamedKept(s: St, down: nat, up: nat)
    requires |s.cost| == RID_MAX && down < RID_MAX && up < RID_MAX && Owner(s.cost[down]) in s.ir
    ensures Kept(s, Renamed(s, down, up))
  {
    forall x: nat ensures KeptRef(s, Renamed(s, down, up), x) { }
  }

  /** No reference gets or loses a slot. */
  ghost predicate KeptSlots(s: St, s': St) {
    s'.ir.Keys == s.ir.Keys && forall x {:trigger s'.ir[x]} :: x in s.ir ==> s'.ir[x].s == s.ir[x].s
  }
}
