/**
 * Loops (asm_phi, asm_phi_shuffle and asm_loop in lj_asm.c): the registers of PHIs
 * at the end of the loop body are those at its start, and whatever the body needs
 * from outside the loop is still there when it runs again.
 */
module RegLoop {
  import opened RaMachine
  import opened RegState
  import opened RegAlloc

  /** PHI registers, the left operand for each, and the references that are marked as left operands. */
  datatype Phi = Phi(regs: set<nat>, left: map<nat, nat>, marks: set<nat>)

  ghost predicate PhiAt(s: St, p: Phi, r: nat) {
    r in p.regs ==>
      && IsReg(r) && r in p.left && p.left[r] in s.ir && REF_BASE < p.left[r] < s.live && p.left[r] in p.marks
      && (s.ir[p.left[r]].fp <==> r >= RID_MAX_GPR)
  }

  /** Some PHI register has the reference as its left operand. */
  ghost predicate IsLeft(p: Phi, x: nat) {
    exists r: nat {:trigger r in p.regs} :: r in p.regs && r in p.left && p.left[r] == x
  }

  ghost predicate PhiPair(p: Phi, a: nat, b: nat) {
    a in p.regs && b in p.regs && a in p.left && b in p.left && p.left[a] == p.left[b] ==> a == b
  }

  ghost predicate PhiOk(s: St, p: Phi) {
    && (forall r: nat {:trigger PhiAt(s, p, r)} :: PhiAt(s, p, r))
    && (forall a: nat, b: nat {:trigger PhiPair(p, a, b)} :: PhiPair(p, a, b))
    && (forall x: nat {:trigger IsLeft(p, x)} :: x in p.marks ==> IsLeft(p, x))
  }

  /** Where the left operand of a PHI register is. */
  function Loc(s: St, p: Phi, r: nat): nat {
    if r in p.left && p.left[r] in s.ir then s.ir[p.left[r]].r else RID_NONE
  }

  /** The left operand is in the PHI register, or in none at all, and then the PHI register is free. */
  ghost predicate Settled(s: St, p: Phi, r: nat) {
    if HasReg(Loc(s, p, r)) then Loc(s, p, r) == r else r in s.free
  }

  /** Left operands in wrong registers. */
  ghost function Mis(s: St, p: Phi): set<nat> {
    set r | r in p.regs && HasReg(Loc(s, p, r)) && Loc(s, p, r) != r
  }

  /** Some left operand can move to its PHI register right away. */
  ghost predicate Ready(s: St, p: Phi) {
    exists r: nat {:trigger ReadyAt(s, p, r)} :: ReadyAt(s, p, r)
  }

  ghost predicate ReadyAt(s: St, p: Phi, r: nat) {
    r in p.regs && r in s.free && HasReg(Loc(s, p, r))
  }

  // ---- What a pass over the PHI registers keeps ----

  /** A PHI register that is taken by some other left operand. */
  ghost predicate BlockedAt(s: St, p: Phi, r: nat)
    requires |s.cost| == RID_MAX
  {
    r in p.regs && r in p.left && r < RID_MAX
        && (r in s.free || (Owner(s.cost[r]) in p.marks && Owner(s.cost[r]) != p.left[r]))
  }

  /** PHI registers outside of work are settled or blocked. */
  ghost predicate DoneAt(s: St, p: Phi, work: set<nat>, blocked: set<nat>, r: nat)
    requires |s.cost| == RID_MAX
  {
    && (r in p.regs && r !in work && r !in blocked ==> Settled(s, p, r))
    && (r in blocked ==> BlockedAt(s, p, r) && r !in work)
  }

  ghost predicate Passed(s: St, p: Phi, work: set<nat>, blocked: set<nat>) {
    |s.cost| == RID_MAX && forall r: nat {:trigger DoneAt(s, p, work, blocked, r)} :: DoneAt(s, p, work, blocked, r)
  }

  /** The register of a left operand is not free, and is its own. */
  lemma LocHeld(s: St, p: Phi, r: nat)
    requires RegsOk(s) && PhiOk(s, p) && s.gone == {} && r in p.regs && HasReg(Loc(s, p, r))
    ensures var q := Loc(s, p, r);
            IsReg(q) && q !in s.free && Owner(s.cost[q]) == p.left[r] && (q < RID_MAX_GPR <==> r < RID_MAX_GPR)
  {
    assert PhiAt(s, p, r);
    assert RefEntry(s, p.left[r]);
  }

  /** Types stay, so PHIs stay. */
  lemma PhiKept(s: St, s': St, p: Phi)
    requires PhiOk(s, p) && KeptRefs(s, s') && s'.live == s.live
    ensures PhiOk(s', p)
  {
    forall r: nat ensures PhiAt(s', p, r) {
      assert PhiAt(s, p, r);
      if r in p.regs { assert KeptRef(s, s', p.left[r]); }
    }
  }

  /** An invariant gives way: nothing changes for the left operands. */
  lemma RestoreNext(s: St, s': St, p: Phi, work: set<nat>, blocked: set<nat>, ref: nat, r: nat)
    requires RegsOk(s) && PhiOk(s, p) && s.gone == {} && Passed(s, p, work, blocked) && Freed(s, s', ref, r)
    requires r !in s.free && IsReg(r) && Owner(s.cost[r]) == ref && ref !in p.marks && r in work
    ensures PhiOk(s', p) && Passed(s', p, work, blocked) && Mis(s', p) == Mis(s, p)
    ensures forall q: nat {:trigger Loc(s', p, q)} ::
              q in p.regs ==> Loc(s', p, q) == Loc(s, p, q) || (!HasReg(Loc(s', p, q)) && !HasReg(Loc(s, p, q)))
  {
    PhiKept(s, s', p);
    forall q: nat | q in p.regs ensures Loc(s', p, q) == Loc(s, p, q)
        || (!HasReg(Loc(s', p, q)) && !HasReg(Loc(s, p, q))) {
      assert PhiAt(s, p, q);
      var l := p.left[q];
      assert RefEntry(s, l) && StaysRef(s, s', {r}, l) && NoneNew(s, s', l);
    }
    forall q: nat ensures DoneAt(s', p, work, blocked, q) { assert DoneAt(s, p, work, blocked, q); }
  }

  /** A left operand moves to its PHI register. */
  lemma RenameNext(s: St, p: Phi, work: set<nat>, blocked: set<nat>, r: nat)
    requires Consistent(s) && PhiOk(s, p) && s.gone == {} && Passed(s, p, work, blocked)
    requires r in work && r in p.regs && r in s.free && HasReg(Loc(s, p, r))
    ensures IsReg(r) && IsReg(Loc(s, p, r)) && Loc(s, p, r) !in s.free
              && (Loc(s, p, r) < RID_MAX_GPR <==> r < RID_MAX_GPR)
    ensures Owner(s.cost[Loc(s, p, r)]) in s.ir
    ensures var s' := Renamed(s, Loc(s, p, r), r);
            PhiOk(s', p) && Passed(s', p, work - {r}, blocked) && Mis(s', p) == Mis(s, p) - {r}
    ensures r in Mis(s, p)
  {
    var q := Loc(s, p, r);
    LocHeld(s, p, r);
    assert PhiAt(s, p, r);
    RenamedOk(s, q, r);
    RenamedKept(s, q, r);
    var s' := Renamed(s, q, r);
    PhiKept(s, s', p);
    forall x: nat ensures DoneAt(s', p, work - {r}, blocked, x) {
      assert DoneAt(s, p, work, blocked, x) && PhiPair(p, x, r) && PhiAt(s, p, x);
      if x in p.regs && HasReg(Loc(s, p, x)) { LocHeld(s, p, x); }
    }
    forall x: nat ensures x in Mis(s', p) <==> x in Mis(s, p) - {r} { assert PhiPair(p, x, r) && PhiAt(s, p, x); }
  }

  /** A PHI register that already holds its left operand, or cannot, needs nothing. */
  lemma SettledNext(s: St, p: Phi, work: set<nat>, blocked: set<nat>, r: nat)
    requires Passed(s, p, work, blocked) && r in p.regs && Settled(s, p, r)
    ensures Passed(s, p, work - {r}, blocked)
  {
    forall x: nat ensures DoneAt(s, p, work - {r}, blocked, x) { assert DoneAt(s, p, work, blocked, x); }
  }

  /** A PHI register that is taken by another left operand is blocked. */
  lemma BlockedNext(s: St, p: Phi, work: set<nat>, blocked: set<nat>, r: nat)
    requires Passed(s, p, work, blocked) && BlockedAt(s, p, r)
    ensures Passed(s, p, work - {r}, blocked + {r})
  {
    forall x: nat ensures DoneAt(s, p, work - {r}, blocked + {r}, x) { assert DoneAt(s, p, work, blocked, x); }
  }

  // ---- Cycles ----

  ghost function Image(b: set<nat>, f: nat -> nat): set<nat> {
    set x | x in b :: f(x)
  }

  lemma {:induction false} ImageSize(b: set<nat>, f: nat -> nat)
    requires forall x, y {:trigger f(x), f(y)} :: x in b && y in b && f(x) == f(y) ==> x == y
    ensures |Image(b, f)| == |b|
    decreases |b|
  {
    if b != {} {
      var x :| x in b;
      ImageSize(b - {x}, f);
      assert Image(b, f) == Image(b - {x}, f) + {f(x)};
      assert f(x) !in Image(b - {x}, f);
    }
  }

  lemma {:induction false} SameSize(a: set<nat>, b: set<nat>)
    requires a <= b && |a| == |b|
    ensures a == b
    decreases |a|
  {
    if a == {} {
      assert b == {};
    } else {
      var x :| x in a;
      SameSize(a - {x}, b - {x});
      assert a == (a - {x}) + {x} && b == (b - {x}) + {x};
    }
  }

  /** Injective on a finite set is surjective. */
  lemma Onto(b: set<nat>, f: nat -> nat, y: nat) returns (x: nat)
    requires forall x, y {:trigger f(x), f(y)} :: x in b && y in b && f(x) == f(y) ==> x == y
    requires forall x {:trigger f(x)} :: x in b ==> f(x) in b
    requires y in b
    ensures x in b && f(x) == y
  {
    ImageSize(b, f);
    SameSize(Image(b, f), b);
    assert y in Image(b, f);
    x :| x in b && f(x) == y;
  }

  /** Each PHI register that is blocked keeps its left operand in one that is blocked, too. */
  ghost function TargetOf(s: St, p: Phi, r: nat): nat {
    if r < |s.cost| && IsLeft(p, Owner(s.cost[r])) then
      var t: nat :| t in p.regs && t in p.left && p.left[t] == Owner(s.cost[r]); t
    else 0
  }

  lemma TargetBlocked(s: St, p: Phi, blocked: set<nat>, r: nat)
    requires Consistent(s) && PhiOk(s, p) && Passed(s, p, {}, blocked) && r in blocked && r !in s.free
    ensures TargetOf(s, p, r) in blocked && Loc(s, p, TargetOf(s, p, r)) == r && IsReg(r)
  {
    assert DoneAt(s, p, {}, blocked, r) && PhiAt(s, p, r) && RegEntry(s, r);
    var x := Owner(s.cost[r]);
    assert IsLeft(p, x);
    var t := TargetOf(s, p, r);
    assert p.left[t] == x && Loc(s, p, t) == r;
    assert DoneAt(s, p, {}, blocked, t);
  }

  /** A blocked register of one kind, in a cycle. */
  ghost predicate CycAt(s: St, p: Phi, blocked: set<nat>, d: nat)
    requires |s.cost| == RID_MAX
  {
    d in blocked ==>
      && d in p.regs && d !in s.free && IsReg(d) && BlockedAt(s, p, d)
      && HasReg(Loc(s, p, d)) && Loc(s, p, d) in blocked && (Loc(s, p, d) < RID_MAX_GPR <==> d < RID_MAX_GPR)
  }

  ghost predicate CycAll(s: St, p: Phi, blocked: set<nat>) {
    |s.cost| == RID_MAX && forall d: nat {:trigger CycAt(s, p, blocked, d)} :: CycAt(s, p, blocked, d)
  }

  /** If no blocked register is free, then all of them lie on cycles. */
  lemma AllCycles(s: St, p: Phi, blocked: set<nat>)
    requires Consistent(s) && PhiOk(s, p) && s.gone == {} && Passed(s, p, {}, blocked) && s.free * blocked == {}
    ensures CycAll(s, p, blocked)
  {
    NoneFree(blocked, s.free);
    forall d: nat ensures CycAt(s, p, blocked, d) {
      if d in blocked { OnCycle(s, p, blocked, d); }
    }
  }

  lemma OnCycle(s: St, p: Phi, blocked: set<nat>, d: nat)
    requires Consistent(s) && PhiOk(s, p) && s.gone == {} && Passed(s, p, {}, blocked) && blocked !! s.free
               && d in blocked
    ensures CycAt(s, p, blocked, d)
  {
    var f := (x: nat) => TargetOf(s, p, x);
    forall x | x in blocked ensures f(x) in blocked && Loc(s, p, f(x)) == x { TargetBlocked(s, p, blocked, x); }
    var r := Onto(blocked, f, d);
    TargetBlocked(s, p, blocked, r);
    TargetBlocked(s, p, blocked, d);
    assert DoneAt(s, p, {}, blocked, d);
    LocHeld(s, p, d);
  }

  /** Evicting some register outside of the cycles. */
  lemma PickNext(s: St, s': St, p: Phi, blocked: set<nat>, allow: set<nat>, up: nat)
    requires Consistent(s) && PhiOk(s, p) && s.gone == {} && Kept(s, s') && Stays(s, s', allow) && allow !! blocked
               && up in allow && s'.free == s.free + {up} && s'.cost == s.cost
    requires CycAll(s, p, blocked)
    ensures PhiOk(s', p) && Mis(s', p) <= Mis(s, p)
    ensures CycAll(s', p, blocked)
  {
    PhiKept(s, s', p);
    forall d: nat ensures CycAt(s', p, blocked, d) {
      assert CycAt(s, p, blocked, d) && PhiAt(s, p, d);
      if d in blocked { assert StaysRef(s, s', allow, p.left[d]); }
    }
    forall x | x in Mis(s', p) ensures x in Mis(s, p) {
      assert PhiAt(s, p, x) && NoneNew(s, s', p.left[x]);
    }
  }

  /** Moving a left operand out of a cycle makes its register free for the one that belongs there. */
  lemma BreakNext(s: St, p: Phi, blocked: set<nat>, down: nat, up: nat)
    requires Consistent(s) && PhiOk(s, p) && s.gone == {} && down in blocked && up !in blocked && up in s.free
               && IsReg(up) && (down < RID_MAX_GPR <==> up < RID_MAX_GPR)
    requires CycAll(s, p, blocked)
    ensures IsReg(down) && down !in s.free && Owner(s.cost[down]) in s.ir
    ensures var s' := Renamed(s, down, up);
            && PhiOk(s', p) && Mis(s', p) <= Mis(s, p) && down in p.regs && down in s'.free && HasReg(Loc(s', p, down))
    ensures var s' := Renamed(s, down, up);
            CycAll(s', p, OtherFile(blocked, down))
  {
    assert CycAt(s, p, blocked, down) && RegEntry(s, down) && PhiAt(s, p, down);
    RenamedKept(s, down, up);
    var s' := Renamed(s, down, up);
    PhiKept(s, s', p);
    forall x | x in Mis(s', p) ensures x in Mis(s, p) { assert PhiAt(s, p, x); }
    forall d: nat ensures CycAt(s', p, OtherFile(blocked, down), d) {
      assert CycAt(s, p, blocked, d) && PhiAt(s, p, d);
      if d in OtherFile(blocked, down) { LocHeld(s, p, d); }
    }
  }

  /** The registers of the other kind. */
  ghost function OtherFile(rs: set<nat>, r: nat): set<nat> {
    set x | x in rs && !(x < RID_MAX_GPR <==> r < RID_MAX_GPR)
  }

  // ---- The algorithm ----

  ghost function PhiOf(a: Assembler): Phi
    reads a
  {
    Phi(a.phiset, a.phireg, a.marks)
  }

  ghost predicate Inv(a: Assembler)
    reads a
  {
    a.Valid(map[]) && PhiOk(a.State(), PhiOf(a))
  }

  /** Other registers of PHIs are as ready as before, and none became free. */
  ghost predicate SameReady(s: St, s': St, p: Phi, r: nat) {
    && (forall q: nat {:trigger ReadyAt(s', p, q)} :: ReadyAt(s, p, q) ==> ReadyAt(s', p, q))
    && s'.free <= s.free + {r} && s.free <= s'.free && Mis(s', p) == Mis(s, p)
  }

  /** One PHI register of a pass. */
  method Visit(a: Assembler, r: nat, ghost work: set<nat>, ghost blocked: set<nat>)
               returns (ok: bool, isBlocked: bool, other: nat, ghost renamed: bool)
    requires Inv(a) && r in work && r in a.phiset && Passed(a.State(), PhiOf(a), work, blocked)
    modifies a`ir, a`freeset, a`modset, a`weakset, a`cost, a`evenspill, a`oddspill, a`code
    ensures !ok ==> a.Overflown()
    ensures ok ==>
              Inv(a) && Passed(a.State(), PhiOf(a), work - {r}, if isBlocked then blocked + {r} else blocked)
              && KeptRefs(old(a.State()), a.State())
    ensures ok && renamed ==> Mis(a.State(), PhiOf(a)) < Mis(old(a.State()), PhiOf(a))
    ensures ok && !renamed ==>
              SameReady(old(a.State()), a.State(), PhiOf(a), r) && !ReadyAt(old(a.State()), PhiOf(a), r)
              && (isBlocked ==> r !in a.freeset)
  {
    ghost var s0, p := a.State(), PhiOf(a);
    assert PhiAt(s0, p, r);
    ok, isBlocked, other, renamed := true, false, RID_NONE, false;
    NothingChanged(s0, {});
    var lref := a.phireg[r];
    var left := a.ir[lref].r;
    if r == left {
      LocHeld(s0, p, r);
      SettledNext(s0, p, work, blocked, r);
      return;
    }
    if r !in a.freeset {
      a.OwnerOf(r);
      var ref := Owner(a.cost[r]);
      if ref in a.marks {
        BlockedNext(s0, p, work, blocked, r);
        isBlocked, other := true, left;
        return;
      }
      var q;
      ok, q := a.Restore(ref, map[]);
      if !ok {
        return;
      }
      RestoreNext(s0, a.State(), p, work, blocked, ref, r);
      assert Loc(a.State(), p, r) == left || !HasReg(left);
    }
    ghost var s1 := a.State();
    if HasReg(left) {
      RenameNext(s1, p, work, blocked, r);
      RenamedKept(s1, left, r);
      a.Rename(left, r, map[]);
      KeptThrough(s0, s1, a.State());
      renamed := true;
    } else {
      SettledNext(s1, p, work, blocked, r);
    }
  }

  /** All PHI registers, once: they end up settled or blocked. */
  method Pass(a: Assembler) returns (ok: bool, blocked: set<nat>, blockedby: set<nat>, ghost renamed: bool)
    requires Inv(a)
    modifies a`ir, a`freeset, a`modset, a`weakset, a`cost, a`evenspill, a`oddspill, a`code
    ensures !ok ==> a.Overflown()
    ensures ok ==>
              Inv(a) && Passed(a.State(), PhiOf(a), {}, blocked) && blocked <= a.phiset
              && KeptRefs(old(a.State()), a.State())
    ensures ok && renamed ==> Mis(a.State(), PhiOf(a)) < Mis(old(a.State()), PhiOf(a))
    ensures ok && !renamed ==>
              Mis(a.State(), PhiOf(a)) == Mis(old(a.State()), PhiOf(a)) && a.freeset * blocked == {}
              && !Ready(old(a.State()), PhiOf(a))
  {
    ok, blocked, blockedby, renamed := true, {}, {}, false;
    ghost var s0, p := a.State(), PhiOf(a);
    var phiset := a.phiset;
    PassStart(a, s0, p);
    while phiset != {}
      invariant phiset <= a.phiset && blocked <= a.phiset - phiset && Inv(a)
                  && InPass(s0, a.State(), p, phiset, blocked, renamed)
      decreases phiset
    {
      ghost var x :| x in phiset;
      ghost var s := a.State();
      var r := PickBot(phiset);
      assert PhiAt(s, p, r);
      var isBlocked, other;
      ghost var one;
      ok, isBlocked, other, one := Visit(a, r, phiset, blocked);
      if !ok {
        return;
      }
      PassNext(s0, s, a.State(), p, phiset, blocked, renamed, r, isBlocked, one);
      renamed := renamed || one;
      if isBlocked {
        blocked := blocked + {r};
        if HasReg(other) {
          blockedby := blockedby + {other};
        }
      }
      phiset := phiset - {r};
    }
    if !renamed { NoneReady(s0, a.State(), p); }
  }

  /** Where a pass stands: what is settled or blocked, and whether anything was renamed. */
  ghost predicate InPass(s0: St, s: St, p: Phi, work: set<nat>, blocked: set<nat>, renamed: bool) {
    && Passed(s, p, work, blocked) && KeptRefs(s0, s)
    && if renamed then Mis(s, p) < Mis(s0, p) else NotReady(s0, s, p, work) && Mis(s, p) == Mis(s0, p) && s.free * blocked == {}
  }

  lemma PassNext(s0: St, s: St, s': St, p: Phi, work: set<nat>, blocked: set<nat>, renamed: bool, r: nat,
                 isBlocked: bool, one: bool)
    requires InPass(s0, s, p, work, blocked, renamed) && r in work && r !in blocked
    requires Passed(s', p, work - {r}, if isBlocked then blocked + {r} else blocked) && KeptRefs(s, s')
    requires if one then Mis(s', p) < Mis(s, p) else SameReady(s, s', p, r) && !ReadyAt(s, p, r) && (isBlocked ==> r !in s'.free)
    ensures InPass(s0, s', p, work - {r}, if isBlocked then blocked + {r} else blocked, renamed || one)
  {
    KeptThrough(s0, s, s');
    if !renamed && !one { StillNotReady(s0, s, s', p, work, r); }
  }

  lemma PassStart(a: Assembler, s: St, p: Phi)
    requires Inv(a) && s == a.State() && p == PhiOf(a)
    ensures InPass(s, s, p, a.phiset, {}, false)
  {
    forall r: nat ensures DoneAt(s, p, a.phiset, {}, r) && KeptRef(s, s, r) && NotReadyAt(s, s, p, a.phiset, r) { }
  }

  /** PHI registers that could move at the start of a pass still can, and none of those was met. */
  ghost predicate NotReadyAt(s0: St, s: St, p: Phi, work: set<nat>, r: nat) {
    ReadyAt(s0, p, r) ==> r in work && ReadyAt(s, p, r)
  }

  ghost predicate NotReady(s0: St, s: St, p: Phi, work: set<nat>) {
    forall r: nat {:trigger NotReadyAt(s0, s, p, work, r)} :: NotReadyAt(s0, s, p, work, r)
  }

  lemma StillNotReady(s0: St, s: St, s': St, p: Phi, work: set<nat>, r: nat)
    requires NotReady(s0, s, p, work) && SameReady(s, s', p, r) && !ReadyAt(s, p, r)
    ensures NotReady(s0, s', p, work - {r})
  {
    forall q: nat ensures NotReadyAt(s0, s', p, work - {r}, q) {
      assert NotReadyAt(s0, s, p, work, q) && (ReadyAt(s, p, q) ==> ReadyAt(s', p, q));
    }
  }

  lemma NoneReady(s0: St, s: St, p: Phi)
    requires NotReady(s0, s, p, {})
    ensures !Ready(s0, p)
  {
    forall r: nat ensures !ReadyAt(s0, p, r) { assert NotReadyAt(s0, s, p, {}, r); }
  }

  /** A free register outside of the cycles, which stay as they are. */
  method MakeRoom(a: Assembler, allow: set<nat>, ghost cyc: set<nat>) returns (ok: bool, up: nat)
    requires Inv(a) && AreRegs(allow) && allow != {} && allow !! cyc && CycAll(a.State(), PhiOf(a), cyc)
    modifies a`ir, a`freeset, a`modset, a`evenspill, a`oddspill, a`code
    ensures !ok ==> a.Overflown()
    ensures up in allow
    ensures ok ==> Inv(a) && up in a.freeset && KeptRefs(old(a.State()), a.State()) && CycAll(a.State(), PhiOf(a), cyc)
    ensures ok ==> Mis(a.State(), PhiOf(a)) <= Mis(old(a.State()), PhiOf(a))
  {
    ghost var s := a.State();
    ok, up := a.Pick(allow, map[]);
    if ok { PickNext(s, a.State(), PhiOf(a), cyc, allow, up); }
  }

  /** Of a cycle, the left operand in one register goes to a free one. */
  method BreakAt(a: Assembler, down: nat, up: nat, ghost cyc: set<nat>)
    requires Inv(a) && down in cyc && up !in cyc && up in a.freeset && IsReg(up)
               && (down < RID_MAX_GPR <==> up < RID_MAX_GPR) && CycAll(a.State(), PhiOf(a), cyc)
    modifies a`ir, a`freeset, a`modset, a`weakset, a`cost, a`code
    ensures Inv(a) && KeptRefs(old(a.State()), a.State()) && Ready(a.State(), PhiOf(a))
              && CycAll(a.State(), PhiOf(a), OtherFile(cyc, down))
    ensures Mis(a.State(), PhiOf(a)) <= Mis(old(a.State()), PhiOf(a))
  {
    ghost var s, p := a.State(), PhiOf(a);
    BreakNext(s, p, cyc, down, up);
    RenamedKept(s, down, up);
    a.Rename(down, up, map[]);
    assert ReadyAt(a.State(), p, down);
  }

  /** asm_phi_break: a cycle of one kind is broken by renaming one of its registers to a free one. */
  method Break(a: Assembler, blocked: set<nat>, blockedby: set<nat>, file: set<nat>, ghost cyc: set<nat>)
               returns (ok: bool, ghost left: set<nat>)
    requires Inv(a) && (file == GPR || file == FPR) && file - a.phiset != {} && blocked <= a.phiset
    requires cyc <= blocked && blocked * file <= cyc && CycAll(a.State(), PhiOf(a), cyc)
    modifies a`ir, a`freeset, a`modset, a`weakset, a`cost, a`evenspill, a`oddspill, a`code
    ensures !ok ==> a.Overflown()
    ensures ok ==>
              Inv(a) && KeptRefs(old(a.State()), a.State()) && Mis(a.State(), PhiOf(a)) <= Mis(old(a.State()), PhiOf(a))
    ensures ok ==> left <= cyc && cyc - file <= left && CycAll(a.State(), PhiOf(a), left)
    ensures ok && blocked * file != {} ==> Ready(a.State(), PhiOf(a))
    ensures ok && blocked * file == {} ==> a.State() == old(a.State())
  {
    ok, left := true, cyc;
    ghost var s0 := a.State();
    NothingChanged(s0, {});
    var candidates := blocked * file;
    if candidates != {} {
      var allow := file - blocked;
      NonEmpty(file, a.phiset, blocked);
      KindOf(file);
      var up;
      ok, up := MakeRoom(a, allow, cyc);
      if !ok {
        return;
      }
      if candidates - blockedby != {} {
        candidates := candidates - blockedby;
      }
      ghost var s1, x :| s1 == a.State() && x in candidates;
      var down := PickTop(candidates);
      BreakAt(a, down, up, cyc);
      KeptThrough(s0, s1, a.State());
      left := OtherFile(cyc, down);
      OthersLeft(s0, PhiOf(a), cyc, file, down);
    }
  }

  lemma KindOf(file: set<nat>)
    requires file == GPR || file == FPR
    ensures forall r {:trigger r in file} :: r in file ==> IsReg(r) && (r < RID_MAX_GPR <==> file == GPR)
  {
    forall r | r in file ensures IsReg(r) && (r < RID_MAX_GPR <==> file == GPR) {
      FileRegs(true, r);
      FileRegs(false, r);
    }
    FileRegs(false, 0);
    FileRegs(true, 0);
  }

  /** Cycles of the other kind are untouched. */
  lemma OthersLeft(s: St, p: Phi, cyc: set<nat>, file: set<nat>, down: nat)
    requires (file == GPR || file == FPR) && down in file && CycAll(s, p, cyc)
    ensures cyc - file <= OtherFile(cyc, down)
  {
    forall r | r in cyc - file ensures r in OtherFile(cyc, down) {
      assert CycAt(s, p, cyc, r);
      FileRegs(true, r);
      FileRegs(false, r);
      FileRegs(true, down);
      FileRegs(false, down);
    }
  }

  lemma NonEmpty(file: set<nat>, phiset: set<nat>, blocked: set<nat>)
    requires file - phiset != {} && blocked <= phiset
    ensures file - blocked != {}
  {
    var x :| x in file - phiset;
    assert x in file - blocked;
  }

  /** Breaks the cycles of either kind. */
  method BreakAll(a: Assembler, blocked: set<nat>, blockedby: set<nat>) returns (ok: bool)
    requires Inv(a) && GPR - a.phiset != {} && FPR - a.phiset != {} && blocked <= a.phiset && blocked != {}
    requires Passed(a.State(), PhiOf(a), {}, blocked) && a.freeset * blocked == {}
    modifies a`ir, a`freeset, a`modset, a`weakset, a`cost, a`evenspill, a`oddspill, a`code
    ensures !ok ==> a.Overflown()
    ensures ok ==>
              Inv(a) && KeptRefs(old(a.State()), a.State()) && Mis(a.State(), PhiOf(a)) <= Mis(old(a.State()), PhiOf(a))
              && Ready(a.State(), PhiOf(a))
  {
    ghost var s0 := a.State();
    AllCycles(s0, PhiOf(a), blocked);
    ghost var cyc, none;
    ok, cyc := Break(a, blocked, blockedby, GPR, blocked);
    if !ok {
      return;
    }
    ghost var s1 := a.State();
    Kinds(s0, PhiOf(a), blocked);
    ok, none := Break(a, blocked, blockedby, FPR, cyc);
    if ok { KeptThrough(s0, s1, a.State()); }
  }

  /** PHI registers are of one kind or the other. */
  lemma Kinds(s: St, p: Phi, blocked: set<nat>)
    requires PhiOk(s, p) && blocked <= p.regs
    ensures blocked * FPR <= blocked - GPR && (blocked != {} ==> blocked * GPR != {} || blocked * FPR != {})
  {
    forall r | r in blocked ensures r in GPR <==> r !in FPR {
      assert PhiAt(s, p, r);
      FileRegs(true, r);
      FileRegs(false, r);
    }
    if blocked != {} {
      var r :| r in blocked;
      assert r in blocked * GPR || r in blocked * FPR;
    }
  }

  /** All PHI registers are settled. */
  ghost predicate AllSettled(s: St, p: Phi) {
    forall r: nat {:trigger Settled(s, p, r)} :: r in p.regs ==> Settled(s, p, r)
  }

  /** asm_phi_shuffle, first part: it ends, and then all PHI registers are settled. */
  method Settle(a: Assembler) returns (ok: bool)
    requires Inv(a) && GPR - a.phiset != {} && FPR - a.phiset != {}
    modifies a`ir, a`freeset, a`modset, a`weakset, a`cost, a`evenspill, a`oddspill, a`code
    ensures !ok ==> a.Overflown()
    ensures ok ==> Inv(a) && KeptRefs(old(a.State()), a.State()) && AllSettled(a.State(), PhiOf(a))
  {
    ghost var s0, p := a.State(), PhiOf(a);
    NothingChanged(s0, {});
    while true
      invariant Inv(a) && KeptRefs(s0, a.State())
      decreases Mis(a.State(), p), if Ready(a.State(), p) then 0 else 1
    {
      ghost var s := a.State();
      var blocked, blockedby;
      ghost var renamed;
      ok, blocked, blockedby, renamed := Pass(a);
      if !ok {
        return;
      }
      ghost var s1 := a.State();
      KeptThrough(s0, s, s1);
      if blocked == {} {
        forall r | r in p.regs ensures Settled(a.State(), p, r) { assert DoneAt(a.State(), p, {}, {}, r); }
        break;
      }
      if a.freeset * blocked == {} {
        ok := BreakAll(a, blocked, blockedby);
        if !ok {
          return;
        }
        KeptThrough(s0, s1, a.State());
      }
    }
  }

  // ---- Registers and slots that the code leaves alone ----

  lemma EffectsTail(code: seq<Op>, modset: set<nat>, saved: map<nat, Slot>)
    requires code != [] && Effects(code, modset, saved)
    ensures Effect(code[0], modset, saved) && Effects(code[1..], modset, saved)
  {
    assert EffectAt(code, modset, saved, 0);
    forall i: nat ensures EffectAt(code[1..], modset, saved, i) { assert EffectAt(code, modset, saved, i + 1); }
  }

  /** A register that does not count as modified keeps its value. */
  lemma {:induction false} RegKept(code: seq<Op>, m: Machine, sem: Sem, modset: set<nat>, saved: map<nat, Slot>, r: nat)
    requires Effects(code, modset, saved) && r !in modset && r in m.regs
    ensures var m' := Execs(code, m, sem);
            r in m'.regs && m'.regs[r] == m.regs[r]
    decreases |code|
  {
    if code != [] {
      EffectsTail(code, modset, saved);
      RegKept(code[1..], Exec(code[0], m, sem), sem, modset, saved, r);
    }
  }

  /** So does a slot that shares no cell with those that were saved. */
  lemma {:induction false} SlotKept(code: seq<Op>, m: Machine, sem: Sem, modset: set<nat>, saved: map<nat, Slot>,
                                    slot: Slot, v: int)
    requires Effects(code, modset, saved) && Stored(m, slot, v)
    requires forall x {:trigger saved[x]} :: x in saved ==> Apart(saved[x], slot)
    ensures Stored(Execs(code, m, sem), slot, v)
    decreases |code|
  {
    if code != [] {
      EffectsTail(code, modset, saved);
      SlotKept(code[1..], Exec(code[0], m, sem), sem, modset, saved, slot, v);
    }
  }

  // ---- Iterations ----

  /** All that makes the code the body of a loop. */
  ghost predicate Looping(s: St, p: Phi, h: set<nat>, code: seq<Op>, modset: set<nat>, saved: map<nat, Slot>,
                          goal: Demand, sems: iset<Sem>) {
    && Consistent(s) && Sound(code, s.(homed := h), map[], goal, sems) && Effects(code, modset, saved)
        && SavedOk(s, saved)
    && PhiOk(s, p) && AllSettled(s, p) && s.outs == map[] && s.gone == {} && s.inherited == map[]
    && (forall r: nat {:trigger KeptAcross(s, p, modset, r)} :: KeptAcross(s, p, modset, r))
    && (forall r: nat {:trigger PhiGoal(s, p, h, goal, r)} :: PhiGoal(s, p, h, goal, r))
    && (forall x: nat {:trigger SavedIn(s, h, saved, x)} :: SavedIn(s, h, saved, x))
  }

  /** Other registers that are in use are not modified in the loop. */
  ghost predicate KeptAcross(s: St, p: Phi, modset: set<nat>, r: nat) {
    IsReg(r) && r !in s.free && r !in p.regs ==> r !in modset
  }

  /** A PHI register ends up with the right operand; the slot of the left one is filled in the loop. */
  ghost predicate PhiGoal(s: St, p: Phi, h: set<nat>, goal: Demand, r: nat) {
    r in p.regs ==> r in goal.regs && r in p.left && p.left[r] in s.ir && (s.ir[p.left[r]].s != 0 ==> p.left[r] in h)
  }

  /** Only slots of the loop's own references are filled in the loop. */
  ghost predicate SavedIn(s: St, h: set<nat>, saved: map<nat, Slot>, x: nat) {
    x in saved ==> x >= s.live || x in h
  }

  /** What references are worth in the next iteration: left operands get the right ones' values, others keep theirs. */
  ghost predicate NextSem(s: St, p: Phi, goal: Demand, sem: Sem, sem': Sem) {
    && (forall r {:trigger r in p.regs} :: r in p.regs && r in goal.regs && r in p.left ==> sem'.val(p.left[r]) == sem.val(goal.regs[r]))
    && (forall x: nat {:trigger sem'.val(x)} :: x < s.live && !IsLeft(p, x) ==> sem'.val(x) == sem.val(x))
  }

  /** What the body finds is what it leaves behind, for the values of the next iteration. */
  lemma NextIteration(s: St, p: Phi, h: set<nat>, code: seq<Op>, modset: set<nat>, saved: map<nat, Slot>, goal: Demand,
                      sems: iset<Sem>, m: Machine, sem: Sem, sem': Sem)
    requires Looping(s, p, h, code, modset, saved, goal, sems) && sem in sems && NextSem(s, p, goal, sem, sem')
    requires Holds(m, Want(s.(homed := h), map[]), sem)
    ensures Holds(Execs(code, m, sem), Want(s.(homed := h), map[]), sem')
  {
    var d, m' := Want(s.(homed := h), map[]), Execs(code, m, sem);
    assert Leads(code, d, goal, sem);
    forall r: nat ensures RegOk(m', d, sem', r) {
      assert RegOk(m, d, sem, r);
      if r in d.regs { NextReg(s, p, h, code, modset, saved, goal, m, sem, sem', r); }
    }
    forall x: nat ensures SlotOk(m', d, sem', x) {
      assert SlotOk(m, d, sem, x);
      if x in d.slots { NextSlot(s, p, h, code, modset, saved, goal, m, sem, sem', x); }
    }
    forall idx: nat ensures OutOk(m', d, sem', idx) { }
  }

  lemma NextReg(s: St, p: Phi, h: set<nat>, code: seq<Op>, modset: set<nat>, saved: map<nat, Slot>, goal: Demand,
                m: Machine, sem: Sem, sem': Sem, r: nat)
    requires Consistent(s) && Effects(code, modset, saved) && PhiOk(s, p) && AllSettled(s, p) && s.gone == {}
               && r in Demanded(s)
    requires KeptAcross(s, p, modset, r) && PhiGoal(s, p, h, goal, r) && NextSem(s, p, goal, sem, sem')
    requires r in m.regs && m.regs[r] == sem.val(Demanded(s)[r]) && Holds(Execs(code, m, sem), goal, sem)
    ensures var m' := Execs(code, m, sem);
            r in m'.regs && m'.regs[r] == sem'.val(Demanded(s)[r])
  {
    var x := Owner(s.cost[r]);
    assert RegEntry(s, r);
    if r in p.regs {
      assert Settled(s, p, r) && PhiAt(s, p, r);
      LocHeld(s, p, r);
      assert RegOk(Execs(code, m, sem), goal, sem, r);
    } else {
      RegKept(code, m, sem, modset, saved, r);
      forall q: nat | q in p.regs && q in p.left ensures p.left[q] != x {
        assert Settled(s, p, q);
      }
    }
  }

  lemma NextSlot(s: St, p: Phi, h: set<nat>, code: seq<Op>, modset: set<nat>, saved: map<nat, Slot>, goal: Demand,
                 m: Machine, sem: Sem, sem': Sem, x: nat)
    requires Consistent(s) && Effects(code, modset, saved) && SavedOk(s, saved) && NextSem(s, p, goal, sem, sem')
    requires forall r: nat {:trigger PhiGoal(s, p, h, goal, r)} :: PhiGoal(s, p, h, goal, r)
    requires forall y: nat {:trigger SavedIn(s, h, saved, y)} :: SavedIn(s, h, saved, y)
    requires x in Spilled(s.(homed := h)) && Stored(m, SlotOf(s.ir[x]), sem.val(x))
    ensures Stored(Execs(code, m, sem), SlotOf(s.ir[x]), sem'.val(x))
  {
    forall q: nat | q in p.regs && q in p.left ensures p.left[q] != x {
      assert PhiGoal(s, p, h, goal, q);
    }
    forall y: nat | y in saved ensures Apart(saved[y], SlotOf(s.ir[x])) {
      assert SavedAt(s, saved, y) && SavedIn(s, h, saved, y) && SpillPair(s, y, x);
    }
    SlotKept(code, m, sem, modset, saved, SlotOf(s.ir[x]), sem.val(x));
  }

  /** The machine after some iterations. */
  function Iterated(code: seq<Op>, m: Machine, sems: seq<Sem>): Machine
    decreases |sems|
  {
    if sems == [] then m else Iterated(code, Execs(code, m, sems[0]), sems[1..])
  }

  /** However often the loop runs, the values of its last iteration are where its next one looks for them. */
  lemma {:induction false} Iterations(s: St, p: Phi, h: set<nat>, code: seq<Op>, modset: set<nat>,
                                      saved: map<nat, Slot>, goal: Demand, sems: iset<Sem>, m: Machine, vals: seq<Sem>)
    requires Looping(s, p, h, code, modset, saved, goal, sems) && vals != []
               && Holds(m, Want(s.(homed := h), map[]), vals[0])
    requires forall i {:trigger vals[i]} ::
               0 <= i < |vals| - 1 ==> vals[i] in sems && NextSem(s, p, goal, vals[i], vals[i + 1])
    ensures Holds(Iterated(code, m, vals[..|vals| - 1]), Want(s.(homed := h), map[]), vals[|vals| - 1])
    decreases |vals|
  {
    if |vals| > 1 {
      var m', rest := Execs(code, m, vals[0]), vals[1..];
      NextIteration(s, p, h, code, modset, saved, goal, sems, m, vals[0], vals[1]);
      Iterations(s, p, h, code, modset, saved, goal, sems, m', rest);
      assert vals[..|vals| - 1][1..] == rest[..|rest| - 1];
    }
  }

  // ---- The rest of the shuffle ----

  lemma RestoredSettled(s: St, s': St, p: Phi, regs: set<nat>)
    requires Consistent(s) && PhiOk(s, p) && AllSettled(s, p) && Kept(s, s') && Stays(s, s', regs)
               && s'.free == s.free + regs && regs !! p.regs
    ensures PhiOk(s', p) && AllSettled(s', p)
  {
    PhiKept(s, s', p);
    forall r | r in p.regs ensures Settled(s', p, r) {
      assert Settled(s, p, r) && PhiAt(s, p, r);
      assert StaysRef(s, s', regs, p.left[r]) && NoneNew(s, s', p.left[r]);
    }
  }

  /** Restores the invariants in registers that the loop modifies. */
  method RestoreInvariants(a: Assembler) returns (ok: bool)
    requires Inv(a) && AllSettled(a.State(), PhiOf(a))
    modifies a`ir, a`freeset, a`modset, a`evenspill, a`oddspill, a`code
    ensures !ok ==> a.Overflown()
    ensures ok ==> Inv(a) && AllSettled(a.State(), PhiOf(a)) && KeptRefs(old(a.State()), a.State())
    ensures ok ==> forall r: nat {:trigger KeptAcross(a.State(), PhiOf(a), a.modset, r)} ::
              KeptAcross(a.State(), PhiOf(a), a.modset, r)
  {
    ghost var s0, p := a.State(), PhiOf(a);
    var work := (a.modset - (a.freeset + a.phiset)) * FPR;
    ok := a.RestoreAll(work);
    if !ok {
      return;
    }
    RestoredSettled(s0, a.State(), p, work);
    ghost var s1 := a.State();
    work := a.modset - (a.freeset + a.phiset);
    ok := a.RestoreAll(work);
    if ok {
      RestoredSettled(s1, a.State(), p, work);
      KeptThrough(s0, s1, a.State());
      forall r: nat ensures KeptAcross(a.State(), p, a.modset, r) { }
    }
  }

  /** What is kept while the PHI registers are saved: left operands may get their own registers. */
  ghost predicate Saving(a: Assembler, p: Phi)
    reads a
  {
    && a.Sane(map[]) && a.Tracked() && a.gone == {} && a.inherited == map[]
    && PhiOk(a.State(), p) && AllSettled(a.State(), p)
  }

  lemma AllocSettled(s: St, s': St, p: Phi, r: nat)
    requires Consistent(s) && PhiOk(s, p) && AllSettled(s, p) && r in p.regs && r in p.left
               && Took(s, s', p.left[r], {r}) && s'.free == s.free - {r}
    requires p.left[r] in s'.ir && s'.ir[p.left[r]].r == r
    ensures PhiOk(s', p) && AllSettled(s', p)
  {
    PhiKept(s, s', p);
    forall q | q in p.regs ensures Settled(s', p, q) {
      assert Settled(s, p, q) && PhiAt(s, p, q) && PhiPair(p, q, r) && PhiAt(s, p, r);
      assert TookRef(s, s', p.left[r], {r}, p.left[q]);
    }
  }

  /** A spilled left operand gets its PHI register, and is saved to its slot inside the loop. */
  method SaveLeft(a: Assembler, r: nat, ghost p: Phi) returns (ok: bool)
    requires Saving(a, p) && r in p.regs && r in p.left && r in a.phireg && a.phireg[r] == p.left[r]
               && p.left[r] in a.ir && a.ir[p.left[r]].s != 0 && p.left[r] !in a.homed
    modifies a`ir, a`freeset, a`modset, a`weakset, a`cost, a`evenspill, a`oddspill, a`code, a`saved, a`homed
    ensures !ok ==> a.Overflown()
    ensures ok ==>
              Saving(a, p) && a.homed == old(a.homed) + {p.left[r]} && a.modset == old(a.modset)
              && a.freeset == old(a.freeset) - {r}
    ensures ok ==>
              KeptRefs(old(a.State()), a.State()) && KeptSlots(old(a.State()), a.State())
              && a.saved.Keys == old(a.saved.Keys) + {p.left[r]}
  {
    ghost var s := a.State();
    assert Settled(s, p, r) && PhiAt(s, p, r);
    FileRegs(a.ir[p.left[r]].fp, r);
    var lref := a.phireg[r];
    var q;
    ok, q := a.Alloc1(lref, {r}, map[]);
    if !ok {
      return;
    }
    AllocSettled(s, a.State(), p, r);
    ghost var s1 := a.State();
    assert KeptRef(s, s1, lref);
    SaveHome(a, lref, r, p);
    KeptThrough(s, s1, a.State());
  }

  method SaveHome(a: Assembler, lref: nat, r: nat, ghost p: Phi)
    requires Saving(a, p) && lref in a.ir && lref < a.live && a.ir[lref].s != 0 && HasReg(a.ir[lref].r)
               && a.ir[lref].r == r && r !in a.weakset
    modifies a`code, a`saved, a`homed
    ensures Saving(a, p) && a.homed == old(a.homed) + {lref} && a.saved == old(a.saved)[lref := SlotOf(a.ir[lref])]
    ensures KeptRefs(old(a.State()), a.State())
  {
    ghost var s := a.State();
    HomeOk(s, a.code, map[], a.goal, a.sems, lref, r);
    assert SavedAt(s, a.saved, lref);
    EffectsSaved(r, a.code, a.modset, a.saved, lref, SlotOf(a.ir[lref]));
    SavedMore(s, a.saved, lref);
    a.Save(lref, r);
    a.homed := a.homed + {lref};
    ghost var s' := a.State();
    forall x: nat ensures SavedAt(s', a.saved, x) && KeptRef(s, s', x) { assert SavedAt(s, a.saved, x); }
    forall q: nat ensures PhiAt(s', p, q) { assert PhiAt(s, p, q); }
    forall q | q in p.regs ensures Settled(s', p, q) { assert Settled(s, p, q); }
  }

  /** Of the PHI registers outside of work, spilled left operands are homed, and no others. */
  ghost predicate HomedAt(s: St, p: Phi, work: set<nat>, r: nat) {
    r in p.regs && r in p.left && p.left[r] in s.ir ==>
      (p.left[r] in s.homed <==> r !in work && s.ir[p.left[r]].s != 0)
  }

  ghost predicate HomedOk(s: St, p: Phi, work: set<nat>) {
    && (forall r: nat {:trigger HomedAt(s, p, work, r)} :: HomedAt(s, p, work, r))
    && (forall x: nat {:trigger IsLeft(p, x)} :: x in s.homed ==> IsLeft(p, x))
  }

  lemma HomedNext(s: St, s': St, p: Phi, work: set<nat>, r: nat)
    requires PhiOk(s, p) && HomedOk(s, p, work) && KeptSlots(s, s') && r in work && r in p.regs && r in p.left
               && p.left[r] in s.ir
    requires s'.homed == s.homed + if s.ir[p.left[r]].s != 0 then {p.left[r]} else {}
    ensures HomedOk(s', p, work - {r})
  {
    forall q: nat ensures HomedAt(s', p, work - {r}, q) { assert HomedAt(s, p, work, q) && PhiPair(p, q, r); }
    assert IsLeft(p, p.left[r]);
  }

  /** One PHI register: its left operand, if spilled, is saved. */
  method SaveOne(a: Assembler, r: nat, ghost p: Phi, ghost work: set<nat>) returns (ok: bool)
    requires Saving(a, p) && HomedOk(a.State(), p, work) && r in work && r in p.regs && r in p.left && r in a.phireg
               && a.phireg[r] == p.left[r]
    modifies a`ir, a`freeset, a`modset, a`weakset, a`cost, a`evenspill, a`oddspill, a`code, a`saved, a`homed, a`marks
    ensures !ok ==> a.Overflown()
    ensures ok ==>
              Saving(a, p) && HomedOk(a.State(), p, work - {r}) && a.modset == old(a.modset)
              && KeptRefs(old(a.State()), a.State())
    ensures ok ==> old(a.freeset) - {r} <= a.freeset <= old(a.freeset) && a.homed >= old(a.homed) && forall x ::
              x in a.saved ==> x in old(a.saved) || x in a.homed
  {
    ok := true;
    ghost var s := a.State();
    assert PhiAt(s, p, r) && HomedAt(s, p, work, r);
    NothingChanged(s, {});
    var lref := a.phireg[r];
    if a.ir[lref].s != 0 {
      a.marks := a.marks - {lref};
      ok := SaveLeft(a, r, p);
    }
    if ok { HomedNext(s, a.State(), p, work, r); }
  }

  /** Saves all spilled left operands, and clears their marks. */
  method SaveAll(a: Assembler) returns (ok: bool)
    requires Inv(a) && AllSettled(a.State(), PhiOf(a))
    modifies a`ir, a`freeset, a`modset, a`weakset, a`cost, a`evenspill, a`oddspill, a`code, a`saved, a`homed, a`marks
    ensures !ok ==> a.Overflown()
    ensures ok ==>
              Saving(a, old(PhiOf(a))) && HomedOk(a.State(), old(PhiOf(a)), {}) && a.modset == old(a.modset)
              && KeptRefs(old(a.State()), a.State())
    ensures ok ==>
              old(a.freeset) - a.phiset <= a.freeset <= old(a.freeset) && forall x ::
                x in a.saved ==> x in old(a.saved) || x in a.homed
  {
    ok := true;
    ghost var s0, p := a.State(), PhiOf(a);
    NothingChanged(s0, {});
    var work := a.phiset;
    SaveStart(s0, p);
    while work != {}
      invariant work <= a.phiset && ok && Saving(a, p) && HomedOk(a.State(), p, work) && a.modset == old(a.modset)
                  && KeptRefs(s0, a.State())
      invariant old(a.freeset) - a.phiset <= a.freeset <= old(a.freeset) && forall x ::
                  x in a.saved ==> x in old(a.saved) || x in a.homed
      decreases work
    {
      ghost var x :| x in work;
      ghost var s := a.State();
      forall q | q in work ensures q < RID_MAX { assert PhiAt(s, p, q); }
      var r := PickTop(work);
      assert PhiAt(s, p, r);
      ok := SaveOne(a, r, p, work);
      if !ok {
        return;
      }
      KeptThrough(s0, s, a.State());
      work := work - {r};
    }
  }

  lemma SaveStart(s: St, p: Phi)
    requires PhiOk(s, p) && s.homed == {}
    ensures HomedOk(s, p, p.regs)
  {
    forall r: nat ensures HomedAt(s, p, p.regs, r) { }
  }

  /** Past the shuffle, the slots of the left operands are filled outside of the loop as well. */
  lemma Unhome(s: St, h: set<nat>, code: seq<Op>, goal: Demand, sems: iset<Sem>, saved: map<nat, Slot>, p: Phi)
    requires Core(s, code, map[], goal, sems) && s.homed == h && SavedOk(s, saved) && PhiOk(s, p) && AllSettled(s, p)
    ensures var s' := s.(homed := {});
            && Core(s', code, map[], goal, sems) && SavedOk(s', saved) && PhiOk(s', p) && AllSettled(s', p)
                && KeptRefs(s, s')
            && s'.(homed := h) == s
  {
    var s' := s.(homed := {});
    forall q: nat ensures RegEntry(s', q) && RefEntry(s', q) && SavedAt(s', saved, q) && PhiAt(s', p, q)
        && KeptRef(s, s', q) {
      assert RegEntry(s, q) && RefEntry(s, q) && SavedAt(s, saved, q) && PhiAt(s, p, q);
    }
    SameSlots(s, s');
    forall q | q in p.regs ensures Settled(s', p, q) { assert Settled(s, p, q); }
    AllStronger(code, Want(s, map[]), Want(s', map[]), goal, sems);
  }

  /** asm_phi_shuffle: afterwards the code is the body of a loop. */
  method PhiShuffle(a: Assembler) returns (ok: bool, ghost h: set<nat>)
    requires Inv(a) && GPR - a.phiset != {} && FPR - a.phiset != {} && a.outs == map[] && a.phiset <= a.goal.regs.Keys
    requires forall x :: x in a.saved ==> x >= a.live
    modifies a`ir, a`freeset, a`modset, a`weakset, a`cost, a`evenspill, a`oddspill, a`code, a`saved, a`homed, a`marks
    ensures !ok ==> a.Overflown()
    ensures ok ==>
              a.Valid(map[]) && Looping(a.State(), old(PhiOf(a)), h, a.code, a.modset, a.saved, a.goal, a.sems)
              && KeptRefs(old(a.State()), a.State())
  {
    h := {};
    ghost var s0, p := a.State(), PhiOf(a);
    ok := Settle(a);
    if !ok {
      return;
    }
    ghost var s1 := a.State();
    ok := RestoreInvariants(a);
    if !ok {
      return;
    }
    ghost var s2 := a.State();
    KeptThrough(s0, s1, s2);
    ok := SaveAll(a);
    if ok {
      h := a.homed;
      ghost var s3 := a.State();
      KeptThrough(s0, s2, s3);
      Unhome(s3, h, a.code, a.goal, a.sems, a.saved, p);
      a.homed := {};
      KeptThrough(s0, s3, a.State());
      NowLooping(s2, a.State(), p, h, a.code, a.modset, a.saved, a.goal, a.sems);
    }
  }

  lemma NowLooping(s2: St, s: St, p: Phi, h: set<nat>, code: seq<Op>, modset: set<nat>, saved: map<nat, Slot>,
                   goal: Demand, sems: iset<Sem>)
    requires Core(s, code, map[], goal, sems) && Sound(code, s.(homed := h), map[], goal, sems)
               && Effects(code, modset, saved) && SavedOk(s, saved)
    requires PhiOk(s, p) && AllSettled(s, p) && s.outs == map[] && s.gone == {} && s.inherited == map[]
    requires HomedOk(s.(homed := h), p, {}) && p.regs <= goal.regs.Keys && s2.free - p.regs <= s.free
    requires forall r: nat {:trigger KeptAcross(s2, p, modset, r)} :: KeptAcross(s2, p, modset, r)
    requires forall x {:trigger x in saved} :: x in saved ==> x >= s.live || x in h
    ensures Looping(s, p, h, code, modset, saved, goal, sems)
  {
    forall r: nat ensures KeptAcross(s, p, modset, r) && PhiGoal(s, p, h, goal, r) && SavedIn(s, h, saved, r) {
      assert KeptAcross(s2, p, modset, r) && PhiAt(s, p, r) && HomedAt(s.(homed := h), p, {}, r);
    }
  }

  // ---- PHIs at the end of the body ----

  /** One more register that must hold a reference in the end. */
  function MoreGoal(goal: Demand, r: nat, ref: nat): Demand {
    goal.(regs := goal.regs[r := ref])
  }

  lemma HoldsMore(m: Machine, goal: Demand, sem: Sem, r: nat, ref: nat)
    requires Holds(m, goal, sem) && r in m.regs && m.regs[r] == sem.val(ref)
    ensures Holds(m, MoreGoal(goal, r, ref), sem)
  {
    var d := MoreGoal(goal, r, ref);
    forall q: nat ensures RegOk(m, d, sem, q) { assert RegOk(m, goal, sem, q); }
    forall x: nat ensures SlotOk(m, d, sem, x) && OutOk(m, d, sem, x) {
      assert SlotOk(m, goal, sem, x) && OutOk(m, goal, sem, x);
    }
  }

  /** A register that the code does not write still holds its reference in the end. */
  lemma GoalAlloc(code: seq<Op>, s: St, goal: Demand, sems: iset<Sem>, w: set<nat>, r: nat, ref: nat)
    requires Sound(code, s, map[], goal, sems) && Effects(code, w, map[]) && r !in w && r in Demanded(s)
               && Demanded(s)[r] == ref
    ensures Sound(code, s, map[], MoreGoal(goal, r, ref), sems)
  {
    var d := Want(s, map[]);
    forall sem | sem in sems ensures Leads(code, d, MoreGoal(goal, r, ref), sem) {
      forall m | Holds(m, d, sem) ensures Holds(Execs(code, m, sem), MoreGoal(goal, r, ref), sem) {
        assert Leads(code, d, goal, sem) && RegOk(m, d, sem, r);
        RegKept(code, m, sem, w, map[], r);
        HoldsMore(Execs(code, m, sem), goal, sem, r, ref);
      }
    }
  }

  /** So does one that is a copy. */
  lemma GoalCopy(code: seq<Op>, s: St, goal: Demand, sems: iset<Sem>, w: set<nat>, r: nat, q: nat, ref: nat)
    requires Sound(code, s, map[], goal, sems) && Effects(code, w, map[]) && r !in w && r !in Demanded(s)
               && q in Demanded(s) && Demanded(s)[q] == ref
    ensures Sound([Mov(r, q)] + code, s, map[], MoreGoal(goal, r, ref), sems)
  {
    var d := Want(s, map[]);
    forall sem | sem in sems ensures Leads([Mov(r, q)] + code, d, MoreGoal(goal, r, ref), sem) {
      forall m | Holds(m, d, sem) ensures Holds(Execs([Mov(r, q)] + code, m, sem), MoreGoal(goal, r, ref), sem) {
        var m1 := Exec(Mov(r, q), m, sem);
        assert ([Mov(r, q)] + code)[1..] == code;
        assert RegOk(m, d, sem, q);
        MovStep(r, q, d, d, sem);
        assert Leads(code, d, goal, sem) && Holds(m1, d, sem);
        RegKept(code, m1, sem, w, map[], r);
        HoldsMore(Execs(code, m1, sem), goal, sem, r, ref);
      }
    }
  }

  /** Only PHI registers are in use, and the code writes no others. */
  ghost predicate InTail(a: Assembler)
    reads a
  {
    Inv(a) && Tail(a, a.phiset)
  }

  ghost predicate Tail(a: Assembler, phis: set<nat>)
    reads a
  {
    && a.saved == map[] && a.outs == map[] && a.weakset == {} && Effects(a.code, phis, map[])
        && phis == a.goal.regs.Keys
    && (forall r: nat {:trigger InUse(a.freeset, phis, r)} :: InUse(a.freeset, phis, r))
    && GPR - phis != {} && FPR - phis != {}
  }

  predicate InUse(free: set<nat>, phis: set<nat>, r: nat) {
    IsReg(r) && r !in free ==> r in phis
  }

  /** The right operand of a PHI gets its register. */
  method PhiAlloc(a: Assembler, rref: nat, allow: set<nat>) returns (ok: bool, r: nat)
    requires InTail(a) && rref in a.ir && rref < a.live && allow == File(a.ir[rref].fp) - a.phiset
               && |a.freeset * allow| >= 2 && !HasReg(a.ir[rref].r)
    modifies a`ir, a`freeset, a`modset, a`weakset, a`cost, a`evenspill, a`oddspill, a`code, a`goal
    ensures !ok ==> a.Overflown()
    ensures r in allow && IsReg(r)
    ensures ok ==>
              a.Valid(map[]) && KeptRefs(old(a.State()), a.State()) && Tail(a, a.phiset + {r})
              && a.goal == MoreGoal(old(a.goal), r, rref)
  {
    ghost var s := a.State();
    AllFree(a, allow, rref);
    TwoFree(a.freeset * allow);
    ok, r := a.AllocRef(rref, allow, map[]);
    if ok {
      GoalAlloc(a.code, a.State(), a.goal, a.sems, a.phiset, r, rref);
      EffectsSame(a.code, a.phiset, {r}, map[]);
      a.goal := MoreGoal(a.goal, r, rref);
      TailMore(a, s.free, r, allow);
    }
  }

  /** A right operand that has a register already is copied. */
  method PhiCopy(a: Assembler, rref: nat, allow: set<nat>) returns (ok: bool, r: nat)
    requires InTail(a) && rref in a.ir && rref < a.live && allow == File(a.ir[rref].fp) - a.phiset
               && |a.freeset * allow| >= 2 && HasReg(a.ir[rref].r)
    modifies a`ir, a`freeset, a`modset, a`evenspill, a`oddspill, a`code, a`goal
    ensures !ok ==> a.Overflown()
    ensures r in allow && IsReg(r)
    ensures ok ==>
              a.Valid(map[]) && KeptRefs(old(a.State()), a.State()) && Tail(a, a.phiset + {r})
              && a.goal == MoreGoal(old(a.goal), r, rref)
  {
    ghost var s := a.State();
    AllFree(a, allow, rref);
    TwoFree(a.freeset * allow);
    ok, r := a.Scratch(allow, map[]);
    if ok {
      assert RefEntry(s, rref);
      var q := a.ir[rref].r;
      GoalCopy(a.code, s, a.goal, a.sems, a.phiset, r, q, rref);
      EffectsMore(Mov(r, q), a.code, a.phiset, {r}, map[]);
      EffectsMore(Mov(r, q), a.code, a.modset, {}, a.saved);
      assert a.modset + {} == a.modset;
      a.code := [Mov(r, q)] + a.code;
      a.goal := MoreGoal(a.goal, r, rref);
      TailMore(a, s.free, r, allow);
    }
  }

  lemma TailMore(a: Assembler, free: set<nat>, r: nat, allow: set<nat>)
    requires a.saved == map[] && a.outs == map[] && a.weakset == {} && Effects(a.code, a.phiset + {r}, map[])
               && a.phiset + {r} == a.goal.regs.Keys
    requires free - {r} <= a.freeset && forall q: nat {:trigger InUse(free, a.phiset, q)} :: InUse(free, a.phiset, q)
    requires |free * allow| >= 2 && (allow == GPR - a.phiset || allow == FPR - a.phiset) && r in allow
               && GPR - a.phiset != {} && FPR - a.phiset != {}
    ensures Tail(a, a.phiset + {r})
  {
    StillFree(free * allow, r, a.phiset, allow);
    forall q: nat ensures InUse(a.freeset, a.phiset + {r}, q) { assert InUse(free, a.phiset, q); }
  }

  lemma AllFree(a: Assembler, allow: set<nat>, rref: nat)
    requires InTail(a) && rref in a.ir && allow == File(a.ir[rref].fp) - a.phiset
    ensures allow <= a.freeset && AreRegs(allow)
  {
    forall r | r in allow ensures r in a.freeset && IsReg(r) {
      FileRegs(a.ir[rref].fp, r);
      assert InUse(a.freeset, a.phiset, r);
    }
  }

  /** A PHI register gets a left operand of the same kind, which has no other one. */
  lemma PhiMore(s: St, p: Phi, r: nat, lref: nat)
    requires PhiOk(s, p) && IsReg(r) && r !in p.regs && !IsLeft(p, lref) && lref in s.ir && REF_BASE < lref < s.live
               && (s.ir[lref].fp <==> r >= RID_MAX_GPR)
    ensures PhiOk(s, Phi(p.regs + {r}, p.left[r := lref], p.marks + {lref}))
    ensures IsLeft(Phi(p.regs + {r}, p.left[r := lref], p.marks + {lref}), lref)
  {
    var p' := Phi(p.regs + {r}, p.left[r := lref], p.marks + {lref});
    forall q: nat ensures PhiAt(s, p', q) { assert PhiAt(s, p, q); }
    forall a: nat, b: nat ensures PhiPair(p', a, b) { assert PhiPair(p, a, b) && PhiAt(s, p, a) && PhiAt(s, p, b); }
    assert r in p'.regs;
    forall x: nat | x in p'.marks ensures IsLeft(p', x) {
      if x != lref {
        assert IsLeft(p, x);
        var q: nat :| q in p.regs && q in p.left && p.left[q] == x;
        assert q in p'.regs && p'.left[q] == x;
      }
    }
  }

  /** A hint for a left operand without a register. */
  method SetHint(a: Assembler, lref: nat, r: nat)
    requires InTail(a) && lref in a.ir && !HasReg(a.ir[lref].r)
    modifies a`ir
    ensures InTail(a) && KeptRefs(old(a.State()), a.State())
  {
    ghost var s := a.State();
    HintOk(s, a.code, map[], a.goal, a.sems, lref, RID_NONE + r);
    a.ir := a.ir[lref := a.ir[lref].(r := RID_NONE + r)];
    ghost var s' := a.State();
    HintKept(s, lref, RID_NONE + r);
    PhiKept(s, s', PhiOf(a));
  }

  lemma HintKept(s: St, ref: nat, hint: nat)
    requires ref in s.ir
    ensures var s' := s.(ir := s.ir[ref := s.ir[ref].(r := hint)]);
            KeptRefs(s, s') && SavedOk(s', map[])
  {
    var s' := s.(ir := s.ir[ref := s.ir[ref].(r := hint)]);
    forall x: nat ensures KeptRef(s, s', x) && SavedAt(s', map[], x) { }
  }

  /** Fewer than two registers of that file are free. */
  ghost predicate FewRegisters(a: Assembler, rref: nat)
    reads a
  {
    rref in a.ir && |a.freeset * (File(a.ir[rref].fp) - a.phiset)| < 2
  }

  /** asm_phi would have to use a spill slot. */
  ghost predicate NoPhiRegister(a: Assembler, lref: nat, rref: nat)
    reads a
  {
    Consistent(a.State()) && lref in a.ir && rref in a.ir && (a.ir[lref].s != 0 || a.ir[rref].s != 0 || FewRegisters(a, rref))
  }

  /** asm_phi, where a register is left for it; with none left, asm_phi uses a spill slot instead. */
  method PhiSetup(a: Assembler, lref: nat, rref: nat) returns (ok: bool, r: nat)
    requires InTail(a) && lref in a.ir && rref in a.ir && REF_BASE < lref < a.live && rref < a.live
               && a.ir[lref].fp == a.ir[rref].fp
    requires !IsLeft(PhiOf(a), lref)
    modifies a`ir, a`freeset, a`modset, a`weakset, a`cost, a`evenspill, a`oddspill, a`code, a`goal, a`phiset, a`phireg,
        a`marks
    ensures !ok ==> a.Overflown() || NoPhiRegister(a, lref, rref)
    ensures ok ==> InTail(a) && KeptRefs(old(a.State()), a.State())
    ensures ok ==>
              r !in old(a.phiset) && a.phiset == old(a.phiset) + {r} && a.phireg == old(a.phireg)[r := lref]
              && a.goal == MoreGoal(old(a.goal), r, rref)
  {
    r := 0;
    if a.ir[lref].s != 0 || a.ir[rref].s != 0 {
      return false, r;
    }
    ghost var s := a.State();
    ok, r := PhiPick(a, rref);
    if !ok {
      return;
    }
    ghost var s1 := a.State();
    assert KeptRef(s, s1, lref);
    PhiKept(s, s1, PhiOf(a));
    PhiRest(a, lref, rref, r);
    KeptThrough(s, s1, a.State());
  }

  /** A register for the right operand of a PHI, if at least two are free. */
  method PhiPick(a: Assembler, rref: nat) returns (ok: bool, r: nat)
    requires InTail(a) && rref in a.ir && rref < a.live
    modifies a`ir, a`freeset, a`modset, a`weakset, a`cost, a`evenspill, a`oddspill, a`code, a`goal
    ensures !ok ==> a.Overflown() || (FewRegisters(a, rref) && a.State() == old(a.State()))
    ensures ok ==>
              a.Valid(map[]) && KeptRefs(old(a.State()), a.State()) && Tail(a, a.phiset + {r})
              && a.goal == MoreGoal(old(a.goal), r, rref)
    ensures ok ==> r in File(old(a.ir[rref].fp)) && r !in a.phiset
  {
    var allow := File(a.ir[rref].fp) - a.phiset;
    if |a.freeset * allow| < 2 {
      return false, 0;
    }
    if !HasReg(a.ir[rref].r) {
      ok, r := PhiAlloc(a, rref, allow);
    } else {
      ok, r := PhiCopy(a, rref, allow);
    }
  }

  method PhiRest(a: Assembler, lref: nat, ghost rref: nat, r: nat)
    requires Inv(a) && lref in a.ir && REF_BASE < lref < a.live && !IsLeft(PhiOf(a), lref) && r in File(a.ir[lref].fp)
               && r !in a.phiset
    requires Tail(a, a.phiset + {r})
    modifies a`phiset, a`phireg, a`marks, a`ir
    ensures InTail(a) && a.phiset == old(a.phiset) + {r} && a.phireg == old(a.phireg)[r := lref]
              && KeptRefs(old(a.State()), a.State())
  {
    ghost var s := a.State();
    NothingChanged(s, {});
    PhiEnter(a, lref, rref, r);
    if !HasReg(a.ir[lref].r) {
      SetHint(a, lref, r);
    }
  }

  method PhiEnter(a: Assembler, lref: nat, ghost rref: nat, r: nat)
    requires Inv(a) && lref in a.ir && REF_BASE < lref < a.live && !IsLeft(PhiOf(a), lref) && r in File(a.ir[lref].fp)
               && r !in a.phiset
    requires Tail(a, a.phiset + {r})
    modifies a`phiset, a`phireg, a`marks
    ensures InTail(a) && a.phiset == old(a.phiset) + {r} && a.phireg == old(a.phireg)[r := lref]
  {
    FileRegs(a.ir[lref].fp, r);
    PhiMore(a.State(), PhiOf(a), r, lref);
    a.phiset := a.phiset + {r};
    a.phireg := a.phireg[r := lref];
    a.marks := a.marks + {lref};
  }

  lemma TwoFree(rs: set<nat>)
    requires |rs| >= 2
    ensures rs != {} && forall r :: rs - {r} != {}
  {
    forall r ensures rs - {r} != {} {
      if rs - {r} == {} {
        assert rs <= {r};
        SubsetSize(rs, {r});
      }
    }
  }

  lemma {:induction false} SubsetSize(a: set<nat>, b: set<nat>)
    requires a <= b
    ensures |a| <= |b|
    decreases |a|
  {
    if a != {} {
      var x :| x in a;
      SubsetSize(a - {x}, b - {x});
    }
  }

  /** At least one register of each kind is never allocated to a PHI. */
  lemma StillFree(afree: set<nat>, r: nat, phiset: set<nat>, allow: set<nat>)
    requires |afree| >= 2 && afree <= allow && (allow == GPR - phiset || allow == FPR - phiset) && r in allow
    requires GPR - phiset != {} && FPR - phiset != {}
    ensures GPR - (phiset + {r}) != {} && FPR - (phiset + {r}) != {}
  {
    TwoFree(afree);
    var x :| x in afree - {r};
    var g, f :| g in GPR - phiset && f in FPR - phiset;
    FileRegs(true, x);
    FileRegs(false, x);
    FileRegs(true, r);
    FileRegs(false, r);
    FileRegs(true, f);
    FileRegs(false, g);
    assert if x < RID_MAX_GPR then x in GPR - (phiset + {r}) && f in FPR - (phiset + {r}) else g in GPR - (phiset + {r}) && x in FPR - (phiset + {r});
  }

  // ---- The loop as a whole ----

  /** PHIs with left operands from outside the loop, each with one PHI only. */
  ghost predicate PhisOk(ir: map<nat, Ins>, phis: seq<(nat, nat)>, loopref: nat, last: nat) {
    && (forall i {:trigger phis[i]} :: 0 <= i < |phis| ==>
          && phis[i].0 in ir && phis[i].1 in ir && REF_BASE < phis[i].0 <= loopref && phis[i].1 <= last
          && ir[phis[i].0].fp == ir[phis[i].1].fp)
    && (forall i, j {:trigger phis[i], phis[j]} :: 0 <= i < j < |phis| ==> phis[i].0 != phis[j].0)
  }

  predicate IsPhi(phis: seq<(nat, nat)>, n: nat, left: nat, right: nat) {
    exists i {:trigger phis[i]} :: n <= i < |phis| && phis[i] == (left, right)
  }

  /** A PHI register is that of some PHI from n on. */
  ghost predicate RegDone(p: Phi, goal: Demand, phis: seq<(nat, nat)>, n: nat, r: nat) {
    r in p.regs ==> r in p.left && r in goal.regs && IsPhi(phis, n, p.left[r], goal.regs[r])
  }

  /** The PHIs from n on have their registers. */
  ghost predicate PhisDone(p: Phi, goal: Demand, phis: seq<(nat, nat)>, n: nat) {
    && (forall r: nat {:trigger RegDone(p, goal, phis, n, r)} :: RegDone(p, goal, phis, n, r))
    && (forall i: nat {:trigger phis[i]} :: n <= i < |phis| ==> IsLeft(p, phis[i].0))
  }

  /** All PHIs, from the last one to the first. */
  method Phis(a: Assembler, phis: seq<(nat, nat)>, ghost loopref: nat) returns (ok: bool)
    requires InTail(a) && a.phiset == {} && a.live > loopref && PhisOk(a.ir, phis, loopref, a.live - 1)
    modifies a`ir, a`freeset, a`modset, a`weakset, a`cost, a`evenspill, a`oddspill, a`code, a`goal, a`phiset, a`phireg,
        a`marks
    ensures !ok ==> a.Overflown() ||
                    exists i {:trigger phis[i]} :: 0 <= i < |phis| && NoPhiRegister(a, phis[i].0, phis[i].1)
    ensures ok ==> InTail(a) && KeptRefs(old(a.State()), a.State()) && PhisDone(PhiOf(a), a.goal, phis, 0)
  {
    ok := true;
    ghost var s0 := a.State();
    NothingChanged(s0, {});
    var n: nat := |phis|;
    while n > 0
      invariant n <= |phis| && ok && InTail(a) && KeptRefs(s0, a.State()) && PhisDone(PhiOf(a), a.goal, phis, n)
    {
      ghost var s, p, g := a.State(), PhiOf(a), a.goal;
      var i := n - 1;
      assert KeptRef(s0, s, phis[i].0) && KeptRef(s0, s, phis[i].1);
      NotYet(p, g, phis, i, s0.ir, loopref, s0.live - 1);
      var r;
      ok, r := PhiSetup(a, phis[i].0, phis[i].1);
      if !ok {
        return;
      }
      KeptThrough(s0, s, a.State());
      PhisNext(p, PhiOf(a), g, a.goal, phis, i, r);
      n := i;
    }
  }

  lemma NotYet(p: Phi, goal: Demand, phis: seq<(nat, nat)>, n: nat, ir: map<nat, Ins>, loopref: nat, last: nat)
    requires n < |phis| && PhisDone(p, goal, phis, n + 1) && PhisOk(ir, phis, loopref, last)
    ensures !IsLeft(p, phis[n].0)
  {
    forall r: nat | r in p.regs && r in p.left ensures p.left[r] != phis[n].0 {
      assert RegDone(p, goal, phis, n + 1, r);
      var i :| n + 1 <= i < |phis| && phis[i] == (p.left[r], goal.regs[r]);
      assert phis[n].0 != phis[i].0;
    }
  }

  lemma PhisNext(p: Phi, p': Phi, goal: Demand, goal': Demand, phis: seq<(nat, nat)>, n: nat, r: nat)
    requires n < |phis| && PhisDone(p, goal, phis, n + 1) && r !in p.regs
    requires p'.regs == p.regs + {r} && p'.left == p.left[r := phis[n].0] && goal' == MoreGoal(goal, r, phis[n].1)
    ensures PhisDone(p', goal', phis, n)
  {
    assert phis[n] == (phis[n].0, phis[n].1);
    forall q: nat ensures RegDone(p', goal', phis, n, q) {
      assert RegDone(p, goal, phis, n + 1, q);
      if q in p.regs {
        var i :| n + 1 <= i < |phis| && phis[i] == (p.left[q], goal.regs[q]);
        assert phis[i] == (p'.left[q], goal'.regs[q]);
      }
    }
    forall i: nat | n <= i < |phis| ensures IsLeft(p', phis[i].0) {
      if i == n {
        assert r in p'.regs;
      } else {
        assert IsLeft(p, phis[i].0);
        var q: nat :| q in p.regs && q in p.left && p.left[q] == phis[i].0;
        assert q in p'.regs;
      }
    }
  }

  lemma TailStart(a: Assembler)
    requires a.Valid(map[]) && a.code == [] && a.freeset == FPR + GPR && a.phiset == {} && a.marks == {}
               && a.weakset == {}
    requires a.saved == map[] && a.outs == map[] && a.goal == Demand(map[], map[], map[])
    ensures InTail(a)
  {
    var s, p := a.State(), PhiOf(a);
    forall r: nat ensures PhiAt(s, p, r) && InUse(a.freeset, {}, r) { FileRegs(true, r); FileRegs(false, r); }
    forall x: nat, y: nat ensures PhiPair(p, x, y) { }
    forall i: nat ensures EffectAt([], {}, map[], i) { }
    FileLeft(true, 0);
    FileLeft(false, 0);
    assert GPR - {} == GPR && FPR - {} == FPR;
  }

  /** Left operands are from outside the loop. */
  lemma PhisBelow(s: St, s': St, p: Phi, goal: Demand, phis: seq<(nat, nat)>, loopref: nat, last: nat)
    requires PhiOk(s, p) && KeptRefs(s, s') && s'.live == loopref + 1 && PhisOk(s.ir, phis, loopref, last)
               && PhisDone(p, goal, phis, 0)
    ensures PhiOk(s', p)
  {
    forall r: nat ensures PhiAt(s', p, r) {
      assert PhiAt(s, p, r);
      assert RegDone(p, goal, phis, 0, r);
      if r in p.regs {
        var i :| 0 <= i < |phis| && phis[i] == (p.left[r], goal.regs[r]);
        assert phis[i].0 == p.left[r] && KeptRef(s, s', p.left[r]);
      }
    }
  }

  lemma PhisKept(s: St, s': St, phis: seq<(nat, nat)>, loopref: nat, last: nat)
    requires PhisOk(s.ir, phis, loopref, last) && KeptRefs(s, s')
    ensures PhisOk(s'.ir, phis, loopref, last)
  {
    forall i {:trigger phis[i]} | 0 <= i < |phis| ensures phis[i].0 in s'.ir && phis[i].1 in s'.ir
        && s'.ir[phis[i].0].fp == s'.ir[phis[i].1].fp {
      assert KeptRef(s, s', phis[i].0) && KeptRef(s, s', phis[i].1);
    }
  }

  /**
   * A loop from its PHIs to its start: the code can run any number of times, and each
   * time finds the values of the right operands where the left ones are expected.
   */
  method AssembleLoop(ir: map<nat, Ins>, last: nat, loopref: nat,
                      phis: seq<(nat, nat)>, snaps: map<nat, seq<nat>>, ghost sems: iset<Sem>)
    returns (ok: bool, a: Assembler, ghost p: Phi, ghost h: set<nat>)
    requires forall x {:trigger ir[x]} :: x in ir ==> x < REF_DROP && !HasReg(ir[x].r) && ir[x].s == 0
    requires REF_BASE <= loopref <= last && TraceOk(ir, loopref, sems) && PhisOk(ir, phis, loopref, last)
    requires forall g {:trigger g in snaps} :: g in snaps ==> SnapOk(ir, snaps[g], g)
    ensures !ok ==> a.Overflown() ||
                    exists i {:trigger phis[i]} :: 0 <= i < |phis| && NoPhiRegister(a, phis[i].0, phis[i].1)
    ensures ok ==>
              Looping(a.State(), p, h, a.code, a.modset, a.saved, a.goal, sems) && PhisDone(p, a.goal, phis, 0)
              && a.Valid(map[])
  {
    a := new Assembler(ir, last + 1, loopref, map[], sems);
    p, h := PhiOf(a), {};
    ghost var s0 := a.State();
    TailStart(a);
    ok := Phis(a, phis, loopref);
    if !ok {
      return;
    }
    p := PhiOf(a);
    ghost var s1 := a.State();
    TraceKept(s0, s1, loopref, sems);
    PhisKept(s0, s1, phis, loopref, last);
    ok := a.Body(loopref, last, snaps);
    if !ok {
      return;
    }
    PhisBelow(s1, a.State(), p, a.goal, phis, loopref, last);
    ok, h := PhiShuffle(a);
  }
}
