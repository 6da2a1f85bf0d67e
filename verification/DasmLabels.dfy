/**
 * Labels and references of the DynASM encoder (dasm_x86.h): which definition a
 * reference binds to, and what the label tables and the slots of references
 * hold in between.
 */
module DasmLabels {

  /** Local and global labels share one table, PC labels have their own. */
  datatype Label = Lg(n: int) | Pc(n: int)

  /**
   * What dasm_put did, in order: a reference with its slot, or the definition
   * of a label by item j of section s, with its slot.
   */
  datatype Event =
    | Ref(lab: Label, fwd: bool, pos: int)
    | Def(lab: Label, pos: int, s: nat, j: nat)

  function Front(log: seq<Event>): seq<Event>
    requires log != []
  {
    log[..|log| - 1]
  }

  function Last(log: seq<Event>): Event
    requires log != []
  {
    log[|log| - 1]
  }

  /** A definition of l came after every forward reference to l. */
  predicate Settled(log: seq<Event>, l: Label) {
    log != [] &&
    if Last(log).lab != l then Settled(Front(log), l)
    else if Last(log).Def? then true
    else !Last(log).fwd && Settled(Front(log), l)
  }

  /** The latest definition of l, or 0. */
  function LastDef(log: seq<Event>, l: Label): int {
    if log == [] then 0
    else if Last(log).Def? && Last(log).lab == l then Last(log).pos
    else LastDef(Front(log), l)
  }

  /** The first definition of l from event i on, or 0. */
  function NextDef(log: seq<Event>, l: Label, i: nat): int {
    if |log| <= i then 0
    else
      var r := NextDef(Front(log), l, i);
      if r != 0 then r
      else if Last(log).Def? && Last(log).lab == l then Last(log).pos
      else 0
  }

  /** The newest reference to l that still waits for a definition, or 0. */
  function PendingHead(log: seq<Event>, l: Label): int {
    if log == [] then 0
    else if Last(log).lab != l then PendingHead(Front(log), l)
    else if Last(log).Def? then 0
    else if !Last(log).fwd && Settled(Front(log), l) then PendingHead(Front(log), l)
    else Last(log).pos
  }

  /** The definition that reference i binds to, or 0 as long as there is none. */
  function Bound(log: seq<Event>, i: nat): int
    requires i < |log|
  {
    if log[i].Ref? && !log[i].fwd && Settled(log[..i], log[i].lab) then LastDef(log[..i], log[i].lab)
    else NextDef(log, log[i].lab, i + 1)
  }

  /** What a label table holds for l. */
  function Entry(log: seq<Event>, l: Label): int {
    if PendingHead(log, l) != 0 then PendingHead(log, l)
    else if Settled(log, l) then -LastDef(log, l)
    else 0
  }

  /** What the slot of reference i holds: its definition, or the next older pending reference. */
  function Slot(log: seq<Event>, i: nat): int
    requires i < |log|
  {
    if Bound(log, i) != 0 then Bound(log, i) else PendingHead(log[..i], log[i].lab)
  }

  /** Every event has its own slot. */
  ghost predicate Distinct(log: seq<Event>) {
    && (forall i :: 0 <= i < |log| ==> log[i].pos > 0)
    && (forall i, j :: 0 <= i < j < |log| ==> log[i].pos != log[j].pos)
  }

  ghost predicate RefSlot(b: map<int, int>, log: seq<Event>, i: nat) {
    i < |log| && log[i].Ref? ==> log[i].pos in b && b[log[i].pos] == Slot(log, i)
  }

  /** The state of the tables and slots between two actions. */
  ghost predicate Threaded(b: map<int, int>, labels: map<Label, int>, log: seq<Event>) {
    && Distinct(log)
    && (forall l :: l in labels ==> labels[l] == Entry(log, l))
    && (forall i {:trigger RefSlot(b, log, i)} :: RefSlot(b, log, i))
  }

  /** The slots of the references to l. */
  ghost predicate ThreadedFor(b: map<int, int>, log: seq<Event>, l: Label) {
    forall i {:trigger RefSlot(b, log, i)} :: 0 <= i < |log| && log[i].lab == l ==> RefSlot(b, log, i)
  }

  // ---- What the functions above mean ----

  lemma {:induction false} LastDefSpec(log: seq<Event>, l: Label) returns (d: int)
    requires Distinct(log)
    ensures LastDef(log, l) == 0 ==> forall i :: 0 <= i < |log| && log[i].lab == l ==> log[i].Ref?
    ensures LastDef(log, l) != 0 ==>
              && 0 <= d < |log| && log[d].Def? && log[d].lab == l && log[d].pos == LastDef(log, l)
              && forall i :: d < i < |log| && log[i].lab == l ==> log[i].Ref?
  {
    d := 0;
    if log != [] {
      var front := Front(log);
      assert |front| == |log| - 1 && forall i :: 0 <= i < |front| ==> front[i] == log[i];
      if Last(log).Def? && Last(log).lab == l {
        d := |log| - 1;
        assert LastDef(log, l) == log[d].pos;
      } else {
        d := LastDefSpec(front, l);
        assert LastDef(log, l) == LastDef(front, l);
      }
    }
  }

  lemma {:induction false} NextDefSpec(log: seq<Event>, l: Label, i: nat) returns (d: int)
    requires Distinct(log)
    ensures NextDef(log, l, i) == 0 ==> forall k :: i <= k < |log| && log[k].lab == l ==> log[k].Ref?
    ensures NextDef(log, l, i) != 0 ==>
              && i <= d < |log| && log[d].Def? && log[d].lab == l && log[d].pos == NextDef(log, l, i)
              && forall k :: i <= k < d && log[k].lab == l ==> log[k].Ref?
  {
    d := 0;
    if |log| > i {
      d := NextDefSpec(Front(log), l, i);
      if NextDef(Front(log), l, i) == 0 {
        d := |log| - 1;
      }
    }
  }

  /** Settled means: the latest definition of l has no forward reference to l behind it. */
  lemma {:induction false} SettledSpec(log: seq<Event>, l: Label)
    ensures Settled(log, l) <==> exists d :: 0 <= d < |log| && SettledBy(log, l, d)
  {
    if log != [] {
      SettledSpec(Front(log), l);
      if Last(log).Def? && Last(log).lab == l {
        assert SettledBy(log, l, |log| - 1);
      } else {
        forall d | 0 <= d < |log| - 1
          ensures SettledBy(log, l, d) <==> SettledBy(Front(log), l, d) && !(Last(log).Ref? && Last(log).lab == l && Last(log).fwd)
        {
        }
      }
    }
  }

  ghost predicate SettledBy(log: seq<Event>, l: Label, d: nat) {
    d < |log| && log[d].Def? && log[d].lab == l
    && forall i :: d < i < |log| && log[i].Ref? && log[i].lab == l ==> !log[i].fwd
  }

  /** A forward reference binds to the next definition of its label. */
  lemma ForwardBindsNext(log: seq<Event>, i: nat, d: nat)
    requires Distinct(log) && i < d < |log| && log[i].Ref? && log[i].fwd
    requires log[d].Def? && log[d].lab == log[i].lab && forall k ::
               i < k < d && log[k].lab == log[i].lab ==> log[k].Ref?
    ensures Bound(log, i) == log[d].pos
  {
    var d' := NextDefSpec(log, log[i].lab, i + 1);
  }

  /**
   * A backward reference binds to the latest earlier definition of its label if
   * and only if no forward reference to the label came after that definition.
   */
  lemma BackwardBindsLatest(log: seq<Event>, i: nat, d: nat)
    requires Distinct(log) && d < i < |log| && log[i].Ref? && !log[i].fwd
    requires log[d].Def? && log[d].lab == log[i].lab && forall k ::
               d < k < i && log[k].lab == log[i].lab ==> log[k].Ref?
    ensures Bound(log, i) == log[d].pos <==> forall k ::
              d < k < i && log[k].Ref? && log[k].lab == log[i].lab ==> !log[k].fwd
  {
    var l := log[i].lab;
    SettledSpec(log[..i], l);
    var d1 := LastDefSpec(log[..i], l);
    var d2 := NextDefSpec(log, l, i + 1);
    if Settled(log[..i], l) {
      var d' :| 0 <= d' < i && SettledBy(log[..i], l, d');
      assert d' <= d;
      assert SettledBy(log[..i], l, d) by {
        forall k | d < k < i && log[..i][k].Ref? && log[..i][k].lab == l ensures !log[..i][k].fwd {
          assert log[..i][k] == log[k];
        }
      }
    } else {
      assert !SettledBy(log[..i], l, d);
    }
  }

  /** A definition of local 1, a forward and a backward reference, and another definition. */
  function MissingLog(): seq<Event> {
    [Def(Lg(1), 1, 0, 0), Ref(Lg(1), true, 2), Ref(Lg(1), false, 4), Def(Lg(1), 6, 0, 5)]
  }

  /** The backward reference misses the definition before it: the forward one made the label look undefined. */
  lemma BackwardMayMiss()
    ensures var log := MissingLog(); Bound(log, 2) == log[3].pos && LastDef(log[..2], Lg(1)) == log[0].pos
  {
    var log := MissingLog();
    assert log[..2] == [log[0], log[1]] && Front(log[..2]) == [log[0]];
    assert Front(log) == log[..3] && |log[..3]| == 3;
    assert NextDef(log[..3], Lg(1), 3) == 0;
    assert NextDef(log, Lg(1), 3) == 6;
  }

  lemma {:induction false} SettledNotPending(log: seq<Event>, l: Label)
    requires Settled(log, l)
    ensures PendingHead(log, l) == 0
  {
    if Last(log).lab != l || !Last(log).Def? { SettledNotPending(Front(log), l); }
  }

  /** The newest pending reference: nothing between it and the end concerns l. */
  lemma {:induction false} PendingAt(log: seq<Event>, l: Label) returns (i: int)
    requires Distinct(log) && PendingHead(log, l) != 0
    ensures 0 <= i < |log| && log[i].Ref? && log[i].lab == l && log[i].pos == PendingHead(log, l)
    ensures forall k :: i < k < |log| ==> log[k].lab != l
    ensures log[i].fwd || !Settled(log[..i], l)
  {
    if Last(log).lab != l {
      i := PendingAt(Front(log), l);
      assert Front(log)[..i] == log[..i];
    } else if !Last(log).fwd && Settled(Front(log), l) {
      SettledNotPending(Front(log), l);
      assert false;
    } else {
      i := |log| - 1;
    }
  }

  /** Without a pending reference, those before event m are bound. */
  lemma {:induction false} NonePending(log: seq<Event>, l: Label, m: nat, j: nat)
    requires Distinct(log) && j < m <= |log| && log[j].Ref? && log[j].lab == l
    requires PendingHead(log[..m], l) == 0
    ensures Bound(log, j) != 0
    decreases m
  {
    var e := log[m - 1];
    assert Front(log[..m]) == log[..m - 1] && Last(log[..m]) == e;
    if e.lab == l && e.Def? {
      var d := NextDefSpec(log, l, j + 1);
      EntrySpec(log[..j], l);
    } else if j == m - 1 {
      var d := LastDefSpec(log[..j], l);
      SettledSpec(log[..j], l);
    } else {
      NonePending(log, l, m - 1, j);
    }
  }

  lemma BoundIsDef(log: seq<Event>, i: nat) returns (d: int)
    requires Distinct(log) && i < |log| && log[i].Ref? && Bound(log, i) != 0
    ensures 0 <= d < |log| && log[d].Def? && log[d].pos == Bound(log, i) && log[d].lab == log[i].lab
  {
    var d1 := LastDefSpec(log[..i], log[i].lab);
    var d2 := NextDefSpec(log, log[i].lab, i + 1);
    d := if !log[i].fwd && Settled(log[..i], log[i].lab) then d1 else d2;
  }

  // ---- New events ----

  lemma Earlier(log: seq<Event>, e: Event, i: nat)
    requires i < |log|
    ensures (log + [e])[..i] == log[..i] && Front(log + [e]) == log
    ensures Bound(log + [e], i) == if Bound(log, i) != 0
              || (log[i].Ref? && !log[i].fwd && Settled(log[..i], log[i].lab)) then Bound(log, i)
                                   else if e.Def? && e.lab == log[i].lab then e.pos else 0
  {
    assert (log + [e])[..i] == log[..i];
  }

  /** What the slot of a new reference to l gets. */
  function Thread(labels: map<Label, int>, l: Label, fwd: bool): int {
    var n := if l in labels then labels[l] else 0;
    if n < 0 then (if fwd then 0 else -n) else n
  }

  /** The tables with a new reference to l: it heads the chain unless it was bound. */
  function Anchored(labels: map<Label, int>, l: Label, fwd: bool, pos: int): map<Label, int> {
    if l in labels && labels[l] < 0 && !fwd then labels else labels[l := pos]
  }

  /** The entries of the tables with one more reference. */
  lemma EntryWithRef(log: seq<Event>, l: Label, fwd: bool, pos: int, k: Label)
    requires pos > 0
    ensures Entry(log + [Ref(l, fwd, pos)], k) == if k != l || (!fwd && Settled(log, l)) then Entry(log, k) else pos
  {
    var log' := log + [Ref(l, fwd, pos)];
    assert Front(log') == log;
    assert LastDef(log', k) == LastDef(log, k);
    if k == l && !fwd && Settled(log, l) { SettledNotPending(log, l); }
  }

  /** The slot of one more reference. */
  lemma SlotOfRef(labels: map<Label, int>, log: seq<Event>, l: Label, fwd: bool, pos: int)
    requires Distinct(log) && l in labels && labels[l] == Entry(log, l)
    ensures Slot(log + [Ref(l, fwd, pos)], |log|) == Thread(labels, l, fwd)
  {
    var log' := log + [Ref(l, fwd, pos)];
    assert log'[..|log|] == log;
    EntrySpec(log, l);
    assert NextDef(log', l, |log| + 1) == 0;
  }

  /** A new reference with the slot content that dasm_put gives it. */
  lemma RefAdded(b: map<int, int>, labels: map<Label, int>, log: seq<Event>, l: Label, fwd: bool, pos: int)
    requires Threaded(b, labels, log) && l in labels && pos > 0 && forall i :: 0 <= i < |log| ==> log[i].pos != pos
    ensures Threaded(b[pos := Thread(labels, l, fwd)], Anchored(labels, l, fwd, pos), log + [Ref(l, fwd, pos)])
  {
    var e := Ref(l, fwd, pos);
    var log' := log + [e];
    var b', labels' := b[pos := Thread(labels, l, fwd)], Anchored(labels, l, fwd, pos);
    EntrySpec(log, l);
    forall i: nat ensures RefSlot(b', log', i) {
      if i < |log| {
        RefSlotKept(b, b', log, e, i);
      } else if i == |log| {
        SlotOfRef(labels, log, l, fwd, pos);
      }
    }
    forall k | k in labels' ensures labels'[k] == Entry(log', k) { EntryWithRef(log, l, fwd, pos, k); }
  }

  lemma RefSlotKept(b: map<int, int>, b': map<int, int>, log: seq<Event>, e: Event, i: nat)
    requires RefSlot(b, log, i) && e.Ref? && i < |log| && log[i].pos != e.pos
    requires forall x :: x in b && x != e.pos ==> x in b' && b'[x] == b[x]
    ensures RefSlot(b', log + [e], i)
  {
    Earlier(log, e, i);
  }

  /** The sign of a table entry tells what it is. */
  lemma EntrySpec(log: seq<Event>, l: Label)
    requires Distinct(log)
    ensures Entry(log, l) > 0 <==> PendingHead(log, l) != 0
    ensures Entry(log, l) < 0 <==> Settled(log, l)
    ensures PendingHead(log, l) >= 0
    ensures Entry(log, l) < 0 ==> LastDef(log, l) > 0 && PendingHead(log, l) == 0
  {
    if PendingHead(log, l) != 0 { var i := PendingAt(log, l); }
    if Settled(log, l) {
      SettledNotPending(log, l);
      SettledSpec(log, l);
      var d := LastDefSpec(log, l);
    }
  }

  /** A pending reference to l at event m or later. */
  ghost predicate Waits(log: seq<Event>, l: Label, m: nat, j: int) {
    m <= j < |log| && log[j].Ref? && log[j].lab == l && Bound(log, j) == 0
  }

  /** The pending references to l from event m on hold v; all else is as before. */
  ghost predicate Collapsed(b0: map<int, int>, b: map<int, int>, log: seq<Event>, l: Label, m: nat, v: int) {
    && b.Keys == b0.Keys
    && (forall j {:trigger Waits(log, l, m, j)} :: Waits(log, l, m, j) ==> log[j].pos in b && b[log[j].pos] == v)
    && (forall x :: x in b && (forall j :: Waits(log, l, m, j) ==> log[j].pos != x) ==> b[x] == b0[x])
  }

  /** One step along the chain. */
  lemma ChainStep(log: seq<Event>, l: Label, m: nat, b0: map<int, int>, b: map<int, int>, v: int) returns (i: int)
    requires Distinct(log) && m <= |log| && PendingHead(log[..m], l) != 0
    requires forall k :: m <= k < |log| && log[k].lab == l ==> log[k].Ref?
    requires ThreadedFor(b0, log, l)
    requires Collapsed(b0, b, log, l, m, v)
    ensures 0 <= i < m && log[i].pos == PendingHead(log[..m], l) && log[i].pos in b
    ensures b[log[i].pos] == PendingHead(log[..i], l)
    ensures Collapsed(b0, b[log[i].pos := v], log, l, i, v)
    ensures forall k :: i <= k < |log| && log[k].lab == l ==> log[k].Ref?
  {
    i := PendingAt(log[..m], l);
    assert log[..m][..i] == log[..i] && RefSlot(b0, log, i);
    assert forall k :: i < k < m ==> log[k] == log[..m][k];
    var d := NextDefSpec(log, l, i + 1);
    assert Bound(log, i) == 0;
    var b' := b[log[i].pos := v];
    forall j | Waits(log, l, i, j) ensures log[j].pos in b' && b'[log[j].pos] == v {
      assert j == i || Waits(log, l, m, j);
    }
    forall x | x in b' && (forall j :: Waits(log, l, i, j) ==> log[j].pos != x) ensures b'[x] == b0[x] {
      assert Waits(log, l, i, i);
      forall j | Waits(log, l, m, j) ensures log[j].pos != x { assert Waits(log, l, i, j); }
    }
    assert forall j :: Waits(log, l, m, j) ==> log[j].pos != log[i].pos;
  }

  /** At the end of the chain all references that wait for l were met. */
  lemma ChainEnd(log: seq<Event>, l: Label, m: nat, b0: map<int, int>, b: map<int, int>, v: int)
    requires Distinct(log) && m <= |log| && PendingHead(log[..m], l) == 0
    requires Collapsed(b0, b, log, l, m, v)
    ensures Collapsed(b0, b, log, l, 0, v)
  {
    forall j | Waits(log, l, 0, j) ensures Waits(log, l, m, j) {
      if j < m { NonePending(log, l, m, j); }
    }
    forall j | Waits(log, l, m, j) ensures Waits(log, l, 0, j) { }
  }

  /** A definition, after the chain was collapsed to its slot. */
  lemma DefAdded(b0: map<int, int>, b: map<int, int>, labels: map<Label, int>, log: seq<Event>, e: Event, v: int)
    requires Threaded(b0, labels, log) && e.Def? && e.lab in labels && e.pos > 0
    requires forall i :: 0 <= i < |log| ==> log[i].pos != e.pos
    requires Collapsed(b0, b, log, e.lab, 0, e.pos)
    ensures Threaded(b[e.pos := v], labels[e.lab := -e.pos], log + [e])
  {
    var log' := log + [e];
    var b', labels' := b[e.pos := v], labels[e.lab := -e.pos];
    assert Front(log') == log;
    forall i: nat ensures RefSlot(b', log', i) {
      assert RefSlot(b0, log, i);
      if i < |log| && log[i].Ref? {
        Earlier(log, e, i);
        if Waits(log, e.lab, 0, i) {
          assert b[log[i].pos] == e.pos;
          UnboundNow(log, i);
        } else {
          forall j | Waits(log, e.lab, 0, j) ensures log[j].pos != log[i].pos { }
        }
      }
    }
    forall k | k in labels' ensures labels'[k] == Entry(log', k) { }
  }

  /** A reference without a definition was not settled when it came. */
  lemma UnboundNow(log: seq<Event>, i: nat)
    requires Distinct(log) && i < |log| && log[i].Ref? && Bound(log, i) == 0
    ensures log[i].fwd || !Settled(log[..i], log[i].lab)
  {
    if Settled(log[..i], log[i].lab) {
      EntrySpec(log[..i], log[i].lab);
    }
  }

  // ---- Before linking: globals that are not defined here ----

  /** What the slot of reference i holds for linking: the definition, or minus the number of a global. */
  function Target(log: seq<Event>, i: nat): int
    requires i < |log|
  {
    if Bound(log, i) != 0 then Bound(log, i) else if log[i].lab.Lg? then -log[i].lab.n else 0
  }

  /** References to globals below idx are marked if there is no definition; the others are threaded. */
  ghost predicate MarkedSlot(b: map<int, int>, log: seq<Event>, idx: int, i: nat) {
    i < |log| && log[i].Ref? ==>
      && log[i].pos in b
      && b[log[i].pos] == if log[i].lab.Lg? && 10 <= log[i].lab.n < idx then Target(log, i) else Slot(log, i)
  }

  lemma MarkedFor(b: map<int, int>, log: seq<Event>, idx: int)
    requires forall i {:trigger MarkedSlot(b, log, idx, i)} :: MarkedSlot(b, log, idx, i)
    ensures ThreadedFor(b, log, Lg(idx))
  {
    forall i: nat | i < |log| && log[i].lab == Lg(idx) ensures RefSlot(b, log, i) { assert MarkedSlot(b, log, idx, i); }
  }

  lemma MarkedMore(b0: map<int, int>, b: map<int, int>, log: seq<Event>, idx: int, next: int)
    requires Distinct(log) && idx >= 10 && next == idx + 1
    requires forall i {:trigger MarkedSlot(b0, log, idx, i)} :: MarkedSlot(b0, log, idx, i)
    requires Collapsed(b0, b, log, Lg(idx), 0, -idx)
    ensures forall i {:trigger MarkedSlot(b, log, next, i)} :: MarkedSlot(b, log, next, i)
  {
    forall i: nat ensures MarkedSlot(b, log, next, i) {
      assert MarkedSlot(b0, log, idx, i);
      if i < |log| && log[i].Ref? && !Waits(log, Lg(idx), 0, i) {
        forall j | Waits(log, Lg(idx), 0, j) ensures log[j].pos != log[i].pos { }
      }
    }
  }

  /** Nothing is undefined but globals. */
  predicate Resolved(labels: map<Label, int>) {
    forall l :: l in labels ==> labels[l] <= 0 || (l.Lg? && l.n >= 10)
  }

  lemma AllMarked(b: map<int, int>, labels: map<Label, int>, log: seq<Event>, nlg: nat, i: nat)
    requires Distinct(log) && (forall l :: l in labels ==> labels[l] == Entry(log, l)) && Resolved(labels)
    requires forall k {:trigger MarkedSlot(b, log, nlg, k)} :: MarkedSlot(b, log, nlg, k)
    requires i < |log| && log[i].Ref? && log[i].lab in labels && (log[i].lab.Lg? ==> log[i].lab.n < nlg)
    ensures log[i].pos in b && b[log[i].pos] == Target(log, i) != 0
    ensures Bound(log, i) != 0 || (log[i].lab.Lg? && log[i].lab.n >= 10)
  {
    assert MarkedSlot(b, log, nlg, i);
    var l := log[i].lab;
    EntrySpec(log, l);
    if labels[l] <= 0 {
      assert log[..|log|] == log;
      NonePending(log, l, |log|, i);
    }
  }

  /** Only locals have forward references. */
  ghost predicate ForwardLocal(e: Event) {
    e.Ref? && e.fwd ==> e.lab.Lg? && e.lab.n <= 9
  }

  /** A reference to a global stays unbound only if there is no definition at all. */
  lemma UnboundUndefined(log: seq<Event>, i: nat)
    requires Distinct(log) && i < |log| && log[i].Ref? && Bound(log, i) == 0 && log[i].lab.Lg? && log[i].lab.n >= 10
    requires forall k :: 0 <= k < |log| ==> ForwardLocal(log[k])
    ensures forall d :: 0 <= d < |log| && log[d].lab == log[i].lab ==> log[d].Ref?
  {
    var l := log[i].lab;
    UnboundNow(log, i);
    assert ForwardLocal(log[i]);
    var after := NextDefSpec(log, l, i + 1);
    forall d | 0 <= d < |log| && log[d].lab == l
      ensures log[d].Ref?
    {
      if d < i && log[d].Def? {
        var last := LastDefSpec(log[..i], l);
        assert log[..i][d].Def? && log[..i][d].lab == l;
        assert SettledBy(log[..i], l, last) by {
          forall k | last < k < i && log[..i][k].Ref? && log[..i][k].lab == l ensures !log[..i][k].fwd {
            assert ForwardLocal(log[k]);
          }
        }
        SettledSpec(log[..i], l);
      }
    }
  }
}
