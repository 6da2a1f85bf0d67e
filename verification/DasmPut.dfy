/**
 * Pass 1 of DynASM on values (dasm_put of dasm_x86.h): the state between the
 * actions of a call and what each kind of action does to it.
 */
module DasmPut {
  import opened DasmLabels
  import opened DasmActions
  import opened DasmTrace

  /**
   * The section buffers by biased position (fixed: without the slots of
   * references), the label tables, the ends and code sizes of the sections,
   * their items, and the references and definitions so far (at: by slot).
   */
  datatype Pass1 = Pass1(b: map<int, int>, fixed: map<int, int>, labels: map<Label, int>, spos: seq<int>,
      sofs: seq<int>,
                         tr: seq<seq<Item>>, log: seq<Event>, at: map<int, nat>)

  /** A call of dasm_put in section sec, and what it found. */
  datatype Started = Started(start: int, args: seq<int>, sec: nat, log0: seq<Event>, tr0: seq<seq<Item>>,
      fixed0: map<int, int>)

  ghost predicate Bounded(st: Pass1) {
    && |st.spos| == |st.sofs| == |st.tr|
    && forall s :: 0 <= s < |st.tr| ==> SecPos(s) <= st.spos[s] < SecPos(s + 1)
  }

  ghost predicate TracedBut(al: seq<int>, fixed: map<int, int>, st: Pass1, sec: int) {
    && |st.spos| == |st.sofs| == |st.tr|
    && forall s :: 0 <= s < |st.tr| && s != sec ==> Traced(al, fixed, st.tr[s], SecPos(s), st.spos[s], st.sofs[s])
  }

  /** Invariants come in two parts, the contents of the buffers and how they came about. */
  datatype Aspect = Memory | History

  ghost predicate Rests(al: seq<int>, st: Pass1, aspect: Aspect) {
    match aspect
    case Memory => Bounded(st) && Buffers(st.b, st.fixed, st.log, st.labels, st.spos)
    case History => Logged(al, st.tr, st.log, st.at) && TracedBut(al, st.fixed, st, -1)
  }

  /** Between two calls of dasm_put. */
  ghost predicate AtRest(al: seq<int>, st: Pass1) {
    forall aspect {:trigger Rests(al, st, aspect)} :: Rests(al, st, aspect)
  }

  lemma RestOpened(al: seq<int>, st: Pass1)
    requires AtRest(al, st)
    ensures Bounded(st) && Buffers(st.b, st.fixed, st.log, st.labels, st.spos)
    ensures Logged(al, st.tr, st.log, st.at) && TracedBut(al, st.fixed, st, -1)
  {
    assert Rests(al, st, Memory) && Rests(al, st, History);
  }

  /** Amid dasm_put: x is the next action of section sec. */
  ghost predicate Putting(al: seq<int>, st: Pass1, sec: nat, x: Item) {
    && Bounded(st) && sec < |st.tr| && SecPos(sec) < x.pos && st.spos[sec] <= x.pos
    && Buffers(st.b, st.fixed, st.log, st.labels, st.spos[sec := x.pos]) && Logged(al, st.tr, st.log, st.at)
    && TracedBut(al, st.fixed, st, sec) && Walk(al, st.fixed, st.tr[sec] + [x], SecPos(sec))
  }

  /** The places of the actions of a call, up to its stop. */
  function Actions(al: seq<int>, p: int): seq<int>
    decreases |al| - p
  {
    if !(0 <= p < |al|) || IsStop(al[p]) then [p] else [p] + Actions(al, p + Length(al[p]))
  }

  /** The actions from start up to p are those of t. */
  predicate Leads(al: seq<int>, start: int, t: seq<Item>, p: int) {
    if t == [] then p == start
    else
      var x := t[|t| - 1];
      Leads(al, start, t[..|t| - 1], x.p) && 0 <= x.p < |al| && !IsStop(al[x.p]) && p == x.p + Length(al[x.p])
  }

  function Places(t: seq<Item>): (r: seq<int>)
    ensures |r| == |t|
  {
    seq(|t|, i requires 0 <= i < |t| => t[i].p)
  }

  ghost predicate Holds(al: seq<int>, st: Pass1, c: Started, x: Item, rest: seq<int>, t: seq<Item>, aspect: Aspect) {
    match aspect
    case Memory => Putting(al, st, c.sec, x)
    case History => Progress(al, st, c, x.p, rest, t)
  }

  /** The loop of dasm_put: the actions t were executed, and x comes next. */
  ghost predicate PutLoop(al: seq<int>, st: Pass1, c: Started, x: Item, rest: seq<int>, t: seq<Item>) {
    forall aspect {:trigger Holds(al, st, c, x, rest, t, aspect)} :: Holds(al, st, c, x, rest, t, aspect)
  }

  lemma Opened(al: seq<int>, st: Pass1, c: Started, x: Item, rest: seq<int>, t: seq<Item>)
    requires PutLoop(al, st, c, x, rest, t)
    ensures Putting(al, st, c.sec, x) && Progress(al, st, c, x.p, rest, t)
  {
    assert Holds(al, st, c, x, rest, t, Memory) && Holds(al, st, c, x, rest, t, History);
  }

  lemma Closed(al: seq<int>, st: Pass1, c: Started, x: Item, rest: seq<int>, t: seq<Item>)
    requires Putting(al, st, c.sec, x) && Progress(al, st, c, x.p, rest, t)
    ensures PutLoop(al, st, c, x, rest, t)
  {
  }

  /** The items t come behind those of section sec. */
  function Appended(tr: seq<seq<Item>>, sec: nat, t: seq<Item>): seq<seq<Item>> {
    if t == [] || sec >= |tr| then tr else tr[sec := tr[sec] + t]
  }

  ghost predicate Progress(al: seq<int>, st: Pass1, c: Started, p: int, rest: seq<int>, t: seq<Item>) {
    && c.sec < |c.tr0| && st.tr == Appended(c.tr0, c.sec, t) && Grown(c.fixed0, st.fixed)
    && Did(al, st.fixed, c.log0, st.log, t, c.args, rest, c.sec, |c.tr0[c.sec]|)
    && Leads(al, c.start, t, p)
  }

  /** What dasm_put leaves behind: all actions of the call, with their arguments, references and definitions. */
  ghost predicate PutDone(al: seq<int>, st: Pass1, c: Started, t: seq<Item>) {
    && c.sec < |c.tr0| && st.tr == Appended(c.tr0, c.sec, t) && Grown(c.fixed0, st.fixed)
    && Did(al, st.fixed, c.log0, st.log, t, c.args, Left(al, t, c.args), c.sec, |c.tr0[c.sec]|)
    && Places(t) == Actions(al, c.start)
  }

  ghost predicate HoldsBehind(al: seq<int>, st: Pass1, c: Started, t: seq<Item>, aspect: Aspect) {
    match aspect
    case Memory => AtRest(al, st)
    case History => PutDone(al, st, c, t)
  }

  /** dasm_put is over. */
  ghost predicate PutOver(al: seq<int>, st: Pass1, c: Started, t: seq<Item>) {
    forall aspect {:trigger HoldsBehind(al, st, c, t, aspect)} :: HoldsBehind(al, st, c, t, aspect)
  }

  lemma OverOpened(al: seq<int>, st: Pass1, c: Started, t: seq<Item>)
    requires PutOver(al, st, c, t)
    ensures AtRest(al, st) && PutDone(al, st, c, t)
  {
    assert HoldsBehind(al, st, c, t, Memory) && HoldsBehind(al, st, c, t, History);
  }

  /** The section that the next call goes to. */
  function SectionBehind(al: seq<int>, t: seq<Item>, section: nat): nat {
    if t != [] && At(al, t[|t| - 1].p) == SECTION && At(al, t[|t| - 1].p + 1) >= 0 then At(al, t[|t| - 1].p + 1)
        else section
  }

  /** The action behind x, whose argument is n. */
  function Next(al: seq<int>, x: Item, n: int): Item {
    Item(x.p + Length(At(al, x.p)), x.pos + Slots(At(al, x.p)), x.ofs + MaxSize(al, x.p, n), if IsLiteral(At(al, x.p))
        then x.lits + 1 else 0)
  }

  // ---- Transitions ----

  function Visited(tr: seq<seq<Item>>, sec: nat, x: Item): seq<seq<Item>> {
    if sec < |tr| then tr[sec := tr[sec] + [x]] else tr
  }

  /** A slot of x holds v. */
  function Stored(st: Pass1, sec: nat, x: Item, v: int): Pass1 {
    st.(b := st.b[x.pos := v], fixed := st.fixed[x.pos := v], tr := Visited(st.tr, sec, x))
  }

  function StoredIf(c: bool, m: map<int, int>, x: int, v: int): map<int, int> {
    if c then m[x := v] else m
  }

  /** The slot of a new reference to l holds the definition or a link of the chain. */
  function Referred(al: seq<int>, st: Pass1, sec: nat, x: Item, l: Label): Pass1 {
    var fwd := IsForward(al, x.p);
    var b := st.b[x.pos := Thread(st.labels, l, fwd)];
    Pass1(StoredIf(IsRel(At(al, x.p)), b, x.pos + 1, x.ofs + 4),
        StoredIf(IsRel(At(al, x.p)), st.fixed, x.pos + 1, x.ofs + 4),
          Anchored(st.labels, l, fwd, x.pos), st.spos, st.sofs,
          Visited(st.tr, sec, x), st.log + [Ref(l, fwd, x.pos)], st.at[x.pos := |st.log|])
  }

  /** l is defined, after the chain was collapsed to b. */
  function Defined(st: Pass1, b: map<int, int>, sec: nat, x: Item, l: Label): Pass1 {
    Pass1(b[x.pos := x.ofs], st.fixed[x.pos := x.ofs], st.labels[l := -x.pos], st.spos, st.sofs,
          Visited(st.tr, sec, x), st.log + [Def(l, x.pos, sec, if sec < |st.tr| then |st.tr[sec]| else 0)],
              st.at[x.pos := |st.log|])
  }

  function Stopped(st: Pass1, sec: nat, x: Item): Pass1 {
    st.(spos := if sec < |st.spos| then st.spos[sec := x.pos] else st.spos,
        sofs := if sec < |st.sofs| then st.sofs[sec := x.ofs] else st.sofs, tr := Visited(st.tr, sec, x))
  }

  // ---- What they keep ----

  /** An action that is no stop, with its slots already filled: the walk goes on. */
  lemma WalkedOn(al: seq<int>, fixed0: map<int, int>, st: Pass1, tr0: seq<seq<Item>>, sec: nat, x: Item, n: int)
    requires sec < |tr0| && st.tr == Visited(tr0, sec, x) && Bounded(st) && TracedBut(al, fixed0, st.(tr := tr0), sec)
    requires Walk(al, fixed0, tr0[sec] + [x], SecPos(sec)) && Grown(fixed0, st.fixed)
    requires Shaped(al, x.p, x.lits) && !IsStop(At(al, x.p)) && SlotsOk(al, st.fixed, x)
    requires IsArg(At(al, x.p)) ==> st.fixed[x.pos] == n
    ensures TracedBut(al, st.fixed, st, sec) && Walk(al, st.fixed, st.tr[sec] + [Next(al, x, n)], SecPos(sec))
  {
    WalkGrown(al, fixed0, st.fixed, tr0[sec] + [x], SecPos(sec));
    assert Step(al, st.fixed, x, Next(al, x, n));
    WalkExtended(al, st.fixed, tr0[sec] + [x], SecPos(sec), Next(al, x, n));
    forall s | 0 <= s < |st.tr| && s != sec
      ensures Traced(al, st.fixed, st.tr[s], SecPos(s), st.spos[s], st.sofs[s])
    {
      TracedGrown(al, fixed0, st.fixed, tr0[s], SecPos(s), st.spos[s], st.sofs[s]);
    }
  }

  /** The argument of the next action, 0 if it takes none. */
  function Argument(al: seq<int>, x: Item, rest: seq<int>): int {
    if TakesArg(At(al, x.p)) && rest != [] then rest[0] else 0
  }

  /** An action that is no stop was executed. */
  lemma ActionDone(al: seq<int>, st: Pass1, st': Pass1, c: Started, x: Item, rest: seq<int>, t: seq<Item>)
    requires Putting(al, st, c.sec, x) && Progress(al, st, c, x.p, rest, t) && Shaped(al, x.p, x.lits)
               && !IsStop(At(al, x.p))
    requires TakesArg(At(al, x.p)) ==> rest != []
    requires st'.spos == st.spos && st'.sofs == st.sofs && st'.tr == Visited(st.tr, c.sec, x)
    requires Grown(st.fixed, st'.fixed) && SlotsOk(al, st'.fixed, x)
               && (IsArg(At(al, x.p)) ==> st'.fixed[x.pos] == rest[0])
    requires Logged(al, st'.tr, st'.log, st'.at)
    requires st'.log == st.log + EventOf(al, x, Argument(al, x, rest), c.sec, |st.tr[c.sec]|)
    requires BuffersOf(st', st.spos[c.sec := x.pos + Slots(At(al, x.p))])
    ensures PutLoop(al, st', c, Next(al, x, Argument(al, x, rest)), LeftArgs(al, x.p, rest), t + [x])
  {
    PuttingOn(al, st, st', c.sec, x, Argument(al, x, rest));
    ProgressOn(al, st, st', c, x, rest, t);
    Closed(al, st', c, Next(al, x, Argument(al, x, rest)), LeftArgs(al, x.p, rest), t + [x]);
  }

  lemma PuttingOn(al: seq<int>, st: Pass1, st': Pass1, sec: nat, x: Item, n: int)
    requires Putting(al, st, sec, x) && Shaped(al, x.p, x.lits) && !IsStop(At(al, x.p))
    requires st'.spos == st.spos && st'.sofs == st.sofs && st'.tr == Visited(st.tr, sec, x)
    requires Grown(st.fixed, st'.fixed) && SlotsOk(al, st'.fixed, x) && (IsArg(At(al, x.p)) ==> st'.fixed[x.pos] == n)
    requires Logged(al, st'.tr, st'.log, st'.at) && BuffersOf(st', st.spos[sec := x.pos + Slots(At(al, x.p))])
    ensures Putting(al, st', sec, Next(al, x, n))
  {
    WalkedOn(al, st.fixed, st', st.tr, sec, x, n);
  }

  lemma ProgressOn(al: seq<int>, st: Pass1, st': Pass1, c: Started, x: Item, rest: seq<int>, t: seq<Item>)
    requires Progress(al, st, c, x.p, rest, t) && Shaped(al, x.p, x.lits) && !IsStop(At(al, x.p))
    requires TakesArg(At(al, x.p)) ==> rest != []
    requires st'.tr == Visited(st.tr, c.sec, x) && Grown(st.fixed, st'.fixed)
    requires IsArg(At(al, x.p)) ==> x.pos in st'.fixed && st'.fixed[x.pos] == rest[0]
    requires st'.log == st.log + EventOf(al, x, Argument(al, x, rest), c.sec, |st.tr[c.sec]|)
    ensures Progress(al, st', c, x.p + Length(At(al, x.p)), LeftArgs(al, x.p, rest), t + [x])
  {
    DidMore(al, st.fixed, st'.fixed, c.log0, st.log, st'.log, t, x, c.args, rest, c.sec, |c.tr0[c.sec]|);
    VisitedMore(c.tr0, c.sec, t, x);
    LeadsOn(al, c.start, t, x);
  }

  lemma VisitedMore(tr0: seq<seq<Item>>, sec: nat, t: seq<Item>, x: Item)
    requires sec < |tr0|
    ensures Visited(Appended(tr0, sec, t), sec, x) == Appended(tr0, sec, t + [x])
    ensures |Appended(tr0, sec, t)| == |tr0| && |Appended(tr0, sec, t)[sec]| == |tr0[sec]| + |t|
  {
    assert tr0[sec] + (t + [x]) == (tr0[sec] + t) + [x] && t + [x] != [];
    assert Appended(tr0, sec, t)[sec] == tr0[sec] + t;
    assert Visited(Appended(tr0, sec, t), sec, x) == tr0[sec := tr0[sec] + (t + [x])];
  }

  lemma LeadsOn(al: seq<int>, start: int, t: seq<Item>, x: Item)
    requires Leads(al, start, t, x.p) && 0 <= x.p < |al| && !IsStop(al[x.p])
    ensures Leads(al, start, t + [x], x.p + Length(At(al, x.p)))
  {
    assert (t + [x])[..|t|] == t;
  }

  lemma {:induction false} LeadsActions(al: seq<int>, start: int, t: seq<Item>, p: int)
    requires Leads(al, start, t, p)
    ensures Actions(al, start) == Places(t) + Actions(al, p)
  {
    if t != [] {
      var front, x := t[..|t| - 1], t[|t| - 1];
      LeadsActions(al, start, front, x.p);
      assert Actions(al, x.p) == [x.p] + Actions(al, p) && Places(t) == Places(front) + [x.p];
    }
  }

  lemma AllActions(al: seq<int>, start: int, t: seq<Item>, x: Item)
    requires Leads(al, start, t, x.p) && 0 <= x.p < |al| && IsStop(al[x.p])
    ensures Places(t + [x]) == Actions(al, start)
  {
    LeadsActions(al, start, t, x.p);
    assert Places(t + [x]) == Places(t) + [x.p];
  }

  lemma LiteralDone(al: seq<int>, st: Pass1, c: Started, x: Item, rest: seq<int>, t: seq<Item>)
    requires PutLoop(al, st, c, x, rest, t) && Shaped(al, x.p, x.lits) && IsLiteral(At(al, x.p))
    ensures PutLoop(al, st.(tr := Visited(st.tr, c.sec, x)), c, Next(al, x, 0), rest, t + [x])
  {
    Opened(al, st, c, x, rest, t);
    ItemLogged(al, st.tr, st.log, st.log, st.at, st.at, c.sec, x);
    ActionDone(al, st, st.(tr := Visited(st.tr, c.sec, x)), c, x, rest, t);
  }

  /** An argument, or the pass 1 offset of an alignment. */
  lemma StoreDone(al: seq<int>, st: Pass1, c: Started, x: Item, rest: seq<int>, t: seq<Item>, v: int)
    requires PutLoop(al, st, c, x, rest, t) && Shaped(al, x.p, x.lits) && x.pos + 1 < SecPos(c.sec + 1)
    requires (IsArg(At(al, x.p)) && rest != [] && v == rest[0] && (At(al, x.p) == SPACE ==> v >= 0))
             || (At(al, x.p) == ALIGN && v == x.ofs + At(al, x.p + 1))
    ensures PutLoop(al, Stored(st, c.sec, x, v), c, Next(al, x, Argument(al, x, rest)), LeftArgs(al, x.p, rest),
              t + [x])
  {
    Opened(al, st, c, x, rest, t);
    var st' := Stored(st, c.sec, x, v);
    SlotStored(st.b, st.fixed, st.log, st.labels, st.spos[c.sec := x.pos], c.sec, v);
    ItemLogged(al, st.tr, st.log, st.log, st.at, st.at, c.sec, x);
    assert st.spos[c.sec := x.pos][c.sec := x.pos + 1] == st.spos[c.sec := x.pos + 1];
    ActionDone(al, st, st', c, x, rest, t);
  }

  /** The buffers with a new reference. */
  lemma RefBuffers(al: seq<int>, st: Pass1, sec: nat, x: Item, l: Label)
    requires sec < |st.spos| && Buffers(st.b, st.fixed, st.log, st.labels, st.spos[sec := x.pos])
    requires 0 < x.pos && SecPos(sec) <= x.pos && x.pos + Slots(At(al, x.p)) < SecPos(sec + 1)
    requires IsRef(At(al, x.p)) && l in st.labels && (IsForward(al, x.p) ==> l.Lg? && l.n <= 9)
    ensures BuffersOf(Referred(al, st, sec, x, l), st.spos[sec := x.pos + Slots(At(al, x.p))])
    ensures Grown(st.fixed, Referred(al, st, sec, x, l).fixed)
  {
    var fwd := IsForward(al, x.p);
    assert x.pos + Slots(At(al, x.p)) == if IsRel(At(al, x.p)) then x.pos + 1 + 1 else x.pos + 1;
    var b, log := st.b[x.pos := Thread(st.labels, l, fwd)], st.log + [Ref(l, fwd, x.pos)];
    LinkStored(st.b, st.fixed, st.log, st.labels, st.spos, sec, x.pos, l, fwd);
    OffsetStored(b, st.fixed, log, Anchored(st.labels, l, fwd, x.pos), st.spos, sec, x.pos + 1, x.ofs + 4,
        IsRel(At(al, x.p)));
  }

  ghost predicate BuffersOf(st: Pass1, ends: seq<int>) {
    Buffers(st.b, st.fixed, st.log, st.labels, ends)
  }

  lemma LinkStored(b: map<int, int>, fixed: map<int, int>, log: seq<Event>, labels: map<Label, int>, spos: seq<int>,
                   sec: nat, pos: int,
                   l: Label, fwd: bool)
    requires sec < |spos| && Buffers(b, fixed, log, labels, spos[sec := pos]) && SecPos(sec) <= pos < SecPos(sec + 1)
    requires pos > 0 && l in labels && (fwd ==> l.Lg? && l.n <= 9)
    ensures Buffers(b[pos := Thread(labels, l, fwd)], fixed, log + [Ref(l, fwd, pos)], Anchored(labels, l, fwd, pos),
              spos[sec := pos + 1])
  {
    RefStored(b, fixed, log, labels, spos[sec := pos], sec, l, fwd);
    assert spos[sec := pos][sec := pos + 1] == spos[sec := pos + 1];
  }

  lemma RefSlotFree(st: Pass1, sec: nat, pos: int)
    requires sec < |st.spos| && Buffers(st.b, st.fixed, st.log, st.labels, st.spos[sec := pos])
               && SecPos(sec) <= pos < SecPos(sec + 1)
    ensures forall i :: 0 <= i < |st.log| ==> st.log[i].pos != pos
  {
    SlotStored(st.b, st.fixed, st.log, st.labels, st.spos[sec := pos], sec, 0);
  }

  /** A branch stores its offset of pass 1, too. */
  lemma OffsetStored(b: map<int, int>, fixed: map<int, int>, log: seq<Event>, labels: map<Label, int>, spos: seq<int>,
                     sec: nat, pos: int, v: int,
                     rel: bool)
    requires sec < |spos| && Buffers(b, fixed, log, labels, spos[sec := pos]) && SecPos(sec) <= pos
               && (rel ==> pos < SecPos(sec + 1))
    ensures Buffers(StoredIf(rel, b, pos, v), StoredIf(rel, fixed, pos, v), log, labels,
              spos[sec := if rel then pos + 1 else pos])
    ensures Grown(fixed, StoredIf(rel, fixed, pos, v))
  {
    if rel {
      SlotStored(b, fixed, log, labels, spos[sec := pos], sec, v);
      assert spos[sec := pos][sec := pos + 1] == spos[sec := pos + 1];
    }
  }

  lemma RefDone(al: seq<int>, st: Pass1, c: Started, x: Item, rest: seq<int>, t: seq<Item>, l: Label)
    requires PutLoop(al, st, c, x, rest, t) && Shaped(al, x.p, x.lits) && x.pos + Slots(At(al, x.p)) < SecPos(c.sec + 1)
    requires IsRef(At(al, x.p)) && (TakesArg(At(al, x.p)) ==> rest != [])
    requires l == LabelOf(al, x.p, Argument(al, x, rest)) && l in st.labels
               && (IsForward(al, x.p) ==> l.Lg? && l.n <= 9)
    ensures PutLoop(al, Referred(al, st, c.sec, x, l), c, Next(al, x, Argument(al, x, rest)), LeftArgs(al, x.p, rest),
              t + [x])
  {
    Opened(al, st, c, x, rest, t);
    var st' := Referred(al, st, c.sec, x, l);
    RefBuffers(al, st, c.sec, x, l);
    RefSlotFree(st, c.sec, x.pos);
    NewSlot(al, st.tr, st.log, st.at, x.pos);
    ItemLogged(al, st.tr, st.log, st'.log, st.at, st'.at, c.sec, x);
    ActionDone(al, st, st', c, x, rest, t);
  }

  /** The buffers with a new definition. */
  lemma LabelBuffers(st: Pass1, b: map<int, int>, sec: nat, x: Item, l: Label)
    requires sec < |st.spos| && 0 < x.pos && SecPos(sec) <= x.pos && x.pos + 1 < SecPos(sec + 1)
    requires Buffers(st.b, st.fixed, st.log, st.labels, st.spos[sec := x.pos])
    requires l in st.labels && Collapsed(st.b, b, st.log, l, 0, x.pos)
    ensures var st' := Defined(st, b, sec, x, l);
            Buffers(st'.b, st'.fixed, st'.log, st'.labels, st.spos[sec := x.pos + 1]) && Grown(st.fixed, st'.fixed)
  {
    var st', ends := Defined(st, b, sec, x, l), st.spos[sec := x.pos];
    DefStored(st.b, b, st.fixed, st.log, st.labels, ends, sec, st'.log[|st.log|], x.ofs);
    assert ends[sec := x.pos + 1] == st.spos[sec := x.pos + 1];
  }

  /** What collapsing the chain of l relies on. */
  lemma ChainReady(al: seq<int>, st: Pass1, c: Started, x: Item, rest: seq<int>, t: seq<Item>, l: Label)
    requires PutLoop(al, st, c, x, rest, t) && l in st.labels
    ensures Distinct(st.log) && ThreadedFor(st.b, st.log, l) && st.labels[l] == Entry(st.log, l)
  {
    Opened(al, st, c, x, rest, t);
  }

  lemma LabelEvent(al: seq<int>, st: Pass1, b: map<int, int>, sec: nat, x: Item, l: Label)
    requires Putting(al, st, sec, x) && IsLabel(At(al, x.p)) && x.pos + 1 < SecPos(sec + 1)
    requires if At(al, x.p) == LABEL_LG then l == LabelOf(al, x.p, 0) else l.Pc?
    ensures var st' := Defined(st, b, sec, x, l); Logged(al, st'.tr, st'.log, st'.at)
  {
    var st' := Defined(st, b, sec, x, l);
    RefSlotFree(st, sec, x.pos);
    NewSlot(al, st.tr, st.log, st.at, x.pos);
    ItemLogged(al, st.tr, st.log, st'.log, st.at, st'.at, sec, x);
  }

  lemma LabelDone(al: seq<int>, st: Pass1, b: map<int, int>, c: Started, x: Item, rest: seq<int>, t: seq<Item>,
                  l: Label)
    requires PutLoop(al, st, c, x, rest, t) && Shaped(al, x.p, x.lits) && x.pos + 1 < SecPos(c.sec + 1)
    requires IsLabel(At(al, x.p)) && (TakesArg(At(al, x.p)) ==> rest != [])
    requires l == LabelOf(al, x.p, Argument(al, x, rest)) && l in st.labels && Collapsed(st.b, b, st.log, l, 0, x.pos)
    ensures PutLoop(al, Defined(st, b, c.sec, x, l), c, Next(al, x, Argument(al, x, rest)), LeftArgs(al, x.p, rest),
              t + [x])
  {
    Opened(al, st, c, x, rest, t);
    LabelBuffers(st, b, c.sec, x, l);
    LabelEvent(al, st, b, c.sec, x, l);
    ActionDone(al, st, Defined(st, b, c.sec, x, l), c, x, rest, t);
  }

  lemma StopDone(al: seq<int>, st: Pass1, c: Started, x: Item, rest: seq<int>, t: seq<Item>)
    requires PutLoop(al, st, c, x, rest, t) && Shaped(al, x.p, x.lits) && IsStop(At(al, x.p))
               && x.pos < SecPos(c.sec + 1)
    ensures PutOver(al, Stopped(st, c.sec, x), c, t + [x])
  {
    Opened(al, st, c, x, rest, t);
    StopRest(al, st, c.sec, x);
    StopProgress(al, st, c, x, rest, t);
  }

  lemma StopRest(al: seq<int>, st: Pass1, sec: nat, x: Item)
    requires Putting(al, st, sec, x) && Shaped(al, x.p, x.lits) && IsStop(At(al, x.p)) && x.pos < SecPos(sec + 1)
    ensures AtRest(al, Stopped(st, sec, x))
  {
    ItemLogged(al, st.tr, st.log, st.log, st.at, st.at, sec, x);
    StopTrace(al, st, sec, x);
  }

  lemma StopTrace(al: seq<int>, st: Pass1, sec: nat, x: Item)
    requires Bounded(st) && TracedBut(al, st.fixed, st, sec) && sec < |st.tr|
    requires Shaped(al, x.p, x.lits) && IsStop(At(al, x.p)) && Walk(al, st.fixed, st.tr[sec] + [x], SecPos(sec))
    ensures var st' := Stopped(st, sec, x); TracedBut(al, st'.fixed, st', -1)
  {
  }

  lemma StopProgress(al: seq<int>, st: Pass1, c: Started, x: Item, rest: seq<int>, t: seq<Item>)
    requires Progress(al, st, c, x.p, rest, t) && Shaped(al, x.p, x.lits) && IsStop(At(al, x.p))
    ensures PutDone(al, Stopped(st, c.sec, x), c, t + [x])
  {
    DidMore(al, st.fixed, st.fixed, c.log0, st.log, st.log, t, x, c.args, rest, c.sec, |c.tr0[c.sec]|);
    VisitedMore(c.tr0, c.sec, t, x);
    AllActions(al, c.start, t, x);
  }

  /** b[pos++] = start */
  function Begin(st: Pass1, sec: nat, start: int): Pass1
    requires sec < |st.spos|
  {
    st.(b := st.b[st.spos[sec] := start], fixed := st.fixed[st.spos[sec] := start])
  }

  lemma Begun(al: seq<int>, st: Pass1, c: Started)
    requires AtRest(al, st) && c.sec < |st.tr| == |st.spos| == |st.sofs|
               && st.spos[c.sec] + MAXSECPOS < SecPos(c.sec + 1)
    requires WellFormed(al, c.start, c.args, 0, st.labels.Keys, |st.sofs|, MAXSECPOS - 1)
    requires c == Started(c.start, c.args, c.sec, st.log, st.tr, st.fixed)
    ensures PutReady(al, Begin(st, c.sec, c.start), c, Item(c.start, st.spos[c.sec] + 1, st.sofs[c.sec], 0), c.args,
              MAXSECPOS - 1, [])
  {
    RestOpened(al, st);
    BegunPutting(al, st, c.sec, c.start);
    Closed(al, Begin(st, c.sec, c.start), c, Item(c.start, st.spos[c.sec] + 1, st.sofs[c.sec], 0), c.args, []);
  }

  lemma BegunPutting(al: seq<int>, st: Pass1, sec: nat, start: int)
    requires AtRest(al, st) && sec < |st.tr| == |st.spos| == |st.sofs| && st.spos[sec] + 1 < SecPos(sec + 1)
    ensures Grown(st.fixed, Begin(st, sec, start).fixed)
    ensures Putting(al, Begin(st, sec, start), sec, Item(start, st.spos[sec] + 1, st.sofs[sec], 0))
  {
    RestOpened(al, st);
    SlotStored(st.b, st.fixed, st.log, st.labels, st.spos, sec, start);
    BegunTrace(al, st, sec, start);
  }

  lemma BegunTrace(al: seq<int>, st: Pass1, sec: nat, start: int)
    requires Bounded(st) && TracedBut(al, st.fixed, st, -1) && sec < |st.tr| && st.spos[sec] !in st.fixed
    ensures var st' := Begin(st, sec, start);
            && TracedBut(al, st'.fixed, st', sec)
            && Walk(al, st'.fixed, st.tr[sec] + [Item(start, st.spos[sec] + 1, st.sofs[sec], 0)], SecPos(sec))
  {
    var st' := Begin(st, sec, start);
    TracedStill(al, st, st', -1);
    assert Traced(al, st'.fixed, st.tr[sec], SecPos(sec), st.spos[sec], st.sofs[sec]);
    NextCall(al, st'.fixed, st.tr[sec], SecPos(sec), st.spos[sec], st.sofs[sec], start);
  }

  lemma TracedStill(al: seq<int>, st: Pass1, st': Pass1, sec: int)
    requires TracedBut(al, st.fixed, st, sec) && Grown(st.fixed, st'.fixed) && st'.tr == st.tr && st'.spos == st.spos
               && st'.sofs == st.sofs
    ensures TracedBut(al, st'.fixed, st', sec)
  {
    forall s | 0 <= s < |st.tr| && s != sec
      ensures Traced(al, st'.fixed, st.tr[s], SecPos(s), st.spos[s], st.sofs[s])
    {
      TracedGrown(al, st.fixed, st'.fixed, st.tr[s], SecPos(s), st.spos[s], st.sofs[s]);
    }
  }

  lemma NextCall(al: seq<int>, fixed: map<int, int>, t: seq<Item>, start: int, end: int, ofs: int, p: int)
    requires Traced(al, fixed, t, start, end, ofs) && end in fixed && fixed[end] == p
    ensures Walk(al, fixed, t + [Item(p, end + 1, ofs, 0)], start)
  {
    if t != [] { WalkExtended(al, fixed, t, start, Item(p, end + 1, ofs, 0)); }
  }

  /** The loop of dasm_put, with the rest of the call still to come. */
  ghost predicate PutReady(al: seq<int>, st: Pass1, c: Started, x: Item, rest: seq<int>, room: int, t: seq<Item>) {
    && PutLoop(al, st, c, x, rest, t) && x.lits >= 0 && room >= 0 && x.pos + room < SecPos(c.sec + 1)
    && WellFormed(al, x.p, rest, x.lits, st.labels.Keys, |st.sofs|, room)
  }

  lemma ReadyNow(al: seq<int>, st: Pass1, c: Started, x: Item, rest: seq<int>, room: int, t: seq<Item>)
    requires PutReady(al, st, c, x, rest, room, t)
    ensures 0 <= x.p < |al| && PutLoop(al, st, c, x, rest, t) && Shaped(al, x.p, x.lits)
              && c.sec < |st.spos| == |st.sofs|
    ensures Fits(al, x.p, rest, x.lits, st.labels.Keys, |st.sofs|, SecPos(c.sec + 1) - 1 - x.pos)
  {
    Opened(al, st, c, x, rest, t);
    WellFormedNext(al, x.p, rest, x.lits, st.labels.Keys, |st.sofs|, room);
  }

  lemma ReadyNext(al: seq<int>, st: Pass1, st': Pass1, c: Started, x: Item, rest: seq<int>, room: int, t: seq<Item>)
    requires PutReady(al, st, c, x, rest, room, t) && !IsStop(At(al, x.p)) && st'.labels.Keys == st.labels.Keys
               && |st'.sofs| == |st.sofs|
    requires PutLoop(al, st', c, Next(al, x, Argument(al, x, rest)), LeftArgs(al, x.p, rest), t + [x])
    ensures PutReady(al, st', c, Next(al, x, Argument(al, x, rest)), LeftArgs(al, x.p, rest), room - Slots(At(al, x.p)),
              t + [x])
  {
    WellFormedNext(al, x.p, rest, x.lits, st.labels.Keys, |st.sofs|, room);
  }

  // ---- Whole runs ----

  /** A call of dasm_put: where its actions start, and its arguments. */
  datatype Call = Call(start: int, args: seq<int>)

  /** A call and its items. */
  datatype Played = Played(call: Call, t: seq<Item>)

  /** The section that is current after a run. */
  function SectionOf(al: seq<int>, run: seq<Played>): nat {
    if run == [] then 0 else SectionBehind(al, run[|run| - 1].t, SectionOf(al, run[..|run| - 1]))
  }

  /** The items of all sections after a run: each call went to the section that was current. */
  function TraceOf(al: seq<int>, run: seq<Played>, maxsection: nat): seq<seq<Item>> {
    if run == [] then seq(maxsection, s => [])
    else
      var front := run[..|run| - 1];
      Appended(TraceOf(al, front, maxsection), SectionOf(al, front), run[|run| - 1].t)
  }

  function ItemsIn(tr: seq<seq<Item>>, sec: nat): nat { if sec < |tr| then |tr[sec]| else 0 }

  /** The references and definitions of a run. */
  function LogOf(al: seq<int>, run: seq<Played>, maxsection: nat): seq<Event> {
    if run == [] then []
    else
      var front, last := run[..|run| - 1], run[|run| - 1];
      Log(al, LogOf(al, front, maxsection), last.t, last.call.args, SectionOf(al, front),
          ItemsIn(TraceOf(al, front, maxsection), SectionOf(al, front)))
  }

  /** A call was recorded: all its actions up to the stop, with the arguments that they take. */
  ghost predicate CallRecorded(al: seq<int>, fixed: map<int, int>, x: Played) {
    && Places(x.t) == Actions(al, x.call.start) && Taken(al, x.t) <= |x.call.args|
    && forall k {:trigger ArgStored(al, fixed, x.t, x.call.args, k)} :: ArgStored(al, fixed, x.t, x.call.args, k)
  }

  /** The state records the run, and nothing else. */
  ghost predicate Recorded(al: seq<int>, st: Pass1, run: seq<Played>, maxsection: nat) {
    && st.tr == TraceOf(al, run, maxsection) && st.log == LogOf(al, run, maxsection)
    && forall i :: 0 <= i < |run| ==> CallRecorded(al, st.fixed, run[i])
  }

  lemma CallKept(al: seq<int>, fixed: map<int, int>, fixed': map<int, int>, x: Played)
    requires CallRecorded(al, fixed, x) && Grown(fixed, fixed')
    ensures CallRecorded(al, fixed', x)
  {
    forall k: nat ensures ArgStored(al, fixed', x.t, x.call.args, k) {
      assert ArgStored(al, fixed, x.t, x.call.args, k);
    }
  }

  lemma RecordedKept(al: seq<int>, st: Pass1, st': Pass1, run: seq<Played>, maxsection: nat)
    requires Recorded(al, st, run, maxsection) && st'.tr == st.tr && st'.log == st.log && Grown(st.fixed, st'.fixed)
    ensures Recorded(al, st', run, maxsection)
  {
    forall i | 0 <= i < |run| ensures CallRecorded(al, st'.fixed, run[i]) { CallKept(al, st.fixed, st'.fixed, run[i]); }
  }

  lemma RecordedMore(al: seq<int>, st: Pass1, st': Pass1, run: seq<Played>, maxsection: nat, c: Started, t: seq<Item>)
    requires Recorded(al, st, run, maxsection) && PutDone(al, st', c, t)
    requires c == Started(c.start, c.args, SectionOf(al, run), st.log, st.tr, st.fixed)
    ensures Recorded(al, st', run + [Played(Call(c.start, c.args), t)], maxsection)
  {
    var x := Played(Call(c.start, c.args), t);
    var run' := run + [x];
    assert run'[..|run| ] == run && run'[|run|] == x;
    assert CallRecorded(al, st'.fixed, x);
    forall i | 0 <= i < |run'| ensures CallRecorded(al, st'.fixed, run'[i]) {
      if i < |run| { CallKept(al, st.fixed, st'.fixed, run[i]); }
    }
  }
}
