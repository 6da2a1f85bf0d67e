/**
 * Pass 2 of DynASM (dasm_x86.h): the relation between the section buffers
 * before and after linking, and what it means for the final code offsets.
 */
module DasmLink {
  import opened DasmLabels
  import opened DasmActions
  import opened DasmTrace

  /** The pass 1 sizes of the sections from s up to s'. */
  function SumOfs(sofs: seq<int>, s: int, s': int): int
    decreases s' - s
  {
    if s' <= s then 0 else SumOfs(sofs, s, s' - 1) + (if 0 <= s' - 1 < |sofs| then sofs[s' - 1] else 0)
  }

  function Held(b: map<int, int>, x: int): int {
    if x in b then b[x] else 0
  }

  /**
   * The distance that linking compares: from the end of the long form of branch
   * x to the definition at v. For a definition further on it is an estimate of
   * pass 1.
   */
  function Distance(b: map<int, int>, fixed: map<int, int>, sofs: seq<int>, s: int, x: Item, a: int, v: int): int {
    if v > x.pos then Held(fixed, v) + SumOfs(sofs, s, PosSec(v)) - (x.ofs + 4)
    else Held(b, v) - a - (x.ofs + 4)
  }

  /** By how much linking shortens branch x, whose opcode byte is op. */
  function Shortened(b: map<int, int>, fixed: map<int, int>, sofs: seq<int>, s: int, x: Item, a: int, op: int): int {
    var v, shrink := Held(b, x.pos), Shrink(op);
    if v >= 0 && -128 - shrink <= Distance(b, fixed, sofs, s, x, a, v) <= 127 then shrink else 0
  }

  /** y & m for a mask m */
  function Cut(y: int, m: int): (r: int)
    ensures m >= 0 ==> 0 <= r <= m
  {
    if m >= 0 then y % (m + 1) else 0
  }

  /** Linking item x takes the correction from a to a'. */
  ghost predicate LinkStep(al: seq<int>, b: map<int, int>, fixed: map<int, int>, sofs: seq<int>, s: int, x: Item,
                           a: int, a': int) {
    var act := At(al, x.p);
    && (IsArg(act) ==> x.pos in b && b[x.pos] == Held(fixed, x.pos))
    && (IsLabel(act) ==> x.pos in b && b[x.pos] == x.ofs + a)
    && (IsRel(act) ==> x.pos + 1 in b && b[x.pos + 1] == Shortened(b, fixed, sofs, s, x, a, At(al, x.p - 1)))
    && (IsRef(act) ==> x.pos in b && b[x.pos] == Held(fixed, x.pos))
    && (IsStop(act) && x.pos in fixed ==> x.pos in b && b[x.pos] == fixed[x.pos])
    && a' == if IsRel(act) then a - b[x.pos + 1]
             else if act == ALIGN then a - Cut(x.ofs + At(al, x.p + 1) + a, At(al, x.p + 1))
             else a
  }

  ghost predicate LinkAt(al: seq<int>, b: map<int, int>, fixed: map<int, int>, sofs: seq<int>, s: int, t: seq<Item>,
                         adj: seq<int>, k: int) {
    0 <= k < |t| && k + 1 < |adj| ==>
        SlotsOk(al, fixed, t[k]) && LinkStep(al, b, fixed, sofs, s, t[k], adj[k], adj[k + 1])
  }

  // ---- Before linking ----

  ghost predicate TargetSlot(fixed: map<int, int>, log: seq<Event>, i: nat) {
    i < |log| && log[i].Ref? ==>
      && log[i].pos in fixed && fixed[log[i].pos] == Target(log, i) != 0
      && (Bound(log, i) != 0 ==> Target(log, i) > 0 && Target(log, i) in fixed)
      && (Bound(log, i) == 0 ==> log[i].lab.Lg? && log[i].lab.n >= 10)
  }

  /** What linking starts from: recorded sections, with every reference resolved or marked. */
  ghost predicate Ready(al: seq<int>, fixed: map<int, int>, tr: seq<seq<Item>>, log: seq<Event>, at: map<int, nat>,
                        spos: seq<int>, sofs: seq<int>) {
    && |tr| == |sofs| == |spos| && Logged(al, tr, log, at) && Distinct(log)
    && (forall i :: 0 <= i < |log| ==> ForwardLocal(log[i]))
    && (forall i {:trigger TargetSlot(fixed, log, i)} :: TargetSlot(fixed, log, i))
    && forall s :: 0 <= s < |tr| ==>
         SecPos(s) <= spos[s] < SecPos(s + 1) && Traced(al, fixed, tr[s], SecPos(s), spos[s], sofs[s])
  }

  /** The slots of a reference, found through its item. */
  lemma RefTarget(al: seq<int>, fixed: map<int, int>, tr: seq<seq<Item>>, log: seq<Event>, at: map<int, nat>,
                  spos: seq<int>, sofs: seq<int>, s: nat, k: nat)
    requires Ready(al, fixed, tr, log, at, spos, sofs) && s < |tr| && k < |tr[s]| && IsRef(At(al, tr[s][k].p))
    ensures var x := tr[s][k]; x.pos in at && at[x.pos] < |log| && RefFor(al, x, log[at[x.pos]])
                               && x.pos in fixed && fixed[x.pos] == Target(log, at[x.pos])
                                   && (fixed[x.pos] >= 0 ==> fixed[x.pos] in fixed)
  {
    assert RefLogged(al, tr, log, at, s, k);
    assert TargetSlot(fixed, log, at[tr[s][k].pos]);
  }

  /** Each item up to the last one leads to the next. */
  lemma ItemShape(al: seq<int>, fixed: map<int, int>, tr: seq<seq<Item>>, spos: seq<int>, sofs: seq<int>, s: nat,
                  k: nat)
    requires s < |tr| == |spos| == |sofs| && k < |tr[s]| && Traced(al, fixed, tr[s], SecPos(s), spos[s], sofs[s])
    ensures var x := tr[s][k];
            && Shaped(al, x.p, x.lits)
            && (IsStop(At(al, x.p)) || k + 1 < |tr[s]|)
            && (k + 1 < |tr[s]| ==> Step(al, fixed, x, tr[s][k + 1]))
            && SlotsOk(al, fixed, x)
  {
    assert StepAt(al, fixed, tr[s], k);
  }

  /** The start of the first dasm_put of a section stays in its buffer. */
  ghost predicate StartKept(b: map<int, int>, fixed: map<int, int>, t: seq<Item>, start: int) {
    t != [] && start in fixed ==> start in b && b[start] == fixed[start]
  }

  /** A section is linked: adj are the corrections before each item, and after the last. */
  ghost predicate SectionLinked(al: seq<int>, b: map<int, int>, fixed: map<int, int>, sofs: seq<int>, s: nat,
                                t: seq<Item>, adj: seq<int>,
                                from: int, to: int) {
    && s < |sofs| && |adj| == |t| + 1 && adj[0] == from && to == adj[|t|] + sofs[s] && StartKept(b, fixed, t, SecPos(s))
    && forall k {:trigger LinkAt(al, b, fixed, sofs, s, t, adj, k)} :: LinkAt(al, b, fixed, sofs, s, t, adj, k)
  }

  /** Writes behind an item do not matter for it. */
  lemma LinkAtKept(al: seq<int>, b: map<int, int>, b': map<int, int>, fixed: map<int, int>, sofs: seq<int>, s: int,
                   t: seq<Item>, adj: seq<int>, adj': seq<int>, k: int, pos: int, start: int)
    requires Walk(al, fixed, t, start) && LinkAt(al, b, fixed, sofs, s, t, adj, k) && adj <= adj'
    requires b'.Keys == b.Keys && forall x :: x in b && x < pos ==> b'[x] == b[x]
    requires 0 <= k < |t| && k + 1 < |adj| && t[k].pos + Slots(At(al, t[k].p)) <= pos
    ensures LinkAt(al, b', fixed, sofs, s, t, adj', k)
  {
    AboveStart(al, fixed, t, start, k);
  }

  /** All sections are linked one behind the other. */
  ghost predicate Linked(al: seq<int>, b: map<int, int>, fixed: map<int, int>, tr: seq<seq<Item>>, spos: seq<int>,
                         sofs: seq<int>,
                         adj: seq<seq<int>>, starts: seq<int>) {
    && |adj| == |tr| == |sofs| == |spos| && |starts| == |tr| + 1 && starts[0] == 0
    && forall s :: 0 <= s < |tr| ==>
         && SecPos(s) <= spos[s] < SecPos(s + 1)
         && Traced(al, fixed, tr[s], SecPos(s), spos[s], sofs[s])
         && SectionLinked(al, b, fixed, sofs, s, tr[s], adj[s], starts[s], starts[s + 1])
  }

  // ---- Final offsets ----

  /** The pass 1 offset before item k, or behind the last item. */
  function Estimate(t: seq<Item>, size: int, k: int): int {
    if 0 <= k < |t| then t[k].ofs else size
  }

  /** The final code offset before item k, or behind the last item. */
  function Final(t: seq<Item>, adj: seq<int>, size: int, k: int): int {
    Estimate(t, size, k) + if 0 <= k < |adj| then adj[k] else 0
  }

  /** Linking only takes bytes away, and not more than pass 1 assumed. */
  lemma {:induction false} Spread(al: seq<int>, b: map<int, int>, fixed: map<int, int>, tr: seq<seq<Item>>,
                                  spos: seq<int>, sofs: seq<int>,
                                  adj: seq<seq<int>>, starts: seq<int>, s: nat, i: nat, j: nat)
    requires Linked(al, b, fixed, tr, spos, sofs, adj, starts) && s < |tr| && i <= j <= |tr[s]|
    ensures var t, size := tr[s], sofs[s];
            0 <= Final(t, adj[s], size, j) - Final(t, adj[s], size, i) <= Estimate(t, size, j) - Estimate(t, size, i)
    decreases j - i
  {
    if i < j {
      Spread(al, b, fixed, tr, spos, sofs, adj, starts, s, i, j - 1);
      OneStep(al, b, fixed, tr, spos, sofs, adj, starts, s, j - 1);
    }
  }

  lemma OneStep(al: seq<int>, b: map<int, int>, fixed: map<int, int>, tr: seq<seq<Item>>, spos: seq<int>,
                sofs: seq<int>,
                adj: seq<seq<int>>, starts: seq<int>, s: nat, k: nat)
    requires Linked(al, b, fixed, tr, spos, sofs, adj, starts) && s < |tr| && k < |tr[s]|
    ensures var t, size := tr[s], sofs[s];
            0 <= Final(t, adj[s], size, k + 1) - Final(t, adj[s], size, k) <= Estimate(t, size, k + 1) - Estimate(t,
                size, k)
  {
    var t := tr[s];
    assert Traced(al, fixed, t, SecPos(s), spos[s], sofs[s]);
    assert StepAt(al, fixed, t, k);
    assert SectionLinked(al, b, fixed, sofs, s, t, adj[s], starts[s], starts[s + 1]);
    assert LinkAt(al, b, fixed, sofs, s, t, adj[s], k);
  }

  lemma SumOfsFirst(sofs: seq<int>, s: nat, s': nat)
    requires s < s' <= |sofs|
    ensures SumOfs(sofs, s, s') == sofs[s] + SumOfs(sofs, s + 1, s')
    decreases s'
  {
    if s + 1 < s' { SumOfsFirst(sofs, s, s' - 1); }
  }

  lemma SectionStart(al: seq<int>, b: map<int, int>, fixed: map<int, int>, tr: seq<seq<Item>>, spos: seq<int>,
                     sofs: seq<int>,
                     adj: seq<seq<int>>, starts: seq<int>, s: nat)
    requires Linked(al, b, fixed, tr, spos, sofs, adj, starts) && s < |tr|
    ensures Final(tr[s], adj[s], sofs[s], 0) == starts[s] && Estimate(tr[s], sofs[s], 0) == 0
    ensures Final(tr[s], adj[s], sofs[s], |tr[s]|) == starts[s + 1]
  {
    assert Traced(al, fixed, tr[s], SecPos(s), spos[s], sofs[s]);
    assert SectionLinked(al, b, fixed, sofs, s, tr[s], adj[s], starts[s], starts[s + 1]);
  }

  lemma {:induction false} Sections(al: seq<int>, b: map<int, int>, fixed: map<int, int>, tr: seq<seq<Item>>,
                                    spos: seq<int>, sofs: seq<int>,
                                    adj: seq<seq<int>>, starts: seq<int>, s: nat, s': nat)
    requires Linked(al, b, fixed, tr, spos, sofs, adj, starts) && s <= s' <= |tr|
    ensures 0 <= starts[s'] - starts[s] <= SumOfs(sofs, s, s')
    decreases s' - s
  {
    if s < s' {
      Sections(al, b, fixed, tr, spos, sofs, adj, starts, s, s' - 1);
      SectionStart(al, b, fixed, tr, spos, sofs, adj, starts, s' - 1);
      Spread(al, b, fixed, tr, spos, sofs, adj, starts, s' - 1, 0, |tr[s' - 1]|);
      LastEstimate(al, fixed, tr[s' - 1], SecPos(s' - 1), spos[s' - 1], sofs[s' - 1]);
    }
  }

  lemma LastEstimate(al: seq<int>, fixed: map<int, int>, t: seq<Item>, start: int, end: int, size: int)
    requires Traced(al, fixed, t, start, end, size)
    ensures Estimate(t, size, |t|) == size && size >= 0
  {
    if t != [] { AboveStart(al, fixed, t, start, |t| - 1); }
  }

  /** Item j of section s is the definition with slot v. */
  ghost predicate LabelItem(al: seq<int>, tr: seq<seq<Item>>, s: nat, j: nat, v: int) {
    s < |tr| && j < |tr[s]| && tr[s][j].pos == v && IsLabel(At(al, tr[s][j].p))
  }

  /** After linking, the slot of a definition holds its final offset. */
  lemma LabelFinal(al: seq<int>, b: map<int, int>, fixed: map<int, int>, tr: seq<seq<Item>>, spos: seq<int>,
                   sofs: seq<int>,
                   adj: seq<seq<int>>, starts: seq<int>, s: nat, j: nat, v: int)
    requires Linked(al, b, fixed, tr, spos, sofs, adj, starts) && LabelItem(al, tr, s, j, v)
    ensures v in b && b[v] == Final(tr[s], adj[s], sofs[s], j) >= 0 && Held(fixed, v) == tr[s][j].ofs && PosSec(v) == s
  {
    assert SectionLinked(al, b, fixed, sofs, s, tr[s], adj[s], starts[s], starts[s + 1]);
    assert LinkAt(al, b, fixed, sofs, s, tr[s], adj[s], j);
    Spread(al, b, fixed, tr, spos, sofs, adj, starts, s, 0, j);
    Sections(al, b, fixed, tr, spos, sofs, adj, starts, 0, s);
    SectionStart(al, b, fixed, tr, spos, sofs, adj, starts, s);
    ItemInSection(al, fixed, tr, spos, sofs, s, j);
  }

  lemma ItemInSection(al: seq<int>, fixed: map<int, int>, tr: seq<seq<Item>>, spos: seq<int>, sofs: seq<int>, s: nat,
                      j: nat)
    requires s < |tr| == |spos| == |sofs| && j < |tr[s]| && Traced(al, fixed, tr[s], SecPos(s), spos[s], sofs[s])
    requires SecPos(s) <= spos[s] < SecPos(s + 1)
    ensures SecPos(s) < tr[s][j].pos <= spos[s] && PosSec(tr[s][j].pos) == s
  {
    AboveStart(al, fixed, tr[s], SecPos(s), j);
    if j + 1 < |tr[s]| { SlotOrder(al, fixed, tr[s], SecPos(s), j, |tr[s]| - 1); }
  }

  /**
   * A branch is shortened only if its final displacement fits a signed byte,
   * whether its label is further on, estimated by pass 1 across sections, or
   * before it, and final already.
   */
  lemma ShortBranchFits(al: seq<int>, b: map<int, int>, fixed: map<int, int>, tr: seq<seq<Item>>, spos: seq<int>,
                        sofs: seq<int>,
                        adj: seq<seq<int>>, starts: seq<int>, s: nat, k: nat, s': nat, j: nat)
    requires Linked(al, b, fixed, tr, spos, sofs, adj, starts)
    requires s < |tr| && k < |tr[s]| && IsRel(At(al, tr[s][k].p)) && LabelItem(al, tr, s', j, Held(b, tr[s][k].pos))
    requires Held(b, tr[s][k].pos + 1) != 0
    ensures -128 <= Final(tr[s'], adj[s'], sofs[s'], j) - Final(tr[s], adj[s], sofs[s], k + 1) <= 127
  {
    var t, x, v := tr[s], tr[s][k], Held(b, tr[s][k].pos);
    assert Traced(al, fixed, t, SecPos(s), spos[s], sofs[s]) && StepAt(al, fixed, t, k);
    assert SectionLinked(al, b, fixed, sofs, s, t, adj[s], starts[s], starts[s + 1]);
    assert LinkAt(al, b, fixed, sofs, s, t, adj[s], k);
    LabelFinal(al, b, fixed, tr, spos, sofs, adj, starts, s', j, v);
    ItemInSection(al, fixed, tr, spos, sofs, s, k);
    ItemInSection(al, fixed, tr, spos, sofs, s', j);
    if v > x.pos {
      ForwardFits(al, b, fixed, tr, spos, sofs, adj, starts, s, k, s', j);
    } else {
      if s == s' && j < k { SlotOrder(al, fixed, t, SecPos(s), j, k); }
      if s == s' && k < j { SlotOrder(al, fixed, t, SecPos(s), k, j); }
      Before(al, b, fixed, tr, spos, sofs, adj, starts, s', j, s, k);
      OneStep(al, b, fixed, tr, spos, sofs, adj, starts, s, k);
    }
  }

  /**
   * Backward, where distances are exact, a branch whose opcode has a short form gets it if and only if the
   * displacement of that form fits a signed byte; forward, if the distance that pass 1 estimated is at most 127.
   */
  lemma ShortWhenItFits(al: seq<int>, b: map<int, int>, fixed: map<int, int>, tr: seq<seq<Item>>, spos: seq<int>,
                        sofs: seq<int>,
                        adj: seq<seq<int>>, starts: seq<int>, s: nat, k: nat, s': nat, j: nat)
    requires Linked(al, b, fixed, tr, spos, sofs, adj, starts)
    requires s < |tr| && k < |tr[s]| && IsRel(At(al, tr[s][k].p)) && LabelItem(al, tr, s', j, Held(b, tr[s][k].pos))
    ensures var x, op := tr[s][k], At(al, tr[s][k].p - 1);
            var d := Final(tr[s'], adj[s'], sofs[s'], j) - (Final(tr[s], adj[s], sofs[s], k) + 4 - Shrink(op));
            && (tr[s'][j].pos <= x.pos ==> (Held(b, x.pos + 1) != 0 <==> Shrink(op) != 0 && -128 <= d <= 127))
            && (tr[s'][j].pos > x.pos ==>
                  (Held(b, x.pos + 1) != 0 <==>
                     Shrink(op) != 0 && -128 - Shrink(op) <= tr[s'][j].ofs + SumOfs(sofs, s, s') - (x.ofs + 4) <= 127))
            && (Held(b, x.pos + 1) != 0 ==> Held(b, x.pos + 1) == Shrink(op))
  {
    var t, x, v := tr[s], tr[s][k], Held(b, tr[s][k].pos);
    assert Traced(al, fixed, t, SecPos(s), spos[s], sofs[s]) && StepAt(al, fixed, t, k);
    assert SectionLinked(al, b, fixed, sofs, s, t, adj[s], starts[s], starts[s + 1]);
    assert LinkAt(al, b, fixed, sofs, s, t, adj[s], k);
    LabelFinal(al, b, fixed, tr, spos, sofs, adj, starts, s', j, v);
    ItemInSection(al, fixed, tr, spos, sofs, s, k);
    ItemInSection(al, fixed, tr, spos, sofs, s', j);
    if v <= x.pos {
      if s == s' && j < k { SlotOrder(al, fixed, t, SecPos(s), j, k); }
      if s == s' && k < j { SlotOrder(al, fixed, t, SecPos(s), k, j); }
      Before(al, b, fixed, tr, spos, sofs, adj, starts, s', j, s, k);
    }
  }

  /** Items with lower positions come earlier in the code. */
  lemma Before(al: seq<int>, b: map<int, int>, fixed: map<int, int>, tr: seq<seq<Item>>, spos: seq<int>, sofs: seq<int>,
               adj: seq<seq<int>>, starts: seq<int>, s: nat, k: nat, s': nat, j: nat)
    requires Linked(al, b, fixed, tr, spos, sofs, adj, starts)
    requires s < |tr| && k < |tr[s]| && s' < |tr| && j < |tr[s']| && tr[s][k].pos <= tr[s'][j].pos
    requires tr[s][k].pos == tr[s'][j].pos ==> s == s' && k <= j
    ensures s <= s' && (s == s' ==> k <= j)
    ensures Final(tr[s], adj[s], sofs[s], k) <= Final(tr[s'], adj[s'], sofs[s'], j)
  {
    ItemInSection(al, fixed, tr, spos, sofs, s, k);
    ItemInSection(al, fixed, tr, spos, sofs, s', j);
    if s == s' {
      if j < k { SlotOrder(al, fixed, tr[s], SecPos(s), j, k); }
      Spread(al, b, fixed, tr, spos, sofs, adj, starts, s, k, j);
    } else {
      Spread(al, b, fixed, tr, spos, sofs, adj, starts, s, k, |tr[s]|);
      Spread(al, b, fixed, tr, spos, sofs, adj, starts, s', 0, j);
      SectionStart(al, b, fixed, tr, spos, sofs, adj, starts, s);
      SectionStart(al, b, fixed, tr, spos, sofs, adj, starts, s');
      Sections(al, b, fixed, tr, spos, sofs, adj, starts, s + 1, s');
    }
  }

  lemma ForwardFits(al: seq<int>, b: map<int, int>, fixed: map<int, int>, tr: seq<seq<Item>>, spos: seq<int>,
                    sofs: seq<int>,
                    adj: seq<seq<int>>, starts: seq<int>, s: nat, k: nat, s': nat, j: nat)
    requires Linked(al, b, fixed, tr, spos, sofs, adj, starts)
    requires s < |tr| && k < |tr[s]| && IsRel(At(al, tr[s][k].p)) && s' < |tr| && j < |tr[s']|
               && tr[s'][j].pos > tr[s][k].pos
    requires k + 1 < |tr[s]| && tr[s][k + 1].ofs == tr[s][k].ofs + 4
    ensures 0 <= Final(tr[s'], adj[s'], sofs[s'], j) - Final(tr[s], adj[s], sofs[s], k + 1)
              <= tr[s'][j].ofs + SumOfs(sofs, s, s') - (tr[s][k].ofs + 4)
  {
    Before(al, b, fixed, tr, spos, sofs, adj, starts, s, k, s', j);
    if s == s' {
      Spread(al, b, fixed, tr, spos, sofs, adj, starts, s, k + 1, j);
    } else {
      Spread(al, b, fixed, tr, spos, sofs, adj, starts, s, k + 1, |tr[s]|);
      LastEstimate(al, fixed, tr[s], SecPos(s), spos[s], sofs[s]);
      Spread(al, b, fixed, tr, spos, sofs, adj, starts, s', 0, j);
      SectionStart(al, b, fixed, tr, spos, sofs, adj, starts, s);
      SectionStart(al, b, fixed, tr, spos, sofs, adj, starts, s');
      Sections(al, b, fixed, tr, spos, sofs, adj, starts, s + 1, s');
      SumOfsFirst(sofs, s, s');
    }
  }

  // ---- The loops of dasm_link ----

  /** All but the positions below pos is as before linking. */
  ghost predicate Untouched(b0: map<int, int>, b: map<int, int>, pos: int) {
    b.Keys == b0.Keys && forall x :: x in b0 && x >= pos ==> b[x] == b0[x]
  }

  ghost predicate SectionsLinked(al: seq<int>, b: map<int, int>, fixed: map<int, int>, tr: seq<seq<Item>>,
                                 sofs: seq<int>,
                                 adj: seq<seq<int>>, starts: seq<int>, n: nat) {
    && n <= |tr| == |sofs| && |adj| == n && |starts| == n + 1 && starts[0] == 0
    && forall s :: 0 <= s < n ==> SectionLinked(al, b, fixed, sofs, s, tr[s], adj[s], starts[s], starts[s + 1])
  }

  /** Linking section s reached item k; cur are the corrections so far. */
  ghost predicate LinkedUpTo(al: seq<int>, b: map<int, int>, fixed: map<int, int>, sofs: seq<int>, s: nat, t: seq<Item>,
                             cur: seq<int>, k: nat, from: int, ofs: int) {
    && k <= |t| && |cur| == k + 1 && cur[0] == from && cur[k] == ofs && StartKept(b, fixed, t, SecPos(s))
    && forall i {:trigger LinkAt(al, b, fixed, sofs, s, t, cur, i)} :: LinkAt(al, b, fixed, sofs, s, t, cur, i)
  }

  lemma LinkedMore(al: seq<int>, b: map<int, int>, b': map<int, int>, fixed: map<int, int>, sofs: seq<int>, s: nat,
                   t: seq<Item>, cur: seq<int>,
                   k: nat, from: int, ofs: int, ofs': int, start: int)
    requires LinkedUpTo(al, b, fixed, sofs, s, t, cur, k, from, ofs) && k < |t| && Walk(al, fixed, t, start)
               && start == SecPos(s)
    requires b'.Keys == b.Keys && forall x :: x in b && x < t[k].pos ==> b'[x] == b[x]
    requires SlotsOk(al, fixed, t[k]) && LinkStep(al, b', fixed, sofs, s, t[k], ofs, ofs')
    ensures LinkedUpTo(al, b', fixed, sofs, s, t, cur + [ofs'], k + 1, from, ofs')
  {
    var cur' := cur + [ofs'];
    AboveStart(al, fixed, t, start, k);
    forall i ensures LinkAt(al, b', fixed, sofs, s, t, cur', i) {
      assert LinkAt(al, b, fixed, sofs, s, t, cur, i);
      if 0 <= i < k {
        SlotOrder(al, fixed, t, start, i, k);
        LinkAtKept(al, b, b', fixed, sofs, s, t, cur, cur', i, t[k].pos, start);
      }
    }
  }

  lemma SectionsKept(al: seq<int>, b: map<int, int>, b': map<int, int>, fixed: map<int, int>, tr: seq<seq<Item>>,
                     spos: seq<int>, sofs: seq<int>,
                     adj: seq<seq<int>>, starts: seq<int>, n: nat, pos: int)
    requires SectionsLinked(al, b, fixed, tr, sofs, adj, starts, n) && SecPos(n) <= pos && |spos| == |tr|
    requires forall s ::
               0 <= s < |tr| ==>
                 SecPos(s) <= spos[s] < SecPos(s + 1) && Traced(al, fixed, tr[s], SecPos(s), spos[s], sofs[s])
    requires b'.Keys == b.Keys && forall x :: x in b && x < pos ==> b'[x] == b[x]
    ensures SectionsLinked(al, b', fixed, tr, sofs, adj, starts, n)
  {
    forall s | 0 <= s < n
      ensures SectionLinked(al, b', fixed, sofs, s, tr[s], adj[s], starts[s], starts[s + 1])
    {
      var t := tr[s];
      assert SectionLinked(al, b, fixed, sofs, s, t, adj[s], starts[s], starts[s + 1]);
      forall k ensures LinkAt(al, b', fixed, sofs, s, t, adj[s], k) {
        assert LinkAt(al, b, fixed, sofs, s, t, adj[s], k);
        if 0 <= k < |t| {
          ItemInSection(al, fixed, tr, spos, sofs, s, k);
          ItemShape(al, fixed, tr, spos, sofs, s, k);
          SlotsBelow(al, fixed, tr, spos, sofs, s, k);
          LinkAtKept(al, b, b', fixed, sofs, s, t, adj[s], adj[s], k, pos, SecPos(s));
        }
      }
    }
  }

  lemma SlotsBelow(al: seq<int>, fixed: map<int, int>, tr: seq<seq<Item>>, spos: seq<int>, sofs: seq<int>, s: nat,
                   k: nat)
    requires s < |tr| == |spos| == |sofs| && k < |tr[s]| && Traced(al, fixed, tr[s], SecPos(s), spos[s], sofs[s])
    requires SecPos(s) <= spos[s] < SecPos(s + 1)
    ensures tr[s][k].pos + Slots(At(al, tr[s][k].p)) <= SecPos(s + 1)
  {
    if k + 1 < |tr[s]| { SlotOrder(al, fixed, tr[s], SecPos(s), k, |tr[s]| - 1); }
  }

  /** A definition does not share a slot with a reference. */
  lemma OwnSlots(al: seq<int>, fixed: map<int, int>, tr: seq<seq<Item>>, spos: seq<int>, sofs: seq<int>, s: nat, k: nat,
                 s': nat, j: nat)
    requires |tr| == |spos| == |sofs| && s < |tr| && k < |tr[s]| && s' < |tr| && j < |tr[s']|
    requires forall i ::
               0 <= i < |tr| ==>
                 SecPos(i) <= spos[i] < SecPos(i + 1) && Traced(al, fixed, tr[i], SecPos(i), spos[i], sofs[i])
    requires IsRef(At(al, tr[s][k].p)) && IsLabel(At(al, tr[s'][j].p))
    ensures tr[s'][j].pos != tr[s][k].pos && (IsRel(At(al, tr[s][k].p)) ==> tr[s'][j].pos != tr[s][k].pos + 1)
  {
    ItemInSection(al, fixed, tr, spos, sofs, s', j);
    ItemInSection(al, fixed, tr, spos, sofs, s, k);
    ItemShape(al, fixed, tr, spos, sofs, s, k);
    if s == s' {
      if j < k { SlotOrder(al, fixed, tr[s], SecPos(s), j, k); }
      if k < j { SlotOrder(al, fixed, tr[s], SecPos(s), k, j); }
    } else {
      ItemInSection(al, fixed, tr, spos, sofs, s, k + 1);
    }
  }
}
