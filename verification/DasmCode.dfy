/**
 * The code that pass 3 of DynASM (dasm_x86.h) emits: action by action, with the
 * bytes that later actions take back or change, and what it amounts to: as many
 * bytes as linking said, and branches that reach their labels.
 */
module DasmCode {
  import opened DasmLabels
  import opened DasmActions
  import opened DasmTrace
  import opened DasmLink
  import opened Words

  /** The low bytes of n, least significant first. */
  function Bytes(n: int, k: nat): (r: seq<int>)
    ensures |r| == k
    decreases k
  {
    if k == 0 then [] else [n % 256] + Bytes(n / 256, k - 1)
  }

  function Value(s: seq<int>): int {
    if s == [] then 0 else s[0] + 256 * Value(s[1..])
  }

  lemma ValueCons(x: int, s: seq<int>)
    ensures Value([x] + s) == x + 256 * Value(s)
  {
    assert ([x] + s)[1..] == s;
  }

  lemma BytesValue(n: int, k: nat)
    requires k > 0
    ensures Value(Bytes(n, k)) == n % 256 + 256 * Value(Bytes(n / 256, k - 1))
  {
    ValueCons(n % 256, Bytes(n / 256, k - 1));
  }

  lemma BytesValue4(n: int)
    ensures Value(Bytes(n, 4)) == n % WORD32
  {
    var m := n / 256;
    var k := m / 256;
    var l := k / 256;
    BytesValue(n, 4);
    BytesValue(m, 3);
    BytesValue(k, 2);
    BytesValue(l, 1);
    assert Value(Bytes(l / 256, 0)) == 0;
    assert n == n % 256 + 256 * (m % 256) + 0x1_0000 * (k % 256) + 0x100_0000 * (l % 256) + WORD32 * (l / 256);
  }

  /** A byte as a displacement. */
  function Signed8(x: int): int { if x < 128 then x else x - 256 }

  /** The address of a symbol that is not defined here. */
  function AddressOf(gl: map<int, int>, idx: int): int { if idx in gl then gl[idx] else 0 }

  /** mark[-2] += 2: the opcode gets its byte-sized form. */
  function Bumped(out: seq<int>): seq<int> {
    if |out| >= 2 then out[|out| - 2 := (out[|out| - 2] + 2) % 256] else out
  }

  /** Code up to a multiple of the mask plus one. */
  function Nops(cp: int, m: int): nat {
    if m < 0 || cp % (m + 1) == 0 then 0 else m + 1 - cp % (m + 1)
  }

  function Branch(b: map<int, int>, gl: map<int, int>, base: int, out: seq<int>, x: Item): seq<int> {
    var n, cp, shrink := Held(b, x.pos), |out|, Held(b, x.pos + 1);
    var d := Held(b, n) - (cp + 4 - shrink);
    if n < 0 then out + Bytes(AddressOf(gl, -n) - (base + cp + 4), 4)
    else if shrink == 4 && cp >= 2 then out[..cp - 2] + [out[cp - 1] - 0x10] + [d % 256]
    else if shrink == 3 && cp >= 1 then out[..cp - 1] + [0xeb] + [d % 256]
    else out + Bytes(d, 4)
  }

  /** Bytes of an action with argument n. */
  function ArgLength(a: int, n: int): int {
    if a == IMM_S || a == IMM_B then 1
    else if a == IMM_W then 2
    else if a == IMM_WB then (if FitsByte(n) then 1 else 2)
    else if a == IMM_DB then (if FitsByte(n) then 1 else 4)
    else if a == SPACE then n
    else 4
  }

  function ArgCode(out: seq<int>, a: int, n: int, fill: int, base: int): seq<int> {
    if a == IMM_S || a == IMM_B then out + Bytes(n, 1)
    else if a == IMM_W then out + Bytes(n, 2)
    else if a == IMM_WB then (if FitsByte(n) then Bumped(out) + Bytes(n, 1) else out + Bytes(n, 2))
    else if a == IMM_DB then (if FitsByte(n) then Bumped(out) + Bytes(n, 1) else out + Bytes(n, 4))
    else if a == SPACE then out + seq(if n < 0 then 0 else n, i => fill)
    else out + Bytes(if a == REL_A then n - (base + |out| + 4) else n, 4)
  }

  /**
   * The code after item x, given the code before it; base is the address of the code, gl those of
   * undefined globals.
   */
  function ItemCode(al: seq<int>, b: map<int, int>, gl: map<int, int>, base: int, out: seq<int>, x: Item): seq<int> {
    var a, n, cp := At(al, x.p), Held(b, x.pos), |out|;
    if a < DISP then out + [a]
    else if a == ESC then out + [At(al, x.p + 1)]
    else if IsArg(a) then ArgCode(out, a, n, At(al, x.p + 1), base)
    else if IsRel(a) then Branch(b, gl, base, out, x)
    else if IsRef(a) then out + Bytes(if n < 0 then AddressOf(gl, -n) else Held(b, n) + base, 4)
    else if a == ALIGN then out + seq(Nops(cp, At(al, x.p + 1)), i => 0x90)
    else out
  }

  /** The code after the first k items of a section, given that of the sections before. */
  function Code(al: seq<int>, b: map<int, int>, gl: map<int, int>, base: int, out: seq<int>, t: seq<Item>,
                k: nat): seq<int>
    requires k <= |t|
  {
    if k == 0 then out else ItemCode(al, b, gl, base, Code(al, b, gl, base, out, t, k - 1), t[k - 1])
  }

  /** The code of the first s sections. */
  function Program(al: seq<int>, b: map<int, int>, gl: map<int, int>, base: int, tr: seq<seq<Item>>, s: nat): seq<int>
    requires s <= |tr|
  {
    if s == 0 then [] else Code(al, b, gl, base, Program(al, b, gl, base, tr, s - 1), tr[s - 1], |tr[s - 1]|)
  }

  // ---- Passes 2 and 3 agree ----

  lemma AlignCut(f: int, m: int)
    requires IsMask(m) && f >= 0
    ensures m - Cut(f + m, m) == Nops(f, m) && (f + Nops(f, m)) % (m + 1) == 0
  {
    AlignCutBy(f, m);
  }

  lemma AlignCutBy(f: int, m: int)
    requires m >= 0 && f >= 0
    ensures m - Cut(f + m, m) == Nops(f, m) && (f + Nops(f, m)) % (m + 1) == 0
  {
    var d := m + 1;
    var q, r := f / d, f % d;
    assert (q + 1) * d == q * d + d;
    if r == 0 {
      DivModUnique(f + m, d, q, m);
    } else {
      DivModUnique(f + m, d, q + 1, r - 1);
      DivModUnique(f + (d - r), d, q + 1, 0);
    }
  }

  /** One action: as many bytes as linking said. */
  lemma ItemLength(al: seq<int>, b: map<int, int>, fixed: map<int, int>, sofs: seq<int>, gl: map<int, int>, base: int,
                   out: seq<int>, s: nat, x: Item, y: Item, a: int, a': int)
    requires Step(al, fixed, x, y) && LinkStep(al, b, fixed, sofs, s, x, a, a') && |out| == x.ofs + a >= x.lits
    requires IsRel(At(al, x.p)) && Held(b, x.pos) < 0 ==> Held(b, x.pos + 1) == 0
    ensures !IsStop(At(al, x.p)) ==> |ItemCode(al, b, gl, base, out, x)| == y.ofs + a' >= y.lits
    ensures IsStop(At(al, x.p)) ==> ItemCode(al, b, gl, base, out, x) == out && y.ofs + a' == |out|
  {
    var act := At(al, x.p);
    if act == ALIGN {
      AlignCut(|out|, At(al, x.p + 1));
    } else if IsRel(act) {
      assert y.ofs == x.ofs + 4;
    } else if IsArg(act) {
      assert Held(b, x.pos) == fixed[x.pos];
    }
  }

  /**
   * The three passes agree: before each item the code has exactly the length
   * that linking computed.
   */
  lemma {:induction false} PhasesAgree(al: seq<int>, b: map<int, int>, fixed: map<int, int>, tr: seq<seq<Item>>,
                                       spos: seq<int>, sofs: seq<int>,
                                       adj: seq<seq<int>>, starts: seq<int>, gl: map<int, int>, base: int,
                                           out: seq<int>, s: nat, k: nat)
    requires Linked(al, b, fixed, tr, spos, sofs, adj, starts) && s < |tr| && k <= |tr[s]| && |out| == starts[s]
    ensures |Code(al, b, gl, base, out, tr[s], k)| == Final(tr[s], adj[s], sofs[s], k)
    ensures k < |tr[s]| ==> Final(tr[s], adj[s], sofs[s], k) >= tr[s][k].lits
  {
    var t := tr[s];
    SectionStart(al, b, fixed, tr, spos, sofs, adj, starts, s);
    Sections(al, b, fixed, tr, spos, sofs, adj, starts, 0, s);
    if k == 0 {
      assert Traced(al, fixed, t, SecPos(s), spos[s], sofs[s]);
    } else {
      PhasesAgree(al, b, fixed, tr, spos, sofs, adj, starts, gl, base, out, s, k - 1);
      ItemShape(al, fixed, tr, spos, sofs, s, k - 1);
      assert SectionLinked(al, b, fixed, sofs, s, t, adj[s], starts[s], starts[s + 1]);
      assert LinkAt(al, b, fixed, sofs, s, t, adj[s], k - 1);
      if k < |t| {
        ItemLength(al, b, fixed, sofs, gl, base, Code(al, b, gl, base, out, t, k - 1), s, t[k - 1], t[k], adj[s][k - 1],
            adj[s][k]);
      } else {
        assert Traced(al, fixed, t, SecPos(s), spos[s], sofs[s]);
      }
    }
  }

  lemma {:induction false} ProgramLength(al: seq<int>, b: map<int, int>, fixed: map<int, int>, tr: seq<seq<Item>>,
                                         spos: seq<int>, sofs: seq<int>,
                                         adj: seq<seq<int>>, starts: seq<int>, gl: map<int, int>, base: int, s: nat)
    requires Linked(al, b, fixed, tr, spos, sofs, adj, starts) && s <= |tr|
    ensures |Program(al, b, gl, base, tr, s)| == starts[s]
  {
    if s > 0 {
      ProgramLength(al, b, fixed, tr, spos, sofs, adj, starts, gl, base, s - 1);
      PhasesAgree(al, b, fixed, tr, spos, sofs, adj, starts, gl, base, Program(al, b, gl, base, tr, s - 1), s - 1,
          |tr[s - 1]|);
      SectionStart(al, b, fixed, tr, spos, sofs, adj, starts, s - 1);
    }
  }

  // ---- Later actions leave earlier code alone ----

  /** Up to d bytes, c' begins like c. */
  ghost predicate Agree(c: seq<int>, c': seq<int>, d: int) {
    0 <= d <= |c| && d <= |c'| && c'[..d] == c[..d]
  }

  lemma AgreeTrans(c: seq<int>, c': seq<int>, c'': seq<int>, d: int, d': int)
    requires Agree(c, c', d) && Agree(c', c'', d') && d <= d'
    ensures Agree(c, c'', d)
  {
    assert c''[..d] == c''[..d'][..d] && c'[..d] == c'[..d'][..d];
  }

  /** Item x changes at most its literal bytes right before it. */
  lemma ItemKeeps(al: seq<int>, b: map<int, int>, fixed: map<int, int>, sofs: seq<int>, gl: map<int, int>, base: int,
                  out: seq<int>, s: nat, x: Item, y: Item, a: int, a': int)
    requires Step(al, fixed, x, y) && LinkStep(al, b, fixed, sofs, s, x, a, a') && |out| == x.ofs + a >= x.lits
    requires IsRel(At(al, x.p)) && Held(b, x.pos) < 0 ==> Held(b, x.pos + 1) == 0
    ensures var out' := ItemCode(al, b, gl, base, out, x);
            |out'| - y.lits >= |out| - x.lits && Agree(out, out', |out| - x.lits)
    ensures IsLiteral(At(al, x.p)) ==> ItemCode(al, b, gl, base, out, x) == out + [if At(al, x.p) == ESC
              then At(al, x.p + 1) else At(al, x.p)]
  {
    var act := At(al, x.p);
    ItemLength(al, b, fixed, sofs, gl, base, out, s, x, y, a, a');
    if IsRel(act) {
      var d := |out| - x.lits;
      assert Held(b, x.pos + 1) == 3 ==> out[..|out| - 1][..d] == out[..d];
      assert Held(b, x.pos + 1) == 4 ==> out[..|out| - 2][..d] == out[..d];
    }
  }

  /** How much of the code before item k is final. */
  function Stable(t: seq<Item>, out: seq<int>, k: int): int {
    |out| - if 0 <= k < |t| then t[k].lits else 0
  }

  /** What the lemmas on single items need to know about item k. */
  lemma AtItem(al: seq<int>, b: map<int, int>, fixed: map<int, int>, tr: seq<seq<Item>>, spos: seq<int>, sofs: seq<int>,
               adj: seq<seq<int>>, starts: seq<int>, gl: map<int, int>, base: int, out: seq<int>, s: nat, k: nat)
    requires Linked(al, b, fixed, tr, spos, sofs, adj, starts) && s < |tr| && k + 1 < |tr[s]| && |out| == starts[s]
    ensures |adj| == |tr| && |adj[s]| == |tr[s]| + 1
    ensures Step(al, fixed, tr[s][k], tr[s][k + 1])
              && LinkStep(al, b, fixed, sofs, s, tr[s][k], adj[s][k], adj[s][k + 1])
    ensures |Code(al, b, gl, base, out, tr[s], k)| == tr[s][k].ofs + adj[s][k] >= tr[s][k].lits
    ensures IsRel(At(al, tr[s][k].p)) && Held(b, tr[s][k].pos) < 0 ==> Held(b, tr[s][k].pos + 1) == 0
    ensures Shaped(al, tr[s][k].p, tr[s][k].lits)
  {
    PhasesAgree(al, b, fixed, tr, spos, sofs, adj, starts, gl, base, out, s, k);
    assert Traced(al, fixed, tr[s], SecPos(s), spos[s], sofs[s]);
    ItemShape(al, fixed, tr, spos, sofs, s, k);
    assert SectionLinked(al, b, fixed, sofs, s, tr[s], adj[s], starts[s], starts[s + 1]);
    assert LinkAt(al, b, fixed, sofs, s, tr[s], adj[s], k);
  }

  /** A stop ends a section; its code is complete. */
  lemma LastItem(al: seq<int>, b: map<int, int>, fixed: map<int, int>, tr: seq<seq<Item>>, spos: seq<int>,
                 sofs: seq<int>,
                 adj: seq<seq<int>>, starts: seq<int>, gl: map<int, int>, base: int, s: nat, c: seq<int>)
    requires Linked(al, b, fixed, tr, spos, sofs, adj, starts) && s < |tr| && tr[s] != []
    ensures ItemCode(al, b, gl, base, c, tr[s][|tr[s]| - 1]) == c
  {
    assert Traced(al, fixed, tr[s], SecPos(s), spos[s], sofs[s]);
  }

  lemma StableStep(al: seq<int>, b: map<int, int>, fixed: map<int, int>, tr: seq<seq<Item>>, spos: seq<int>,
                   sofs: seq<int>,
                   adj: seq<seq<int>>, starts: seq<int>, gl: map<int, int>, base: int, out: seq<int>, s: nat, k: nat,
                       c: seq<int>)
    requires Linked(al, b, fixed, tr, spos, sofs, adj, starts) && s < |tr| && k < |tr[s]| && |out| == starts[s]
    requires c == Code(al, b, gl, base, out, tr[s], k)
    ensures var c' := ItemCode(al, b, gl, base, c, tr[s][k]);
            Stable(tr[s], c, k) <= Stable(tr[s], c', k + 1) && Agree(c, c', Stable(tr[s], c, k))
  {
    if k + 1 < |tr[s]| {
      StableNext(al, b, fixed, tr, spos, sofs, adj, starts, gl, base, out, s, k, c);
    } else {
      StableLast(al, b, fixed, tr, spos, sofs, adj, starts, gl, base, out, s, c);
    }
  }

  /** Literal bytes before an item are there. */
  lemma LitsThere(al: seq<int>, b: map<int, int>, fixed: map<int, int>, tr: seq<seq<Item>>, spos: seq<int>,
                  sofs: seq<int>,
                  adj: seq<seq<int>>, starts: seq<int>, gl: map<int, int>, base: int, out: seq<int>, s: nat, k: nat)
    requires Linked(al, b, fixed, tr, spos, sofs, adj, starts) && s < |tr| && k < |tr[s]| && |out| == starts[s]
    ensures 0 <= tr[s][k].lits <= |Code(al, b, gl, base, out, tr[s], k)|
  {
    PhasesAgree(al, b, fixed, tr, spos, sofs, adj, starts, gl, base, out, s, k);
    assert Traced(al, fixed, tr[s], SecPos(s), spos[s], sofs[s]);
    AboveStart(al, fixed, tr[s], SecPos(s), k);
  }

  lemma StableNext(al: seq<int>, b: map<int, int>, fixed: map<int, int>, tr: seq<seq<Item>>, spos: seq<int>,
                   sofs: seq<int>,
                   adj: seq<seq<int>>, starts: seq<int>, gl: map<int, int>, base: int, out: seq<int>, s: nat, k: nat,
                       c: seq<int>)
    requires Linked(al, b, fixed, tr, spos, sofs, adj, starts) && s < |tr| && k + 1 < |tr[s]| && |out| == starts[s]
    requires c == Code(al, b, gl, base, out, tr[s], k)
    ensures var c' := ItemCode(al, b, gl, base, c, tr[s][k]);
            Stable(tr[s], c, k) <= Stable(tr[s], c', k + 1) && Agree(c, c', Stable(tr[s], c, k))
  {
    LitsThere(al, b, fixed, tr, spos, sofs, adj, starts, gl, base, out, s, k);
    AtItem(al, b, fixed, tr, spos, sofs, adj, starts, gl, base, out, s, k);
    ItemKeeps(al, b, fixed, sofs, gl, base, c, s, tr[s][k], tr[s][k + 1], adj[s][k], adj[s][k + 1]);
  }

  lemma StableLast(al: seq<int>, b: map<int, int>, fixed: map<int, int>, tr: seq<seq<Item>>, spos: seq<int>,
                   sofs: seq<int>,
                   adj: seq<seq<int>>, starts: seq<int>, gl: map<int, int>, base: int, out: seq<int>, s: nat,
                       c: seq<int>)
    requires Linked(al, b, fixed, tr, spos, sofs, adj, starts) && s < |tr| && tr[s] != [] && |out| == starts[s]
    requires c == Code(al, b, gl, base, out, tr[s], |tr[s]| - 1)
    ensures var k := |tr[s]| - 1;
            var c' := ItemCode(al, b, gl, base, c, tr[s][k]);
            Stable(tr[s], c, k) <= Stable(tr[s], c', k + 1) && Agree(c, c', Stable(tr[s], c, k))
  {
    LitsThere(al, b, fixed, tr, spos, sofs, adj, starts, gl, base, out, s, |tr[s]| - 1);
    LastItem(al, b, fixed, tr, spos, sofs, adj, starts, gl, base, s, c);
  }

  lemma {:induction false} StableCode(al: seq<int>, b: map<int, int>, fixed: map<int, int>, tr: seq<seq<Item>>,
                                      spos: seq<int>, sofs: seq<int>,
                                      adj: seq<seq<int>>, starts: seq<int>, gl: map<int, int>, base: int, out: seq<int>,
                                          s: nat, k: nat, m: nat,
                                      c: seq<int>, c': seq<int>)
    requires Linked(al, b, fixed, tr, spos, sofs, adj, starts) && s < |tr| && k <= m <= |tr[s]| && |out| == starts[s]
    requires c == Code(al, b, gl, base, out, tr[s], k) && c' == Code(al, b, gl, base, out, tr[s], m)
    ensures Stable(tr[s], c, k) <= Stable(tr[s], c', m) && Agree(c, c', Stable(tr[s], c, k))
    decreases m - k
  {
    if k == m {
      assert Traced(al, fixed, tr[s], SecPos(s), spos[s], sofs[s]);
      if k < |tr[s]| { AboveStart(al, fixed, tr[s], SecPos(s), k); }
      PhasesAgree(al, b, fixed, tr, spos, sofs, adj, starts, gl, base, out, s, k);
    } else {
      var c1 := Code(al, b, gl, base, out, tr[s], m - 1);
      StableCode(al, b, fixed, tr, spos, sofs, adj, starts, gl, base, out, s, k, m - 1, c, c1);
      StableStep(al, b, fixed, tr, spos, sofs, adj, starts, gl, base, out, s, m - 1, c1);
      AgreeTrans(c, c1, c', Stable(tr[s], c, k), Stable(tr[s], c1, m - 1));
    }
  }

  lemma SectionPrefix(al: seq<int>, b: map<int, int>, fixed: map<int, int>, tr: seq<seq<Item>>, spos: seq<int>,
                      sofs: seq<int>,
                      adj: seq<seq<int>>, starts: seq<int>, gl: map<int, int>, base: int, out: seq<int>, s: nat,
                          c: seq<int>)
    requires Linked(al, b, fixed, tr, spos, sofs, adj, starts) && s < |tr| && |out| == starts[s]
    requires c == Code(al, b, gl, base, out, tr[s], |tr[s]|)
    ensures out <= c
  {
    StableCode(al, b, fixed, tr, spos, sofs, adj, starts, gl, base, out, s, 0, |tr[s]|, out, c);
    assert Traced(al, fixed, tr[s], SecPos(s), spos[s], sofs[s]);
    assert out == out[..|out|];
  }

  /** The code of earlier sections is a prefix of the whole. */
  lemma {:induction false} ProgramPrefix(al: seq<int>, b: map<int, int>, fixed: map<int, int>, tr: seq<seq<Item>>,
                                         spos: seq<int>, sofs: seq<int>,
                                         adj: seq<seq<int>>, starts: seq<int>, gl: map<int, int>, base: int, s: nat,
                                             n: nat)
    requires Linked(al, b, fixed, tr, spos, sofs, adj, starts) && s <= n <= |tr|
    ensures Program(al, b, gl, base, tr, s) <= Program(al, b, gl, base, tr, n)
    decreases n
  {
    if s < n {
      ProgramPrefix(al, b, fixed, tr, spos, sofs, adj, starts, gl, base, s, n - 1);
      var out := Program(al, b, gl, base, tr, n - 1);
      ProgramLength(al, b, fixed, tr, spos, sofs, adj, starts, gl, base, n - 1);
      SectionPrefix(al, b, fixed, tr, spos, sofs, adj, starts, gl, base, out, n - 1, Program(al, b, gl, base, tr, n));
    }
  }

  /** Code right before an item without pending literals is a prefix of the whole program. */
  lemma CodePrefix(al: seq<int>, b: map<int, int>, fixed: map<int, int>, tr: seq<seq<Item>>, spos: seq<int>,
                   sofs: seq<int>,
                   adj: seq<seq<int>>, starts: seq<int>, gl: map<int, int>, base: int, s: nat, k: nat)
    requires Linked(al, b, fixed, tr, spos, sofs, adj, starts) && s < |tr| && k < |tr[s]| && tr[s][k].lits == 0
    ensures Code(al, b, gl, base, Program(al, b, gl, base, tr, s), tr[s], k) <= Program(al, b, gl, base, tr, |tr|)
  {
    var out := Program(al, b, gl, base, tr, s);
    ProgramLength(al, b, fixed, tr, spos, sofs, adj, starts, gl, base, s);
    var c := Code(al, b, gl, base, out, tr[s], k);
    var c' := Code(al, b, gl, base, out, tr[s], |tr[s]|);
    StableCode(al, b, fixed, tr, spos, sofs, adj, starts, gl, base, out, s, k, |tr[s]|, c, c');
    ProgramPrefix(al, b, fixed, tr, spos, sofs, adj, starts, gl, base, s + 1, |tr|);
    assert c == c[..|c|];
  }

  /** The opcode byte of a branch is the last byte before it. */
  lemma OpcodeByte(al: seq<int>, b: map<int, int>, fixed: map<int, int>, tr: seq<seq<Item>>, spos: seq<int>,
                   sofs: seq<int>,
                   adj: seq<seq<int>>, starts: seq<int>, gl: map<int, int>, base: int, out: seq<int>, s: nat, k: nat)
    requires Linked(al, b, fixed, tr, spos, sofs, adj, starts) && s < |tr| && k < |tr[s]| && tr[s][k].lits >= 1
               && |out| == starts[s]
    ensures var c := Code(al, b, gl, base, out, tr[s], k);
            |c| >= 1 && c[|c| - 1] == At(al, tr[s][k].p - 1)
  {
    assert Traced(al, fixed, tr[s], SecPos(s), spos[s], sofs[s]);
    AtItem(al, b, fixed, tr, spos, sofs, adj, starts, gl, base, out, s, k - 1);
    var c := Code(al, b, gl, base, out, tr[s], k - 1);
    ItemKeeps(al, b, fixed, sofs, gl, base, c, s, tr[s][k - 1], tr[s][k], adj[s][k - 1], adj[s][k]);
  }

  /** What the bytes of a branch to target do when executed at the end of the code c. */
  ghost predicate Lands(c: seq<int>, op: int, shrink: int, target: int) {
    var e := |c|;
    if shrink == 0 then e >= 5 && c[e - 5] == op && Value(c[e - 4..]) == (target - e) % WORD32
    else e >= 2 && c[e - 2] == (if shrink == 3 then 0xeb else op - 0x10) && e + Signed8(c[e - 1]) == target
  }

  lemma RelCode(al: seq<int>, b: map<int, int>, gl: map<int, int>, base: int, c: seq<int>, x: Item)
    requires IsRel(At(al, x.p))
    ensures ItemCode(al, b, gl, base, c, x) == Branch(b, gl, base, c, x)
  {
  }

  /** What linking makes of branch x behind that much code: the short form only if it reaches the target. */
  ghost predicate Reaches(b: map<int, int>, x: Item, op: int, cp: int, target: int) {
    var shrink := Held(b, x.pos + 1);
    && cp >= x.lits >= 1 && (Shrink(op) == 4 ==> x.lits >= 2) && Held(b, x.pos) >= 0
        && Held(b, Held(b, x.pos)) == target
    && (shrink == 0 || shrink == Shrink(op))
    && (shrink != 0 ==> -128 <= target - (cp + 4 - shrink) <= 127)
  }

  /** The bytes of one branch. */
  lemma BranchBytes(b: map<int, int>, gl: map<int, int>, base: int, c: seq<int>, x: Item, op: int, target: int)
    requires Reaches(b, x, op, |c|, target) && c[|c| - 1] == op
    ensures Lands(Branch(b, gl, base, c, x), op, Held(b, x.pos + 1), target)
  {
    var shrink := Held(b, x.pos + 1);
    var d := target - (|c| + 4 - shrink);
    var c' := Branch(b, gl, base, c, x);
    if shrink == 0 {
      assert c' == c + Bytes(d, 4);
      assert c'[|c'| - 4..] == Bytes(d, 4);
      BytesValue4(d);
    } else if shrink == 3 {
      assert c' == c[..|c| - 1] + [0xeb] + [d % 256];
    } else {
      assert c' == c[..|c| - 2] + [c[|c| - 1] - 0x10] + [d % 256];
    }
  }

  lemma BranchAt(al: seq<int>, b: map<int, int>, gl: map<int, int>, base: int, c: seq<int>, x: Item, op: int,
                 target: int)
    requires IsRel(At(al, x.p)) && Reaches(b, x, op, |c|, target) && c[|c| - 1] == op
    ensures Lands(ItemCode(al, b, gl, base, c, x), op, Held(b, x.pos + 1), target)
  {
    RelCode(al, b, gl, base, c, x);
    BranchBytes(b, gl, base, c, x, op, target);
  }

  /** What linking made of a branch to a label of the program. */
  lemma BranchReaches(al: seq<int>, b: map<int, int>, fixed: map<int, int>, tr: seq<seq<Item>>, spos: seq<int>,
                      sofs: seq<int>,
                      adj: seq<seq<int>>, starts: seq<int>, s: nat, k: nat, s': nat, j: nat)
    requires Linked(al, b, fixed, tr, spos, sofs, adj, starts)
    requires s < |tr| && k < |tr[s]| && IsRel(At(al, tr[s][k].p)) && LabelItem(al, tr, s', j, Held(b, tr[s][k].pos))
    requires Final(tr[s], adj[s], sofs[s], k) >= tr[s][k].lits
    ensures k + 1 < |tr[s]| && tr[s][k + 1].lits == 0 && tr[s][k].lits >= 1
    ensures Reaches(b, tr[s][k], At(al, tr[s][k].p - 1), Final(tr[s], adj[s], sofs[s], k),
              Final(tr[s'], adj[s'], sofs[s'], j))
  {
    var x, n := tr[s][k], Held(b, tr[s][k].pos);
    assert Traced(al, fixed, tr[s], SecPos(s), spos[s], sofs[s]);
    ItemShape(al, fixed, tr, spos, sofs, s, k);
    assert SectionLinked(al, b, fixed, sofs, s, tr[s], adj[s], starts[s], starts[s + 1]);
    assert LinkAt(al, b, fixed, sofs, s, tr[s], adj[s], k);
    LabelAbove(al, fixed, tr, spos, sofs, s', j);
    LabelFinal(al, b, fixed, tr, spos, sofs, adj, starts, s', j, n);
    if Held(b, x.pos + 1) != 0 { ShortBranchFits(al, b, fixed, tr, spos, sofs, adj, starts, s, k, s', j); }
  }

  lemma LabelAbove(al: seq<int>, fixed: map<int, int>, tr: seq<seq<Item>>, spos: seq<int>, sofs: seq<int>, s: nat,
                   j: nat)
    requires |tr| == |spos| == |sofs| && s < |tr| && j < |tr[s]|
               && Traced(al, fixed, tr[s], SecPos(s), spos[s], sofs[s])
    ensures tr[s][j].pos > 0
  {
    AboveStart(al, fixed, tr[s], SecPos(s), j);
  }

  /** A branch in the code of its section. */
  lemma BranchInSection(al: seq<int>, b: map<int, int>, fixed: map<int, int>, tr: seq<seq<Item>>, spos: seq<int>,
                        sofs: seq<int>,
                        adj: seq<seq<int>>, starts: seq<int>, gl: map<int, int>, base: int, out: seq<int>, s: nat,
                            k: nat, s': nat, j: nat)
    requires Linked(al, b, fixed, tr, spos, sofs, adj, starts) && s < |tr| && |out| == starts[s]
    requires k < |tr[s]| && IsRel(At(al, tr[s][k].p)) && LabelItem(al, tr, s', j, Held(b, tr[s][k].pos))
    ensures k + 1 < |tr[s]| && tr[s][k + 1].lits == 0
    ensures Lands(ItemCode(al, b, gl, base, Code(al, b, gl, base, out, tr[s], k), tr[s][k]),
                  At(al, tr[s][k].p - 1), Held(b, tr[s][k].pos + 1), Final(tr[s'], adj[s'], sofs[s'], j))
  {
    PhasesAgree(al, b, fixed, tr, spos, sofs, adj, starts, gl, base, out, s, k);
    BranchReaches(al, b, fixed, tr, spos, sofs, adj, starts, s, k, s', j);
    OpcodeByte(al, b, fixed, tr, spos, sofs, adj, starts, gl, base, out, s, k);
    BranchAt(al, b, gl, base, Code(al, b, gl, base, out, tr[s], k), tr[s][k], At(al, tr[s][k].p - 1),
        Final(tr[s'], adj[s'], sofs[s'], j));
  }

  /**
   * Every branch to a label of the program, short or near, transfers to the
   * label's final position; the code up to its end is a prefix of the whole.
   */
  lemma BranchLands(al: seq<int>, b: map<int, int>, fixed: map<int, int>, tr: seq<seq<Item>>, spos: seq<int>,
                    sofs: seq<int>,
                    adj: seq<seq<int>>, starts: seq<int>, gl: map<int, int>, base: int, s: nat, k: nat, s': nat, j: nat)
    returns (c: seq<int>)
    requires Linked(al, b, fixed, tr, spos, sofs, adj, starts)
    requires s < |tr| && k < |tr[s]| && IsRel(At(al, tr[s][k].p)) && LabelItem(al, tr, s', j, Held(b, tr[s][k].pos))
    ensures c <= Program(al, b, gl, base, tr, |tr|) && |c| == Final(tr[s], adj[s], sofs[s], k + 1)
    ensures Lands(c, At(al, tr[s][k].p - 1), Held(b, tr[s][k].pos + 1), Final(tr[s'], adj[s'], sofs[s'], j))
  {
    var out := Program(al, b, gl, base, tr, s);
    ProgramLength(al, b, fixed, tr, spos, sofs, adj, starts, gl, base, s);
    BranchInSection(al, b, fixed, tr, spos, sofs, adj, starts, gl, base, out, s, k, s', j);
    c := Code(al, b, gl, base, out, tr[s], k + 1);
    PhasesAgree(al, b, fixed, tr, spos, sofs, adj, starts, gl, base, out, s, k + 1);
    CodePrefix(al, b, fixed, tr, spos, sofs, adj, starts, gl, base, s, k + 1);
  }

  // ---- What pass 3 relies on ----

  /** No definition of global idx. */
  ghost predicate Undefined(log: seq<Event>, idx: int) {
    forall d :: 0 <= d < |log| && log[d].lab == Lg(idx) ==> log[d].Ref?
  }

  /** The addresses of globals that are not defined here stay as they were. */
  ghost predicate GlobalsKept(log: seq<Event>, gl0: map<int, int>, gl: map<int, int>) {
    forall idx {:trigger Undefined(log, idx)} :: Undefined(log, idx) ==> AddressOf(gl, idx) == AddressOf(gl0, idx)
  }

  /** Code never grows beyond the size that linking returned. */
  lemma CodeFits(al: seq<int>, b: map<int, int>, fixed: map<int, int>, tr: seq<seq<Item>>, spos: seq<int>,
                 sofs: seq<int>,
                 adj: seq<seq<int>>, starts: seq<int>, gl: map<int, int>, base: int, out: seq<int>, s: nat, k: nat)
    requires Linked(al, b, fixed, tr, spos, sofs, adj, starts) && s < |tr| && k <= |tr[s]| && |out| == starts[s]
    ensures |Code(al, b, gl, base, out, tr[s], k)| <= starts[|tr|]
  {
    PhasesAgree(al, b, fixed, tr, spos, sofs, adj, starts, gl, base, out, s, k);
    Spread(al, b, fixed, tr, spos, sofs, adj, starts, s, k, |tr[s]|);
    SectionStart(al, b, fixed, tr, spos, sofs, adj, starts, s);
    Sections(al, b, fixed, tr, spos, sofs, adj, starts, s + 1, |tr|);
  }

  /** What pass 3 finds at item k, when the code before it is c. */
  ghost predicate ItemReady(al: seq<int>, b: map<int, int>, fixed: map<int, int>, x: Item, y: Item, c: seq<int>,
                            size: int) {
    var a := At(al, x.p);
    && Shaped(al, x.p, x.lits) && !IsStop(a) && |c| >= x.lits
    && y.p == x.p + Length(a) && y.pos == x.pos + Slots(a)
    && (IsArg(a) ==> x.pos in b && (a == SPACE ==> b[x.pos] >= 0) && |c| + ArgLength(a, b[x.pos]) <= size)
    && (IsLabel(a) || a == ALIGN ==> x.pos in b)
    && (IsLiteral(a) ==> |c| + 1 <= size)
    && (a == ALIGN ==> |c| + Nops(|c|, At(al, x.p + 1)) <= size)
    && (IsRef(a) ==> x.pos in b && (b[x.pos] >= 0 ==> b[x.pos] in b))
    && (IsRel(a) ==> var shrink := Held(b, x.pos + 1);
                     && x.pos + 1 in b && (shrink == 0 || shrink == Shrink(At(al, x.p - 1)))
                     && (b[x.pos] < 0 ==> shrink == 0) && |c| + 4 - shrink <= size)
    && (IsRef(a) && !IsRel(a) ==> |c| + 4 <= size)
  }

  lemma ItemIsReady(al: seq<int>, b: map<int, int>, fixed: map<int, int>, tr: seq<seq<Item>>, spos: seq<int>,
                    sofs: seq<int>,
                    adj: seq<seq<int>>, starts: seq<int>, gl: map<int, int>, base: int, out: seq<int>, s: nat, k: nat,
                        c: seq<int>,
                    log: seq<Event>, at: map<int, nat>)
    requires Linked(al, b, fixed, tr, spos, sofs, adj, starts) && s < |tr| && |out| == starts[s]
    requires Ready(al, fixed, tr, log, at, spos, sofs) && forall x :: x in fixed ==> x in b
    requires k < |tr[s]| && c == Code(al, b, gl, base, out, tr[s], k) && !IsStop(At(al, tr[s][k].p))
    ensures k + 1 < |tr[s]| && ItemReady(al, b, fixed, tr[s][k], tr[s][k + 1], c, starts[|tr|])
    ensures |Code(al, b, gl, base, out, tr[s], k + 1)| <= starts[|tr|]
  {
    var x := tr[s][k];
    assert Traced(al, fixed, tr[s], SecPos(s), spos[s], sofs[s]);
    ItemShape(al, fixed, tr, spos, sofs, s, k);
    AtItem(al, b, fixed, tr, spos, sofs, adj, starts, gl, base, out, s, k);
    CodeFits(al, b, fixed, tr, spos, sofs, adj, starts, gl, base, out, s, k + 1);
    PhasesAgree(al, b, fixed, tr, spos, sofs, adj, starts, gl, base, out, s, k + 1);
    if At(al, x.p) == ALIGN { AlignCut(|c|, At(al, x.p + 1)); }
    if IsRef(At(al, x.p)) { RefTarget(al, fixed, tr, log, at, spos, sofs, s, k); }
  }

  /** The references of undefined globals, as pass 3 meets them. */
  lemma MarkedUndefined(al: seq<int>, fixed: map<int, int>, tr: seq<seq<Item>>, log: seq<Event>, at: map<int, nat>,
                        spos: seq<int>, sofs: seq<int>, s: nat, k: nat)
    requires Ready(al, fixed, tr, log, at, spos, sofs) && s < |tr| && k < |tr[s]| && IsRef(At(al, tr[s][k].p))
    requires Held(fixed, tr[s][k].pos) < 0
    ensures Undefined(log, -Held(fixed, tr[s][k].pos))
  {
    RefTarget(al, fixed, tr, log, at, spos, sofs, s, k);
    var i := at[tr[s][k].pos];
    assert TargetSlot(fixed, log, i);
    UnboundUndefined(log, i);
  }

  lemma DefinedHere(al: seq<int>, fixed: map<int, int>, tr: seq<seq<Item>>, log: seq<Event>, at: map<int, nat>,
                    spos: seq<int>, sofs: seq<int>, s: nat, k: nat)
    requires Ready(al, fixed, tr, log, at, spos, sofs) && s < |tr| && k < |tr[s]| && At(al, tr[s][k].p) == LABEL_LG
    ensures !Undefined(log, At(al, tr[s][k].p + 1))
  {
    assert RefLogged(al, tr, log, at, s, k);
  }
}
