/**
 * What the output of pass 3 of DynASM (dasm_x86.h) means to its users: the
 * addresses that the table of globals holds, and the numbers that the processor
 * reads back from the bytes of the operands.
 */
module DasmMeaning {
  import opened DasmLabels
  import opened DasmActions
  import opened DasmTrace
  import opened DasmLink
  import opened DasmCode
  import opened Words

  // ---- The table of globals ----

  /** Item x defines global idx. */
  predicate Defines(al: seq<int>, x: Item, idx: int) {
    At(al, x.p) == LABEL_LG && At(al, x.p + 1) == idx >= 10
  }

  /** The table after item x. */
  function Tabled(al: seq<int>, b: map<int, int>, base: int, gl: map<int, int>, x: Item): map<int, int> {
    var idx := At(al, x.p + 1);
    if At(al, x.p) == LABEL_LG && idx >= 10 then gl[idx := base + Held(b, x.pos)] else gl
  }

  /** The table after the first k items of a section. */
  function TableIn(al: seq<int>, b: map<int, int>, base: int, gl: map<int, int>, t: seq<Item>, k: nat): map<int, int>
    requires k <= |t|
  {
    if k == 0 then gl else Tabled(al, b, base, TableIn(al, b, base, gl, t, k - 1), t[k - 1])
  }

  /** The table after the first s sections. */
  function Table(al: seq<int>, b: map<int, int>, base: int, gl: map<int, int>, tr: seq<seq<Item>>, s: nat)
    : map<int, int>
    requires s <= |tr|
  {
    if s == 0 then gl else TableIn(al, b, base, Table(al, b, base, gl, tr, s - 1), tr[s - 1], |tr[s - 1]|)
  }

  /** Without definitions from item j on the table keeps its entry. */
  lemma {:induction false} TableRest(al: seq<int>, b: map<int, int>, base: int, gl: map<int, int>, t: seq<Item>, j: nat,
                                     k: nat, idx: int)
    requires j <= k <= |t| && forall i :: j <= i < k ==> !Defines(al, t[i], idx)
    ensures var g, g' := TableIn(al, b, base, gl, t, j), TableIn(al, b, base, gl, t, k);
            (idx in g <==> idx in g') && AddressOf(g', idx) == AddressOf(g, idx)
  {
    if j < k { TableRest(al, b, base, gl, t, j, k - 1, idx); }
  }

  lemma {:induction false} TableRests(al: seq<int>, b: map<int, int>, base: int, gl: map<int, int>, tr: seq<seq<Item>>,
                                      s: nat, n: nat, idx: int)
    requires s <= n <= |tr| && forall i, j :: s <= i < n && 0 <= j < |tr[i]| ==> !Defines(al, tr[i][j], idx)
    ensures var g, g' := Table(al, b, base, gl, tr, s), Table(al, b, base, gl, tr, n);
            (idx in g <==> idx in g') && AddressOf(g', idx) == AddressOf(g, idx)
  {
    if s < n {
      TableRests(al, b, base, gl, tr, s, n - 1, idx);
      TableRest(al, b, base, Table(al, b, base, gl, tr, n - 1), tr[n - 1], 0, |tr[n - 1]|, idx);
    }
  }

  /** Of two items, the one that is encoded first. */
  predicate Earlier(s: int, j: int, s': int, j': int) {
    s < s' || (s == s' && j < j')
  }

  /** Event d of the log is the definition of global idx that is encoded last. */
  ghost predicate LastDef(log: seq<Event>, idx: int, d: int) {
    && 0 <= d < |log| && log[d].Def? && log[d].lab == Lg(idx)
    && forall i :: 0 <= i < |log| && log[i].Def? && log[i].lab == Lg(idx) ==>
                     !Earlier(log[d].s, log[d].j, log[i].s, log[i].j)
  }

  /** A global that is defined at all is defined last somewhere. */
  lemma {:induction false} LastDefExists(log: seq<Event>, idx: int, n: nat) returns (d: int)
    requires n <= |log| && exists i :: 0 <= i < n && log[i].Def? && log[i].lab == Lg(idx)
    ensures 0 <= d < n && LastDef(log[..n], idx, d)
    decreases n
  {
    var m := n - 1;
    assert log[..n][..m] == log[..m];
    if exists i :: 0 <= i < m && log[i].Def? && log[i].lab == Lg(idx) {
      d := LastDefExists(log, idx, m);
      if log[m].Def? && log[m].lab == Lg(idx) && Earlier(log[d].s, log[d].j, log[m].s, log[m].j) {
        d := LaterDef(log[..m], log[m], idx, d);
      } else {
        assert forall i :: 0 <= i < m ==> log[..n][i] == log[..m][i];
      }
    } else {
      d := m;
    }
  }

  /** A definition that is encoded behind the last one so far. */
  lemma LaterDef(log: seq<Event>, e: Event, idx: int, d: int) returns (n: int)
    requires LastDef(log, idx, d) && e.Def? && e.lab == Lg(idx) && Earlier(log[d].s, log[d].j, e.s, e.j)
    ensures n == |log| && forall log' :: log' == log + [e] ==> LastDef(log', idx, n)
  {
    n := |log|;
  }

  /** A definition is an item that was logged, and the log says which one. */
  lemma DefinesLogged(al: seq<int>, fixed: map<int, int>, tr: seq<seq<Item>>, log: seq<Event>, at: map<int, nat>,
                      spos: seq<int>, sofs: seq<int>, s: nat, j: nat, idx: int) returns (d: nat)
    requires Ready(al, fixed, tr, log, at, spos, sofs) && s < |tr| && j < |tr[s]| && Defines(al, tr[s][j], idx)
    ensures d < |log| && log[d].Def? && log[d].lab == Lg(idx) && log[d].s == s && log[d].j == j
  {
    assert RefLogged(al, tr, log, at, s, j);
    d := at[tr[s][j].pos];
    assert LabelLogged(al, tr, log, d);
    var s', j' := log[d].s, log[d].j;
    ItemInSection(al, fixed, tr, spos, sofs, s, j);
    ItemInSection(al, fixed, tr, spos, sofs, s', j');
    if j < j' { SlotOrder(al, fixed, tr[s], SecPos(s), j, j'); }
    if j' < j { SlotOrder(al, fixed, tr[s], SecPos(s), j', j); }
  }

  /** Item j of section s is the last one to define global idx. */
  lemma TableLast(al: seq<int>, b: map<int, int>, base: int, gl: map<int, int>, tr: seq<seq<Item>>, s: nat, j: nat,
                  idx: int)
    requires s < |tr| && j < |tr[s]| && Defines(al, tr[s][j], idx)
    requires forall i :: j < i < |tr[s]| ==> !Defines(al, tr[s][i], idx)
    requires forall s', j' :: s < s' < |tr| && 0 <= j' < |tr[s']| ==> !Defines(al, tr[s'][j'], idx)
    ensures var g := Table(al, b, base, gl, tr, |tr|); idx in g && g[idx] == base + Held(b, tr[s][j].pos)
  {
    TableRest(al, b, base, Table(al, b, base, gl, tr, s), tr[s], j + 1, |tr[s]|, idx);
    TableRests(al, b, base, gl, tr, s + 1, |tr|, idx);
  }

  /** Every global that is defined here has the final address of the definition that is encoded last. */
  ghost predicate GlobalsSet(log: seq<Event>, tr: seq<seq<Item>>, adj: seq<seq<int>>, sofs: seq<int>, base: int,
                             gl: map<int, int>) {
    forall idx, d {:trigger LastDef(log, idx, d)} :: idx >= 10 && LastDef(log, idx, d) ==>
      && 0 <= log[d].s < |tr| && |tr| == |adj| == |sofs| && 0 <= log[d].j < |tr[log[d].s]| < |adj[log[d].s]|
      && idx in gl && gl[idx] == base + Final(tr[log[d].s], adj[log[d].s], sofs[log[d].s], log[d].j)
  }

  lemma DefinedGlobal(al: seq<int>, b: map<int, int>, fixed: map<int, int>, tr: seq<seq<Item>>, spos: seq<int>,
                      sofs: seq<int>, adj: seq<seq<int>>, starts: seq<int>, gl: map<int, int>, base: int,
                      log: seq<Event>, at: map<int, nat>, idx: int, d: int)
    requires Linked(al, b, fixed, tr, spos, sofs, adj, starts) && Ready(al, fixed, tr, log, at, spos, sofs)
    requires idx >= 10 && LastDef(log, idx, d)
    ensures 0 <= log[d].s < |tr| && 0 <= log[d].j < |tr[log[d].s]| < |adj[log[d].s]|
    ensures var g := Table(al, b, base, gl, tr, |tr|);
            idx in g && g[idx] == base + Final(tr[log[d].s], adj[log[d].s], sofs[log[d].s], log[d].j)
  {
    assert LabelLogged(al, tr, log, d);
    var s, j := log[d].s, log[d].j;
    DefinitionItem(al, tr, log, d, idx);
    forall s', j' | 0 <= s' < |tr| && 0 <= j' < |tr[s']| && Earlier(s, j, s', j')
      ensures !Defines(al, tr[s'][j'], idx)
    {
      if Defines(al, tr[s'][j'], idx) {
        var i := DefinesLogged(al, fixed, tr, log, at, spos, sofs, s', j', idx);
      }
    }
    LabelFinal(al, b, fixed, tr, spos, sofs, adj, starts, s, j, tr[s][j].pos);
    assert SectionLinked(al, b, fixed, sofs, s, tr[s], adj[s], starts[s], starts[s + 1]);
    TableLast(al, b, base, gl, tr, s, j, idx);
  }

  lemma DefinitionItem(al: seq<int>, tr: seq<seq<Item>>, log: seq<Event>, d: int, idx: int)
    requires 0 <= d < |log| && log[d].Def? && log[d].lab == Lg(idx) && idx >= 10 && LabelLogged(al, tr, log, d)
    ensures Defines(al, tr[log[d].s][log[d].j], idx)
  {
  }

  /** The table after encoding, for all globals at once. */
  lemma GlobalsDone(al: seq<int>, b: map<int, int>, fixed: map<int, int>, tr: seq<seq<Item>>, spos: seq<int>,
                    sofs: seq<int>, adj: seq<seq<int>>, starts: seq<int>, gl: map<int, int>, base: int,
                    log: seq<Event>, at: map<int, nat>)
    requires Linked(al, b, fixed, tr, spos, sofs, adj, starts) && Ready(al, fixed, tr, log, at, spos, sofs)
    ensures GlobalsSet(log, tr, adj, sofs, base, Table(al, b, base, gl, tr, |tr|))
    ensures GlobalsKept(log, gl, Table(al, b, base, gl, tr, |tr|))
  {
    forall idx, d | idx >= 10 && LastDef(log, idx, d)
      ensures 0 <= log[d].s < |tr| && 0 <= log[d].j < |tr[log[d].s]| < |adj[log[d].s]|
      ensures var g := Table(al, b, base, gl, tr, |tr|);
              idx in g && g[idx] == base + Final(tr[log[d].s], adj[log[d].s], sofs[log[d].s], log[d].j)
    {
      DefinedGlobal(al, b, fixed, tr, spos, sofs, adj, starts, gl, base, log, at, idx, d);
    }
    forall idx | Undefined(log, idx)
      ensures AddressOf(Table(al, b, base, gl, tr, |tr|), idx) == AddressOf(gl, idx)
    {
      forall s, j | 0 <= s < |tr| && 0 <= j < |tr[s]| ensures !Defines(al, tr[s][j], idx) {
        if Defines(al, tr[s][j], idx) {
          var i := DefinesLogged(al, fixed, tr, log, at, spos, sofs, s, j, idx);
        }
      }
      TableRests(al, b, base, gl, tr, 0, |tr|, idx);
    }
  }

  // ---- Operands ----

  /** The number in the last k bytes of the code, least significant byte first. */
  function Tail(c: seq<int>, k: nat): int
    requires k <= |c|
  {
    Value(c[|c| - k..])
  }

  /** What the processor finds behind the code that it had, when action a with argument n was encoded. */
  ghost predicate OperandOk(out: seq<int>, c: seq<int>, a: int, n: int, fill: int, base: int) {
    var e, d := |c|, |c| - |out|;
    && d >= 0
    && (if (a == IMM_DB || a == IMM_WB) && FitsByte(n) && |out| >= 2
        then && c[..|out| - 2] == out[..|out| - 2] && c[|out| - 1] == out[|out| - 1]
             && c[|out| - 2] == (out[|out| - 2] + 2) % 256
        else out <= c)
    && (a == IMM_S || a == IMM_B ==> d == 1 && c[e - 1] == n % 256 && (FitsByte(n) ==> Signed8(c[e - 1]) == n))
    && (a == IMM_W ==> d == 2 && Tail(c, 2) == n % 0x1_0000)
    && (a == IMM_D ==> d == 4 && Tail(c, 4) == n % WORD32)
    && (a == IMM_DB || a == IMM_WB ==>
          if FitsByte(n) then d == 1 && Signed8(c[e - 1]) == n
          else if a == IMM_DB then d == 4 && Tail(c, 4) == n % WORD32
          else d == 2 && Tail(c, 2) == n % 0x1_0000)
    && (a == REL_A ==> d == 4 && (base + e + Tail(c, 4)) % WORD32 == n % WORD32)
    && (a == SPACE && n >= 0 ==> d == n && forall i :: |out| <= i < e ==> c[i] == fill)
  }

  lemma BytesValue2(n: int)
    ensures Value(Bytes(n, 2)) == n % 0x1_0000
  {
    var m := n / 256;
    BytesValue(n, 2);
    BytesValue(m, 1);
    assert n == n % 256 + 256 * (m % 256) + 0x1_0000 * (m / 256);
  }

  lemma TailOf(out: seq<int>, n: int)
    ensures Tail(out + Bytes(n, 4), 4) == n % WORD32 && Tail(out + Bytes(n, 2), 2) == n % 0x1_0000
    ensures (out + Bytes(n, 1))[|out|] == n % 256
  {
    BytesValue4(n);
    BytesValue2(n);
    assert (out + Bytes(n, 4))[|out|..] == Bytes(n, 4) && (out + Bytes(n, 2))[|out|..] == Bytes(n, 2);
  }

  /** Adding back what was subtracted from a relative address. */
  lemma Relative(n: int, e: int)
    ensures (e + (n - e) % WORD32) % WORD32 == n % WORD32
  {
    var q := (n - e) / WORD32;
    assert n == e + (n - e) % WORD32 + WORD32 * q;
    AddMultiple(e + (n - e) % WORD32, q);
  }

  lemma AddMultiple(x: int, q: int)
    ensures (x + WORD32 * q) % WORD32 == x % WORD32
  {
    var d := x / WORD32;
    assert x + WORD32 * q == WORD32 * (d + q) + x % WORD32;
  }

  lemma SignedByte(n: int)
    requires FitsByte(n)
    ensures Signed8(n % 256) == n
  {
  }

  /** Every operand is read back as the argument, in the width that the action asks for. */
  lemma OperandReads(out: seq<int>, a: int, n: int, fill: int, base: int)
    requires IsArg(a) && (a == IMM_WB || a == IMM_DB ==> |out| >= 2)
    ensures OperandOk(out, ArgCode(out, a, n, fill, base), a, n, fill, base)
  {
    TailOf(out, n);
    RelativeTail(out, n, base);
    if FitsByte(n) { SignedByte(n); }
    if a == IMM_WB || a == IMM_DB { TailOf(Bumped(out), n); }
  }

  /** The bytes of an address relative to their end. */
  lemma RelativeTail(out: seq<int>, t: int, base: int)
    ensures var c := out + Bytes(t - (base + |out| + 4), 4);
            |c| == |out| + 4 && out <= c && (base + |c| + Tail(c, 4)) % WORD32 == t % WORD32
  {
    TailOf(out, t - (base + |out| + 4));
    Relative(t, base + |out| + 4);
  }

  /** A reference in an operand is the address of its label. */
  lemma AddressReads(al: seq<int>, b: map<int, int>, gl: map<int, int>, base: int, out: seq<int>, x: Item)
    requires IsRef(At(al, x.p)) && !IsRel(At(al, x.p))
    ensures var c, n := ItemCode(al, b, gl, base, out, x), Held(b, x.pos);
            && |c| == |out| + 4 && out <= c
            && Tail(c, 4) == (if n < 0 then AddressOf(gl, -n) else base + Held(b, n)) % WORD32
  {
    var n := Held(b, x.pos);
    TailOf(out, if n < 0 then AddressOf(gl, -n) else Held(b, n) + base);
  }

  /** A branch to a global that is not defined here reaches the address in the table. */
  lemma GlobalReached(al: seq<int>, b: map<int, int>, gl: map<int, int>, base: int, out: seq<int>, x: Item)
    requires IsRel(At(al, x.p)) && Held(b, x.pos) < 0
    ensures var c := ItemCode(al, b, gl, base, out, x);
            && |c| == |out| + 4 && out <= c
            && (base + |c| + Tail(c, 4)) % WORD32 == AddressOf(gl, -Held(b, x.pos)) % WORD32
  {
    RelCode(al, b, gl, base, out, x);
    RelativeTail(out, AddressOf(gl, -Held(b, x.pos)), base);
  }

  /** Padding ends at the next multiple, and not at a later one. */
  lemma Padded(al: seq<int>, b: map<int, int>, gl: map<int, int>, base: int, out: seq<int>, x: Item)
    requires At(al, x.p) == ALIGN && IsMask(At(al, x.p + 1))
    ensures var c, m := ItemCode(al, b, gl, base, out, x), At(al, x.p + 1);
            && out <= c && |c| % (m + 1) == 0 && |c| - |out| <= m && forall i :: |out| <= i < |c| ==> c[i] == 0x90
  {
    AlignCut(|out|, At(al, x.p + 1));
  }
}
