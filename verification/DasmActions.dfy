/**
 * Action lists of DynASM (dasm_x86.h): the actions, what each takes from the
 * action list, from the arguments and from the section buffer, and how many
 * bytes of code it may become.
 */
module DasmActions {
  import opened DasmLabels

  const DISP: int := 233
  const IMM_S: int := 234
  const IMM_B: int := 235
  const IMM_W: int := 236
  const IMM_D: int := 237
  const IMM_WB: int := 238
  const IMM_DB: int := 239
  const SPACE: int := 241
  const REL_A: int := 243
  const REL_LG: int := 244
  const REL_PC: int := 245
  const IMM_LG: int := 246
  const IMM_PC: int := 247
  const LABEL_LG: int := 248
  const LABEL_PC: int := 249
  const ALIGN: int := 250
  const ESC: int := 252
  const SECTION: int := 254
  const STOP: int := 255

  /** (n+128)&-256 is zero */
  predicate FitsByte(n: int) { -128 <= n <= 127 }

  predicate IsLiteral(a: int) { a < DISP || a == ESC }
  predicate IsRel(a: int) { a == REL_LG || a == REL_PC }
  predicate IsRef(a: int) { REL_LG <= a <= IMM_PC }
  predicate IsLabel(a: int) { a == LABEL_LG || a == LABEL_PC }
  predicate IsStop(a: int) { a == SECTION || a == STOP }
  /** The actions with one argument that goes to the buffer as it is. */
  predicate IsArg(a: int) { (IMM_S <= a <= IMM_DB) || a == SPACE || a == REL_A }

  predicate IsAction(a: int) {
    (0 <= a && IsLiteral(a)) || IsArg(a) || IsRef(a) || IsLabel(a) || a == ALIGN || IsStop(a)
  }

  /** Bytes of the action list. */
  function Length(a: int): nat {
    if a == SPACE || a == REL_LG || a == IMM_LG || a == LABEL_LG || a == ALIGN || a == ESC || a == SECTION then 2 else 1
  }

  /** Positions in the section buffer; that of a stop is where the next dasm_put puts its start. */
  function Slots(a: int): nat {
    if IsLiteral(a) then 0 else if IsRel(a) then 2 else 1
  }

  predicate TakesArg(a: int) { IsArg(a) || a == REL_PC || a == IMM_PC || a == LABEL_PC }

  /** A byte of the action list; there is none outside of it. */
  function At(al: seq<int>, i: int): int {
    if 0 <= i < |al| then al[i] else -1
  }

  /** Bytes of code at most; n is the argument. */
  function MaxSize(al: seq<int>, p: int, n: int): int
  {
    var a := At(al, p);
    if IsLiteral(a) || a == IMM_S || a == IMM_B then 1
    else if a == IMM_W then 2
    else if a == IMM_WB then (if FitsByte(n) then 1 else 2)
    else if a == IMM_DB then (if FitsByte(n) then 1 else 4)
    else if a == SPACE then n
    else if a == IMM_D || a == REL_A || IsRef(a) then 4
    else if a == ALIGN then At(al, p + 1)
    else 0
  }

  /** The label of a reference or a definition. */
  function LabelOf(al: seq<int>, p: int, n: int): Label
  {
    var a := At(al, p);
    if a == REL_LG || a == IMM_LG then Lg(if At(al, p + 1) <= 246 then At(al, p + 1) else At(al, p + 1) - 246)
    else if a == LABEL_LG then Lg(At(al, p + 1))
    else Pc(n)
  }

  predicate IsForward(al: seq<int>, p: int)
  {
    (At(al, p) == REL_LG || At(al, p) == IMM_LG) && At(al, p + 1) > 246
  }

  /** By how much a branch with that opcode byte gets shorter, if it can. */
  function Shrink(op: int): nat {
    if op == 0xe9 then 3 else if 0x80 <= op <= 0x8f then 4 else 0
  }

  /** The argument of an alignment. */
  predicate IsMask(m: int) {
    m == 0 || m == 1 || m == 3 || m == 7 || m == 15 || m == 31 || m == 63 || m == 127 || m == 255
  }

  /**
   * What the action list must provide for the action at p, where lits literal
   * bytes of the same dasm_put come right before it: branches come with their
   * opcode bytes, byte-sized forms of an immediate with opcode and ModRM.
   */
  predicate Shaped(al: seq<int>, p: int, lits: int) {
    && 0 <= p < |al| && lits >= 0
    && var a := At(al, p);
    && IsAction(a) && p + Length(a) <= |al| && (Length(a) == 2 ==> 0 <= At(al, p + 1) <= 255)
    && (a == ALIGN ==> IsMask(At(al, p + 1)))
    && (a == IMM_WB || a == IMM_DB ==> lits >= 2)
    && (IsRel(a) ==> lits >= 1 && p >= 1 && (Shrink(At(al, p - 1)) == 4 ==> lits >= 2))
    && (lits >= 1 ==> p >= 1)
  }

  /** The buffer positions that one dasm_put may use. */
  const MAXSECPOS: nat := 25

  /** What the action at p needs: an argument, a label of the tables, room in the buffer. */
  predicate Fits(al: seq<int>, p: int, args: seq<int>, lits: int, labels: set<Label>, nsec: nat, room: int) {
    && Shaped(al, p, lits)
    && var a := At(al, p);
    && (TakesArg(a) ==> |args| > 0)
    && var n := if TakesArg(a) then args[0] else 0;
    && (a == SPACE ==> n >= 0)
    && (IsRef(a) || IsLabel(a) ==> LabelOf(al, p, n) in labels)
    && (a == SECTION ==> 0 <= At(al, p + 1) < nsec)
    && (IsStop(a) || Slots(a) <= room)
  }

  function LeftArgs(al: seq<int>, p: int, args: seq<int>): seq<int> {
    if TakesArg(At(al, p)) && args != [] then args[1..] else args
  }

  /**
   * A call of dasm_put as dynasm.lua generates it, seen from the action at p on:
   * with the arguments that are left, and room for that many more positions.
   */
  predicate WellFormed(al: seq<int>, p: int, args: seq<int>, lits: nat, labels: set<Label>, nsec: nat, room: int)
    decreases |al| - p
  {
    && Fits(al, p, args, lits, labels, nsec, room)
    && (IsStop(At(al, p))
        || WellFormed(al, p + Length(At(al, p)), LeftArgs(al, p, args), if IsLiteral(At(al, p)) then lits + 1 else 0,
                      labels, nsec, room - Slots(At(al, p))))
  }

  lemma WellFormedNext(al: seq<int>, p: int, args: seq<int>, lits: nat, labels: set<Label>, nsec: nat, room: int)
    requires WellFormed(al, p, args, lits, labels, nsec, room)
    ensures Fits(al, p, args, lits, labels, nsec, room)
    ensures !IsStop(At(al, p)) ==> WellFormed(al, p + Length(At(al, p)), LeftArgs(al, p, args), if IsLiteral(At(al, p))
              then lits + 1 else 0,
                                              labels, nsec, room - Slots(At(al, p)))
  {
  }
}
