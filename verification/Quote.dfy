/**
 * Quoted strings (addquoted in lib_string.c), and how the lexer reads them back
 * (read_string in lj_lex.c; section 2.1 of the Lua 5.1 reference manual).
 * Characters are integers below 256.
 */
module Quote {
  import opened Pattern

  const QUOTE: int := 34
  const ESC: int := 92

  predicate IsString(s: seq<int>) {
    forall i :: 0 <= i < |s| ==> 0 <= s[i] < 256
  }

  // ---- The reader ----

  predicate IsNewline(c: int) { c == 10 || c == 13 }

  /** Past white space, where a line break may take two characters. */
  function SkipSpace(b: seq<int>, i: nat): (j: nat)
    ensures i <= j
    decreases |b| - i
  {
    if i < |b| && IsSpace(b[i]) then SkipSpace(b, i + 1) else i
  }

  /** The character for a simple escape. */
  function Simple(c: int): Option<int> {
    if c == 97 then Some(7) else if c == 98 then Some(8) else if c == 102 then Some(12) else if c == 110 then Some(10)
    else if c == 114 then Some(13) else if c == 116 then Some(9) else if c == 118 then Some(11)
    else if c == ESC || c == QUOTE || c == 39 then Some(c) else None
  }

  function HexValue(c: int): int {
    if IsDigit(c) then c % 16 else c % 16 + 9
  }

  /** A decimal escape of up to three digits: its value and its end. */
  function Decimal(b: seq<int>, i: nat): (r: (int, nat))
    requires i < |b|
    ensures i < r.1
  {
    var c := b[i] - 48;
    if i + 1 < |b| && IsDigit(b[i + 1]) then
      var c2 := c * 10 + (b[i + 1] - 48);
      if i + 2 < |b| && IsDigit(b[i + 2]) then (c2 * 10 + (b[i + 2] - 48), i + 3) else (c2, i + 2)
    else (c, i + 1)
  }

  /** What one character or escape stands for, and where the next one starts; none for an error. */
  function Step(b: seq<int>, i: nat): (r: Option<(seq<int>, nat)>)
    requires i < |b|
    ensures r.Some? ==> i < r.value.1
  {
    if IsNewline(b[i]) then None
    else if b[i] != ESC then Some(([b[i]], i + 1))
    else if i + 1 >= |b| then None
    else
      var c := b[i + 1];
      if Simple(c).Some? then Some(([Simple(c).value], i + 2))
      else if c == 120 then
        if i + 3 < |b| && IsXdigit(b[i + 2]) && IsXdigit(b[i + 3])
        then Some(([HexValue(b[i + 2]) * 16 + HexValue(b[i + 3])], i + 4)) else None
      else if c == 122 then Some(([], SkipSpace(b, i + 2)))
      else if IsNewline(c) then
        Some(([10], if i + 2 < |b| && IsNewline(b[i + 2]) && b[i + 2] != c then i + 3 else i + 2))
      else if IsDigit(c) then
        var (v, j) := Decimal(b, i + 1);
        if v > 255 then None else Some(([v], j))
      else None
  }

  /** read_string behind the opening quote: the string and where it ends, or none for an error. */
  function Read(b: seq<int>, i: nat): Option<(seq<int>, nat)>
    decreases |b| - i
  {
    if i >= |b| then None
    else if b[i] == QUOTE then Some(([], i + 1))
    else
      match Step(b, i)
      case None => None
      case Some((cs, j)) =>
        match Read(b, j)
        case None => None
        case Some((rest, end)) => Some((cs + rest, end))
  }

  // ---- The writer ----

  /** c * 205 >> 11 */
  function Tens(c: nat): nat {
    c * 205 / 2048
  }

  lemma TensIsTenth(c: nat)
    requires c < 100
    ensures Tens(c) == c / 10
  {
    var d, e := c / 10, c % 10;
    assert c * 205 == 2048 * d + (2 * d + 205 * e);
  }

  /** How a character is written, given the one that follows it; strings end with a zero. */
  function Escaped(c: int, next: int): seq<int>
  {
    if c == QUOTE || c == ESC || c == 10 then [ESC, c]
    else if IsCntrl(c) then
      if c >= 100 || IsDigit(next) then [ESC, if c >= 100 then 49 else 48, 48 + c % 100 / 10, 48 + c % 10]
      else if c >= 10 then [ESC, 48 + c / 10, 48 + c % 10]
      else [ESC, 48 + c]
    else [c]
  }

  function NextOf(s: seq<int>, i: nat): int {
    if i + 1 < |s| then s[i + 1] else 0
  }

  /** All characters from i on, and the closing quote. */
  function EscapedFrom(s: seq<int>, i: nat): seq<int>
    requires i <= |s|
    decreases |s| - i
  {
    if i == |s| then [QUOTE] else Escaped(s[i], NextOf(s, i)) + EscapedFrom(s, i + 1)
  }

  /** One round of the loop in addquoted. */
  method AddChar(b0: seq<int>, c0: int, next: int) returns (b: seq<int>)
    requires 0 <= c0 < 256
    ensures b == b0 + Escaped(c0, next)
  {
    var c := c0;
    b := b0;
    if c == QUOTE || c == ESC || c == 10 {
      b := b + [ESC];
    } else if IsCntrl(c) {
      b := b + [ESC];
      if c >= 100 || IsDigit(next) {
        b := b + [if c >= 100 then 49 else 48];
        if c >= 100 {
          c := c - 100;
        }
        var d := Tens(c);
        TensIsTenth(c);
        c := c - d * 10;
        b := b + [48 + d];
      } else if c >= 10 {
        var d := Tens(c);
        TensIsTenth(c);
        c := c - d * 10;
        b := b + [48 + d];
      }
      c := c + 48;
    }
    b := b + [c];
  }

  /** addquoted: what is written is read back as the string. */
  method AddQuoted(str: seq<int>) returns (b: seq<int>)
    requires IsString(str)
    ensures b == [QUOTE] + EscapedFrom(str, 0)
    ensures Read(b, 1) == Some((str, |b|))
    ensures Clean(b)
  {
    b := [QUOTE];
    var s := 0;
    while s < |str|
      invariant s <= |str| && [QUOTE] + EscapedFrom(str, 0) == b + EscapedFrom(str, s)
    {
      ghost var b0 := b;
      b := AddChar(b, str[s], NextOf(str, s));
      assert b0 + (Escaped(str[s], NextOf(str, s)) + EscapedFrom(str, s + 1)) == b + EscapedFrom(str, s + 1);
      s := s + 1;
    }
    b := b + [QUOTE];
    RoundTrip([QUOTE], str, 0);
    NoControls(str, 0);
    CleanBoth([QUOTE], EscapedFrom(str, 0));
    assert str[0..] == str;
  }

  // ---- The round trip ----

  /** What is written next never starts with a digit, unless the next character is one, and never with a line break. */
  lemma StartsWith(s: seq<int>, i: nat)
    requires IsString(s) && i <= |s|
    ensures EscapedFrom(s, i) != []
    ensures var c := EscapedFrom(s, i)[0];
            (IsDigit(c) ==> i < |s| && IsDigit(s[i])) && !IsNewline(c)
  {
  }

  /** The only control character is a line break behind an escape. */
  predicate Clean(e: seq<int>) {
    forall k :: 0 <= k < |e| && IsCntrl(e[k]) ==> e[k] == 10 && k > 0 && e[k - 1] == ESC
  }

  lemma {:induction false} NoControls(s: seq<int>, i: nat)
    requires IsString(s) && i <= |s|
    ensures Clean(EscapedFrom(s, i))
    decreases |s| - i
  {
    if i < |s| {
      var a, b := Escaped(s[i], NextOf(s, i)), EscapedFrom(s, i + 1);
      NoControls(s, i + 1);
      assert Clean(a);
      CleanBoth(a, b);
    }
  }

  lemma CleanBoth(a: seq<int>, b: seq<int>)
    requires Clean(a) && Clean(b)
    ensures Clean(a + b)
  {
    forall k | 0 <= k < |a + b| && IsCntrl((a + b)[k]) ensures (a + b)[k] == 10 && k > 0 && (a + b)[k - 1] == ESC {
      if k >= |a| { assert b[k - |a|] == (a + b)[k]; }
    }
  }

  lemma Parts(front: seq<int>, e: seq<int>, rest: seq<int>)
    requires rest != []
    ensures var b := front + (e + rest);
            b == (front + e) + rest && b[|front|..|front| + |e|] == e && b[|front| + |e|] == rest[0]
  {
  }

  /** Whatever precedes it, a written string is read back from where it starts. */
  lemma {:induction false} RoundTrip(front: seq<int>, s: seq<int>, i: nat)
    requires IsString(s) && i <= |s|
    ensures Read(front + EscapedFrom(s, i), |front|) == Some((s[i..], |front| + |EscapedFrom(s, i)|))
    decreases |s| - i
  {
    if i < |s| {
      var e, rest := Escaped(s[i], NextOf(s, i)), EscapedFrom(s, i + 1);
      StartsWith(s, i + 1);
      RoundTrip(front + e, s, i + 1);
      RoundTripOne(front, s[i], NextOf(s, i), rest, s[i + 1..]);
      Rest(s, i);
    } else {
      ReadQuote(front);
      Rest(s, i);
    }
  }

  lemma Rest(s: seq<int>, i: nat)
    requires i <= |s|
    ensures s[i..] == if i < |s| then [s[i]] + s[i + 1..] else []
  {
  }

  lemma ReadQuote(front: seq<int>)
    ensures var r := Read(front + [QUOTE], |front|); r.Some? && r.value.0 == [] && r.value.1 == |front| + 1
  {
    assert (front + [QUOTE])[|front|] == QUOTE;
  }

  lemma RoundTripOne(front: seq<int>, c: int, next: int, rest: seq<int>, tail: seq<int>)
    requires 0 <= c < 256 && rest != [] && (IsDigit(rest[0]) ==> IsDigit(next)) && !IsNewline(rest[0])
    requires var b := front + Escaped(c, next); Read(b + rest, |b|) == Some((tail, |b + rest|))
    ensures var b := front + (Escaped(c, next) + rest); Read(b, |front|) == Some(([c] + tail, |b|))
  {
    var e := Escaped(c, next);
    var b := front + (e + rest);
    Parts(front, e, rest);
    ReadOne(b, |front|, c, next, rest[0]);
    ReadNext(b, |front|, [c], |front| + |e|, tail, |b|);
  }

  lemma ReadNext(b: seq<int>, i: nat, cs: seq<int>, j: nat, rest: seq<int>, end: nat)
    requires i < |b| && b[i] != QUOTE && Step(b, i) == Some((cs, j)) && Read(b, j) == Some((rest, end))
    ensures Read(b, i) == Some((cs + rest, end))
  {
  }

  /** One written character is read as itself. */
  lemma ReadOne(b: seq<int>, i: nat, c: int, next: int, after: int)
    requires 0 <= c < 256 && (IsDigit(after) ==> IsDigit(next)) && !IsNewline(after)
    requires var e := Escaped(c, next);
             i + |e| < |b| && b[i..i + |e|] == e && b[i + |e|] == after
    ensures b[i] != QUOTE && Step(b, i) == Some(([c], i + |Escaped(c, next)|))
  {
    var e := Escaped(c, next);
    assert b[i] == b[i..i + |e|][0];
    assert |e| > 1 ==> b[i + 1] == b[i..i + |e|][1];
    assert |e| > 2 ==> b[i + 2] == b[i..i + |e|][2];
    assert |e| > 3 ==> b[i + 3] == b[i..i + |e|][3];
    if c != QUOTE && c != ESC && c != 10 && IsCntrl(c) { ReadDecimal(b, i, c, |e| - 1); }
  }

  lemma ThreeDigits(c: int)
    requires 0 <= c <= 127
    ensures c / 10 * 10 + c % 10 == c
    ensures ((if c >= 100 then 1 else 0) * 10 + c % 100 / 10) * 10 + c % 10 == c
  {
    var d := if c >= 100 then c - 100 else c;
    assert c % 100 == d && d % 10 == c % 10 && d / 10 * 10 + d % 10 == d;
  }

  /** A control character, with as many digits as were written. */
  lemma ReadDecimal(b: seq<int>, i: nat, c: int, n: nat)
    requires 0 <= c <= 127 && 1 <= n <= 3 && i + n + 1 < |b| && b[i] == ESC && (n < 3 ==> !IsDigit(b[i + n + 1]))
    requires n == 1 ==> c < 10 && b[i + 1] == 48 + c
    requires n == 2 ==> c < 100 && b[i + 1] == 48 + c / 10 && b[i + 2] == 48 + c % 10
    requires n == 3 ==>
               b[i + 1] == (if c >= 100 then 49 else 48) && b[i + 2] == 48 + c % 100 / 10 && b[i + 3] == 48 + c % 10
    ensures Step(b, i) == Some(([c], i + n + 1))
  {
    var d := b[i + 1];
    assert 48 <= d <= 57 && Simple(d).None? && !IsNewline(d);
    ThreeDigits(c);
    assert Decimal(b, i + 1) == (c, i + n + 1);
  }
}
