/**
 * Patterns without their text (section 5.4.1 of the Lua 5.1 reference manual):
 * sets of characters, classes with repetitions, captures. How they are written,
 * what they match, and that the scanners of lib_string.c, given the text, find
 * exactly that.
 */
module PatternText {
  import opened Pattern
  import opened PatternChoice

  /** An element of a set: a character, a range, or a letter behind an escape. */
  datatype Elem = Char(c: int) | Range(lo: int, hi: int) | Letter(l: int)

  datatype Class = Any | Plain(c: int) | Escaped(l: int) | Set(neg: bool, elems: seq<Elem>)

  /** Once, at most once, any number of times, at least once, and any number but as few as possible. */
  datatype Repeat = Once | Maybe | Many | Several | Few

  datatype Part =
    | Capturing(position: bool)
    | EndCapture
    | Brackets(b: int, e: int)
    | Border(neg: bool, elems: seq<Elem>)
    | Again(d: nat)
    | AtEnd
    | Chars(cls: Class, rep: Repeat)

  // ---- What they mean ----

  predicate ElemHas(e: Elem, c: int) {
    match e
    case Char(x) => c == x
    case Range(lo, hi) => lo <= c <= hi
    case Letter(l) => MatchClass(c, l)
  }

  /** The characters of a text. */
  predicate Among(c: int, s: string) {
    exists i :: 0 <= i < |s| && s[i] as int == c
  }

  /** The classes in terms of each other, as the manual lists them: letters by their case, the rest by exclusion. */
  lemma ClassLaws(c: int)
    requires 0 <= c < 256
    ensures forall l {:trigger MatchClass(c, l)} :: l in {97, 99, 100, 103, 108, 112, 115, 117, 119, 120, 122}
              ==> (MatchClass(c, l - 32) <==> !MatchClass(c, l))
    ensures MatchClass(c, 97) <==> MatchClass(c, 108) || MatchClass(c, 117)
    ensures MatchClass(c, 119) <==> MatchClass(c, 97) || MatchClass(c, 100)
    ensures MatchClass(c, 112) <==> MatchClass(c, 103) && !MatchClass(c, 119)
    ensures MatchClass(c, 99) ==> !MatchClass(c, 103) && c != 32
    ensures c < 128 ==> MatchClass(c, 99) || MatchClass(c, 103) || c == 32
    ensures c >= 128 ==> forall l {:trigger MatchClass(c, l)} :: 97 <= l <= 122 ==> !MatchClass(c, l)
    ensures MatchClass(c, 117) ==> MatchClass(c + 32, 108)
  {
  }

  /** The classes with few characters. */
  lemma ClassCharacters(c: int)
    requires 0 <= c < 256
    ensures MatchClass(c, 108) <==> Among(c, "abcdefghijklmnopqrstuvwxyz")
    ensures MatchClass(c, 100) <==> Among(c, "0123456789")
    ensures MatchClass(c, 120) <==> Among(c, "0123456789abcdefABCDEF")
    ensures MatchClass(c, 115) <==> Among(c, "\t\n\r ") || c == 11 || c == 12
    ensures MatchClass(c, 122) <==> c == 0
  {
    if MatchClass(c, 108) { assert "abcdefghijklmnopqrstuvwxyz"[c - 97] as int == c; }
    if MatchClass(c, 100) { assert "0123456789"[c - 48] as int == c; }
    if MatchClass(c, 120) {
      assert "0123456789abcdefABCDEF"[if c < 65 then c - 48 else if c < 97 then c - 49 else c - 87] as int == c;
    }
    if MatchClass(c, 115) && c != 11 && c != 12 {
      assert "\t\n\r "[if c == 32 then 3 else if c == 13 then 2 else c - 9] as int == c;
    }
  }

  predicate AnyHas(elems: seq<Elem>, c: int) {
    exists i :: 0 <= i < |elems| && ElemHas(elems[i], c)
  }

  predicate SetHas(neg: bool, elems: seq<Elem>, c: int) {
    neg != AnyHas(elems, c)
  }

  predicate Has(cls: Class, c: int) {
    match cls
    case Any => true
    case Plain(x) => c == x
    case Escaped(l) => MatchClass(c, l)
    case Set(neg, elems) => SetHas(neg, elems, c)
  }

  predicate Times(rep: Repeat, n: int) {
    match rep
    case Once => n == 1
    case Maybe => n <= 1
    case Several => n >= 1
    case _ => true
  }

  /** Outside of the subject there are zeros. */
  function CharAt(src: seq<int>, i: int): int {
    if 0 <= i < |src| then src[i] else 0
  }

  /** Capture l ends at s. */
  function EndedAt(caps: seq<Capture>, l: nat, s: nat): seq<Capture> {
    if l < |caps| then caps[l := Capture(caps[l].init, Length(if s >= caps[l].init then s - caps[l].init else 0))]
    else caps
  }

  /** A part takes the subject from s to m. */
  ghost predicate PartTakes(src: seq<int>, part: Part, s: nat, caps: seq<Capture>, m: nat, caps': seq<Capture>)
    requires m <= |src|
  {
    match part
    case Capturing(position) =>
      m == s && |caps| < MAXCAPTURES && caps' == caps + [Capture(s, if position then Position else Unfinished)]
    case EndCapture =>
      m == s && exists l: nat {:trigger IsOpen(caps, l)} :: IsOpen(caps, l) && caps' == EndedAt(caps, l, s)
    case Brackets(b, e) => caps' == caps && s < m && src[s] == b && IsBalanced(Text(src, []), s + 1, m, b, e, 1)
    case Border(neg, elems) =>
      m == s && caps' == caps && !SetHas(neg, elems, CharAt(src, s - 1)) && SetHas(neg, elems, CharAt(src, s))
    case Again(d) =>
      && caps' == caps && s <= m && 1 <= d <= |caps| && caps[d - 1].len.Length?
      && caps[d - 1].init + caps[d - 1].len.n <= |src|
      && src[s..m] == src[caps[d - 1].init..caps[d - 1].init + caps[d - 1].len.n]
    case AtEnd => m == s == |src| && caps' == caps
    case Chars(cls, rep) => s <= m && caps' == caps && Times(rep, m - s) && forall i :: s <= i < m ==> Has(cls, src[i])
  }

  /** The parts match from s to the end e. */
  ghost predicate PartsMatch(src: seq<int>, parts: seq<Part>, s: nat, caps: seq<Capture>, e: End) {
    if parts == [] then s <= |src| && e == End(s, caps)
    else
      exists m: nat, caps' {:trigger PartTakes(src, parts[0], s, caps, m, caps')} ::
        m <= |src| && PartTakes(src, parts[0], s, caps, m, caps') && PartsMatch(src, parts[1..], m, caps', e)
  }

  /** To take up to n rather than up to m. */
  predicate Prefers(part: Part, n: nat, m: nat) {
    part.Chars? && if part.rep.Few? then n < m else n > m
  }

  /** Of all the matches, the one in which each part in turn takes what it prefers. */
  ghost predicate PartsChosen(src: seq<int>, parts: seq<Part>, s: nat, caps: seq<Capture>, e: End) {
    if parts == [] then s <= |src| && e == End(s, caps)
    else
      exists m: nat, caps' {:trigger PartTakes(src, parts[0], s, caps, m, caps')} ::
        && m <= |src| && PartTakes(src, parts[0], s, caps, m, caps') && PartsChosen(src, parts[1..], m, caps', e)
        && NonePreferred(src, parts[0], parts[1..], s, caps, m)
  }

  ghost predicate NonePreferred(src: seq<int>, part: Part, rest: seq<Part>, s: nat, caps: seq<Capture>, m: nat) {
    forall n: nat, c, e {:trigger PartTakes(src, part, s, caps, n, c), PartsMatch(src, rest, n, c, e)} ::
      n <= |src| && Prefers(part, n, m) && PartTakes(src, part, s, caps, n, c) ==> !PartsMatch(src, rest, n, c, e)
  }

  // ---- How they are written ----

  function ElemText(e: Elem): seq<int> {
    match e
    case Char(c) => [c]
    case Range(lo, hi) => [lo, 45, hi]
    case Letter(l) => [L_ESC, l]
  }

  function ElemsText(elems: seq<Elem>): seq<int> {
    if elems == [] then [] else ElemText(elems[0]) + ElemsText(elems[1..])
  }

  function SetText(neg: bool, elems: seq<Elem>): seq<int> {
    (if neg then [91, 94] else [91]) + ElemsText(elems) + [93]
  }

  function ClassText(cls: Class): seq<int> {
    match cls
    case Any => [46]
    case Plain(c) => [c]
    case Escaped(l) => [L_ESC, l]
    case Set(neg, elems) => SetText(neg, elems)
  }

  function RepeatText(rep: Repeat): seq<int> {
    match rep
    case Once => []
    case Maybe => [63]
    case Many => [42]
    case Several => [43]
    case Few => [45]
  }

  function PartText(part: Part): (s: seq<int>)
    ensures s != []
  {
    match part
    case Capturing(position) => if position then [40, 41] else [40]
    case EndCapture => [41]
    case Brackets(b, e) => [L_ESC, 98, b, e]
    case Border(neg, elems) => [L_ESC, 102] + SetText(neg, elems)
    case Again(d) => [L_ESC, 48 + d]
    case AtEnd => [36]
    case Chars(cls, rep) => ClassText(cls) + RepeatText(rep)
  }

  function PartsText(parts: seq<Part>): seq<int> {
    if parts == [] then [] else PartText(parts[0]) + PartsText(parts[1..])
  }

  // ---- What can be written so ----

  predicate IsChar(c: int) { 0 < c < 256 }

  /** A character that may start an element: no bracket, except as the first one, and no complement sign. */
  predicate StartOk(c: int, first: bool, neg: bool) {
    IsChar(c) && c != L_ESC && (c == 93 ==> first) && !(c == 94 && first && !neg)
  }

  /** The elements are not mistaken for a range together with the character before them. */
  predicate NoRange(elems: seq<Elem>) {
    elems != [] ==> !(elems[0] == Char(45) && |elems| > 1) && !(elems[0].Range? && elems[0].lo == 45)
  }

  predicate ElemsOk(elems: seq<Elem>, first: bool, neg: bool) {
    elems != [] ==>
      && ElemsOk(elems[1..], false, neg)
      && match elems[0]
         case Char(c) => StartOk(c, first, neg) && NoRange(elems[1..])
         case Range(lo, hi) => StartOk(lo, first, neg) && IsChar(hi) && hi != L_ESC && hi != 93
         case Letter(l) => IsChar(l)
  }

  predicate SetOk(neg: bool, elems: seq<Elem>) {
    elems != [] && ElemsOk(elems, true, neg)
  }

  predicate ClassOk(cls: Class) {
    match cls
    case Any => true
    case Plain(c) => IsChar(c) && c != L_ESC && c != 40 && c != 41 && c != 46 && c != 91
    case Escaped(l) => IsChar(l) && l != 98 && l != 102 && !IsDigit(l)
    case Set(neg, elems) => SetOk(neg, elems)
  }

  predicate IsRepeat(c: int) { c == 63 || c == 42 || c == 43 || c == 45 }

  /** A part can be written before text that starts with that character, or with zero. */
  ghost predicate PartOk(part: Part, next: int) {
    forall c {:trigger OkBefore(part, c)} :: c == next ==> OkBefore(part, c)
  }

  predicate OkBefore(part: Part, next: int) {
    match part
    case Capturing(position) => !position ==> next != 41
    case EndCapture => true
    case Brackets(b, e) => IsChar(b) && IsChar(e)
    case Border(neg, elems) => SetOk(neg, elems)
    case Again(d) => d <= 9
    case AtEnd => next == 0
    case Chars(cls, rep) => ClassOk(cls) && (rep.Once? ==> !IsRepeat(next) && (cls == Plain(36) ==> next != 0))
  }

  /** The first character of the text, or the zero behind it. */
  function Next(parts: seq<Part>): int {
    if parts == [] then 0 else PartText(parts[0])[0]
  }

  ghost predicate PartsOk(parts: seq<Part>) {
    parts != [] ==> PartOk(parts[0], Next(parts[1..])) && PartsOk(parts[1..])
  }

  // ---- Scanning a set ----

  /** The text s stands in the pattern at q. */
  ghost predicate Reads(pat: seq<int>, q: nat, s: seq<int>) {
    q + |s| <= |pat| && forall i {:trigger ReadsAt(pat, q, s, i)} :: ReadsAt(pat, q, s, i)
  }

  predicate ReadsAt(pat: seq<int>, q: nat, s: seq<int>, i: int) {
    0 <= i < |s| ==> q + i < |pat| && pat[q + i] == s[i]
  }

  lemma ReadsBoth(pat: seq<int>, q: nat, a: seq<int>, b: seq<int>)
    requires Reads(pat, q, a + b)
    ensures Reads(pat, q, a) && Reads(pat, q + |a|, b)
  {
    forall i ensures ReadsAt(pat, q, a, i) { assert ReadsAt(pat, q, a + b, i); }
    var r := q + |a|;
    forall i ensures ReadsAt(pat, r, b, i) { assert ReadsAt(pat, q, a + b, i + |a|); }
  }

  /** The first element and the rest, as they stand in the pattern. */
  lemma ReadsElem(pat: seq<int>, q: nat, elems: seq<Elem>)
    requires elems != [] && Reads(pat, q, ElemsText(elems) + [93])
    ensures var e, n := elems[0], |ElemText(elems[0])|;
            && Reads(pat, q + n, ElemsText(elems[1..]) + [93]) && |ElemsText(elems)| == n + |ElemsText(elems[1..])|
            && q + n < |pat| && Reads(pat, q, ElemText(e))
  {
    var e, rest := ElemText(elems[0]), ElemsText(elems[1..]);
    Assoc(e, rest, [93]);
    ReadsBoth(pat, q, e, rest + [93]);
    ReadsLast(pat, q + |e|, rest);
  }

  lemma Assoc(a: seq<int>, b: seq<int>, c: seq<int>)
    ensures (a + b) + c == a + (b + c)
  {
  }

  lemma ReadsLast(pat: seq<int>, q: nat, a: seq<int>)
    requires Reads(pat, q, a + [93])
    ensures q + |a| < |pat| && pat[q + |a|] == 93
  {
    assert ReadsAt(pat, q, a + [93], |a|);
  }

  /** The character behind an element: the bracket, or what the next element starts with. */
  lemma BehindElem(pat: seq<int>, q: nat, elems: seq<Elem>, neg: bool)
    requires ElemsOk(elems, false, neg) && Reads(pat, q, ElemsText(elems) + [93])
    ensures q < |pat| && (elems == [] <==> pat[q] == 93)
    ensures NoRange(elems) ==> pat[q] != 45 || |ElemsText(elems)| == 1
  {
    if elems == [] {
      assert ReadsAt(pat, q, ElemsText(elems) + [93], 0);
    } else {
      ReadsElem(pat, q, elems);
      assert ReadsAt(pat, q, ElemText(elems[0]), 0);
    }
  }

  lemma {:induction false} ElemsRead(pat: seq<int>, c: int, q: nat, elems: seq<Elem>, first: bool, neg: bool)
    requires ElemsOk(elems, first, neg) && Reads(pat, q, ElemsText(elems) + [93])
    ensures q + |ElemsText(elems)| < |pat|
    ensures InElements(pat, c, q, q + |ElemsText(elems)|) <==> AnyHas(elems, c)
    decreases |elems|
  {
    if elems != [] {
      var e, rest := elems[0], elems[1..];
      var n := |ElemText(e)|;
      ReadsElem(pat, q, elems);
      ElemsRead(pat, c, q + n, rest, false, neg);
      BehindElem(pat, q + n, rest, neg);
      assert ReadsAt(pat, q, ElemText(e), 0) && ReadsAt(pat, q, ElemText(e), 1) && ReadsAt(pat, q, ElemText(e), 2);
      FirstOrRest(elems, c);
    }
  }

  lemma FirstOrRest(elems: seq<Elem>, c: int)
    requires elems != []
    ensures AnyHas(elems, c) <==> ElemHas(elems[0], c) || AnyHas(elems[1..], c)
  {
    var rest := elems[1..];
    if i :| 0 <= i < |elems| && ElemHas(elems[i], c) {
      assert i > 0 ==> rest[i - 1] == elems[i];
    }
    if i :| 0 <= i < |rest| && ElemHas(rest[i], c) {
      assert elems[i + 1] == rest[i];
    }
  }

  /** The scan for the bracket does not stop inside of an element. */
  lemma SetEndStep(pat: seq<int>, q: nat, e: Elem, first: bool, neg: bool)
    requires |pat| > 0 && pat[|pat| - 1] == 0 && Reads(pat, q, ElemText(e)) && q + |ElemText(e)| < |pat|
    requires ElemsOk([e], first, neg)
    ensures var q' := q + |ElemText(e)|; SetEnd(pat, q) == if pat[q'] == 93 then Some(q') else SetEnd(pat, q')
  {
    assert ReadsAt(pat, q, ElemText(e), 0) && ReadsAt(pat, q, ElemText(e), 1) && ReadsAt(pat, q, ElemText(e), 2);
    if e.Char? {
      assert SetEnd(pat, q) == if pat[q + 1] == 93 then Some(q + 1) else SetEnd(pat, q + 1);
    } else if e.Range? {
      assert SetEnd(pat, q) == SetEnd(pat, q + 1);
      assert SetEnd(pat, q + 1) == SetEnd(pat, q + 2);
      assert SetEnd(pat, q + 2) == if pat[q + 3] == 93 then Some(q + 3) else SetEnd(pat, q + 3);
    }
  }

  lemma {:induction false} SetEndRead(pat: seq<int>, q: nat, elems: seq<Elem>, first: bool, neg: bool)
    requires ElemsOk(elems, first, neg) && elems != [] && Reads(pat, q, ElemsText(elems) + [93])
    requires |pat| > 0 && pat[|pat| - 1] == 0
    ensures q + |ElemsText(elems)| < |pat| && SetEnd(pat, q) == Some(q + |ElemsText(elems)|)
    decreases |elems|
  {
    var e, rest := elems[0], elems[1..];
    var n := |ElemText(e)|;
    ReadsElem(pat, q, elems);
    BehindElem(pat, q + n, rest, neg);
    assert [e][1..] == [];
    SetEndStep(pat, q, e, first, neg);
    if rest != [] {
      SetEndRead(pat, q + n, rest, false, neg);
    }
  }

  /** Where the elements of a set start. */
  function ElemsAt(p: nat, neg: bool): nat { if neg then p + 2 else p + 1 }

  lemma SetParts(pat: seq<int>, p: nat, neg: bool, elems: seq<Elem>)
    requires SetOk(neg, elems) && Reads(pat, p, SetText(neg, elems))
    ensures p + 1 < |pat| && pat[p] == 91 && (pat[p + 1] == 94 <==> neg)
    ensures Reads(pat, ElemsAt(p, neg), ElemsText(elems) + [93])
    ensures ElemsAt(p, neg) + |ElemsText(elems)| == p + |SetText(neg, elems)| - 1 < |pat|
  {
    var head := if neg then [91, 94] else [91];
    Assoc(head, ElemsText(elems), [93]);
    ReadsBoth(pat, p, head, ElemsText(elems) + [93]);
    assert ReadsAt(pat, p, head, 0) && ReadsAt(pat, p, head, 1);
    SetStart(pat, ElemsAt(p, neg), elems, neg);
  }

  /** A set is found to its end, and holds what its elements hold. */
  lemma SetRead(pat: seq<int>, p: nat, neg: bool, elems: seq<Elem>)
    requires SetOk(neg, elems) && Reads(pat, p, SetText(neg, elems)) && |pat| > 0 && pat[|pat| - 1] == 0
    ensures var ep := p + |SetText(neg, elems)|;
            && p + 1 < ep - 1 < ep < |pat| && pat[p] == 91 && ClassEnd(pat, p) == Some(ep)
            && forall c :: InSet(pat, c, p, ep - 1) <==> SetHas(neg, elems, c)
  {
    var q := ElemsAt(p, neg);
    SetParts(pat, p, neg, elems);
    SetEndRead(pat, q, elems, true, neg);
    ReadsLast(pat, q, ElemsText(elems));
    forall c ensures InSet(pat, c, p, q + |ElemsText(elems)|) <==> SetHas(neg, elems, c) {
      ElemsRead(pat, c, q, elems, true, neg);
    }
  }

  /** Without a complement sign, a set does not start with one. */
  lemma SetStart(pat: seq<int>, q: nat, elems: seq<Elem>, neg: bool)
    requires SetOk(neg, elems) && Reads(pat, q, ElemsText(elems) + [93])
    ensures q < |pat| && (!neg ==> pat[q] != 94)
  {
    ReadsElem(pat, q, elems);
    assert ReadsAt(pat, q, ElemText(elems[0]), 0);
  }

  /** The same for any class. */
  lemma ClassRead(pat: seq<int>, p: nat, cls: Class)
    requires ClassOk(cls) && Reads(pat, p, ClassText(cls)) && p + |ClassText(cls)| < |pat| && pat[|pat| - 1] == 0
    ensures var ep := p + |ClassText(cls)|;
            && p < ep && pat[p] != 0 && ClassEnd(pat, p) == Some(ep)
            && forall c :: Single(pat, c, p, ep) <==> Has(cls, c)
  {
    assert ReadsAt(pat, p, ClassText(cls), 0) && ReadsAt(pat, p, ClassText(cls), 1);
    match cls
    case Set(neg, elems) => SetRead(pat, p, neg, elems);
    case _ =>
  }

  // ---- Scanning the items ----

  /** The item that a part at p becomes. */
  function ItemOf(part: Part, p: nat): Item {
    match part
    case Capturing(position) => Open(position)
    case EndCapture => Close
    case Brackets(b, e) => Balance(b, e)
    case Border(neg, elems) => Frontier(p + 2, p + 2 + |SetText(neg, elems)|)
    case Again(d) => Back(48 + d)
    case AtEnd => Anchor
    case Chars(cls, rep) =>
      var ep := p + |ClassText(cls)|;
      match rep
      case Once => One(p, ep)
      case Maybe => Optional(p, ep)
      case Many => Star(p, ep)
      case Several => Plus(p, ep)
      case Few => Minus(p, ep)
  }

  lemma CharsRead(pat: seq<int>, p: nat, cls: Class, rep: Repeat, next: int)
    requires Reads(pat, p, ClassText(cls) + RepeatText(rep)) && |pat| > 0 && pat[|pat| - 1] == 0
    requires var q := p + |ClassText(cls) + RepeatText(rep)|; q < |pat| && pat[q] == next
    requires OkBefore(Chars(cls, rep), next)
    ensures pat[p] != 0 && ItemAt(pat, p) == (ItemOf(Chars(cls, rep), p), p + |ClassText(cls) + RepeatText(rep)|)
    ensures forall c :: Single(pat, c, p, p + |ClassText(cls)|) <==> Has(cls, c)
  {
    ReadsBoth(pat, p, ClassText(cls), RepeatText(rep));
    ClassRead(pat, p, cls);
    var ep := p + |ClassText(cls)|;
    assert ReadsAt(pat, ep, RepeatText(rep), 0);
    assert Quantified(pat, p) == (ItemOf(Chars(cls, rep), p), ep + |RepeatText(rep)|);
    NotSpecial(pat, p, cls, rep);
  }

  /** No class is mistaken for another item. */
  lemma NotSpecial(pat: seq<int>, p: nat, cls: Class, rep: Repeat)
    requires ClassOk(cls) && Reads(pat, p, ClassText(cls)) && p + |ClassText(cls)| < |pat| && pat[|pat| - 1] == 0
    requires cls == Plain(36) ==> pat[p + 1] != 0
    ensures pat[p] != 0 && ItemAt(pat, p) == Quantified(pat, p)
  {
    assert ReadsAt(pat, p, ClassText(cls), 0) && ReadsAt(pat, p, ClassText(cls), 1);
  }

  /** A part is recognised for what it is. */
  lemma PartRead(pat: seq<int>, p: nat, part: Part)
    requires Reads(pat, p, PartText(part)) && p + |PartText(part)| < |pat| && pat[|pat| - 1] == 0
    requires PartOk(part, pat[p + |PartText(part)|])
    ensures pat[p] != 0 && ItemAt(pat, p) == (ItemOf(part, p), p + |PartText(part)|)
    ensures part.Chars? ==> forall c :: Single(pat, c, p, p + |ClassText(part.cls)|) <==> Has(part.cls, c)
    ensures part.Border? ==> var ep := p + 2 + |SetText(part.neg, part.elems)|;
                             && p + 3 < ep < |pat|
                             && forall c :: InSet(pat, c, p + 2, ep - 1) <==> SetHas(part.neg, part.elems, c)
  {
    assert OkBefore(part, pat[p + |PartText(part)|]);
    var s := PartText(part);
    match part
    case Chars(cls, rep) =>
      CharsRead(pat, p, cls, rep, pat[p + |s|]);
    case Border(neg, elems) =>
      ReadsBoth(pat, p, [L_ESC, 102], SetText(neg, elems));
      assert ReadsAt(pat, p, [L_ESC, 102], 0) && ReadsAt(pat, p, [L_ESC, 102], 1);
      SetRead(pat, p + 2, neg, elems);
    case _ =>
      assert ReadsAt(pat, p, s, 0) && ReadsAt(pat, p, s, 1) && ReadsAt(pat, p, s, 2) && ReadsAt(pat, p, s, 3);
  }

  /** What the item takes is what the part takes. */
  lemma PartMeans(t: Text, p: nat, part: Part, s: nat, caps: seq<Capture>, m: nat, caps': seq<Capture>)
    requires Reads(t.pat, p, PartText(part)) && p + |PartText(part)| < |t.pat| && t.pat[|t.pat| - 1] == 0
    requires PartOk(part, t.pat[p + |PartText(part)|]) && m <= |t.src|
    ensures Takes(t, ItemOf(part, p), s, caps, m, caps') <==> PartTakes(t.src, part, s, caps, m, caps')
  {
    match part
    case Chars(_, _) => CharsPart(t, p, part, s, caps, m, caps');
    case Border(_, _) => BorderPart(t, p, part, s, caps, m, caps');
    case Brackets(_, _) => BracketsPart(t, p, part, s, caps, m, caps');
    case Again(d) => AgainMeans(t, p, d, s, caps, m, caps');
    case EndCapture => CloseMeans(t, p, s, caps, m, caps');
    case _ =>
  }

  lemma CharsPart(t: Text, p: nat, part: Part, s: nat, caps: seq<Capture>, m: nat, caps': seq<Capture>)
    requires Reads(t.pat, p, PartText(part)) && p + |PartText(part)| < |t.pat| && t.pat[|t.pat| - 1] == 0
    requires part.Chars? && PartOk(part, t.pat[p + |PartText(part)|]) && m <= |t.src|
    ensures Takes(t, ItemOf(part, p), s, caps, m, caps') <==> PartTakes(t.src, part, s, caps, m, caps')
  {
    PartRead(t.pat, p, part);
    CharsMean(t, p, p + |ClassText(part.cls)|, part.cls, s, m);
    CharsTake(t, p, part, s, caps, m, caps');
  }

  lemma BorderPart(t: Text, p: nat, part: Part, s: nat, caps: seq<Capture>, m: nat, caps': seq<Capture>)
    requires Reads(t.pat, p, PartText(part)) && p + |PartText(part)| < |t.pat| && t.pat[|t.pat| - 1] == 0
    requires part.Border? && PartOk(part, t.pat[p + |PartText(part)|]) && m <= |t.src|
    ensures Takes(t, ItemOf(part, p), s, caps, m, caps') <==> PartTakes(t.src, part, s, caps, m, caps')
  {
    PartRead(t.pat, p, part);
    BorderMeans(t, p, part, s, caps, m, caps');
  }

  lemma BracketsPart(t: Text, p: nat, part: Part, s: nat, caps: seq<Capture>, m: nat, caps': seq<Capture>)
    requires part.Brackets? && m <= |t.src|
    ensures Takes(t, ItemOf(part, p), s, caps, m, caps') <==> PartTakes(t.src, part, s, caps, m, caps')
  {
    if s < m { BracketsMean(t, s + 1, m, part.b, part.e); }
    BracketsTake(t, p, part, s, caps, m, caps');
  }

  lemma CharsTake(t: Text, p: nat, part: Part, s: nat, caps: seq<Capture>, m: nat, caps': seq<Capture>)
    requires part.Chars? && m <= |t.src|
    requires AllFit(t, s, m, p, p + |ClassText(part.cls)|) <==> forall i :: s <= i < m ==> Has(part.cls, t.src[i])
    ensures Takes(t, ItemOf(part, p), s, caps, m, caps') <==> PartTakes(t.src, part, s, caps, m, caps')
  {
  }

  lemma BracketsTake(t: Text, p: nat, part: Part, s: nat, caps: seq<Capture>, m: nat, caps': seq<Capture>)
    requires part.Brackets? && m <= |t.src|
    requires s < m ==> (IsBalanced(Text(t.src, []), s + 1, m, part.b, part.e, 1)
                        <==> IsBalanced(t, s + 1, m, part.b, part.e, 1))
    ensures Takes(t, ItemOf(part, p), s, caps, m, caps') <==> PartTakes(t.src, part, s, caps, m, caps')
  {
  }

  lemma AgainMeans(t: Text, p: nat, d: nat, s: nat, caps: seq<Capture>, m: nat, caps': seq<Capture>)
    requires m <= |t.src|
    ensures Takes(t, Back(48 + d), s, caps, m, caps') <==> PartTakes(t.src, Again(d), s, caps, m, caps')
  {
    if 1 <= d <= |caps| { assert caps[48 + d - 49] == caps[d - 1]; }
  }

  lemma CloseMeans(t: Text, p: nat, s: nat, caps: seq<Capture>, m: nat, caps': seq<Capture>)
    requires m <= |t.src|
    ensures Takes(t, Close, s, caps, m, caps') <==> PartTakes(t.src, EndCapture, s, caps, m, caps')
  {
    forall l: nat | IsOpen(caps, l) ensures Closed(caps, l, s) == EndedAt(caps, l, s) { }
  }

  lemma BorderMeans(t: Text, p: nat, part: Part, s: nat, caps: seq<Capture>, m: nat, caps': seq<Capture>)
    requires part.Border? && m <= |t.src|
    requires var ep := p + 2 + |SetText(part.neg, part.elems)|;
             p + 3 < ep < |t.pat| && forall c :: InSet(t.pat, c, p + 2, ep - 1) <==> SetHas(part.neg, part.elems, c)
    ensures Takes(t, ItemOf(part, p), s, caps, m, caps') <==> PartTakes(t.src, part, s, caps, m, caps')
  {
    if s <= |t.src| {
      assert CharAt(t.src, s) == At(t, s) && CharAt(t.src, s - 1) == if s == 0 then 0 else t.src[s - 1];
    }
  }

  lemma CharsMean(t: Text, p: nat, ep: nat, cls: Class, s: nat, m: nat)
    requires p < ep < |t.pat| && m <= |t.src| && forall c :: Single(t.pat, c, p, ep) <==> Has(cls, c)
    ensures AllFit(t, s, m, p, ep) <==> forall i :: s <= i < m ==> Has(cls, t.src[i])
  {
    if AllFit(t, s, m, p, ep) {
      forall i | s <= i < m ensures Has(cls, t.src[i]) { assert Fits(t, i, p, ep); }
    }
  }

  /** Brackets do not depend on the pattern. */
  lemma {:induction false} DepthMeans(t: Text, s: nat, m: nat, b: int, e: int)
    requires m <= |t.src|
    ensures Depth(Text(t.src, []), s, m, b, e) == Depth(t, s, m, b, e)
    decreases m - s
  {
    if s < m { DepthMeans(t, s + 1, m, b, e); }
  }

  lemma BracketsMean(t: Text, s: nat, m: nat, b: int, e: int)
    requires s <= m <= |t.src|
    ensures IsBalanced(Text(t.src, []), s, m, b, e, 1) <==> IsBalanced(t, s, m, b, e, 1)
  {
    var t' := Text(t.src, []);
    forall k: nat | k <= m ensures Depth(t', s, k, b, e) == Depth(t, s, k, b, e) { DepthMeans(t, s, k, b, e); }
  }

  /** The text of a pattern, with the zero behind it, stands at p. */
  ghost predicate Stands(pat: seq<int>, p: nat, parts: seq<Part>) {
    Reads(pat, p, PartsText(parts)) && p + |PartsText(parts)| + 1 == |pat| && pat[|pat| - 1] == 0
  }

  lemma StandsNext(pat: seq<int>, p: nat, parts: seq<Part>)
    requires Stands(pat, p, parts) && parts != []
    ensures var q := p + |PartText(parts[0])|;
            Reads(pat, p, PartText(parts[0])) && q < |pat| && Stands(pat, q, parts[1..]) && pat[q] == Next(parts[1..])
    ensures p < |pat|
  {
    TextCut(parts);
    ReadsBoth(pat, p, PartText(parts[0]), PartsText(parts[1..]));
    NextIs(pat, p + |PartText(parts[0])|, parts[1..]);
  }

  lemma TextCut(parts: seq<Part>)
    requires parts != []
    ensures PartsText(parts) == PartText(parts[0]) + PartsText(parts[1..])
    ensures |PartsText(parts)| == |PartText(parts[0])| + |PartsText(parts[1..])|
  {
  }

  /** The first part can be written before what follows. */
  lemma FirstOk(parts: seq<Part>, next: int)
    requires parts != [] && PartsOk(parts) && next == Next(parts[1..])
    ensures PartOk(parts[0], next) && PartsOk(parts[1..])
  {
  }

  lemma NextIs(pat: seq<int>, q: nat, parts: seq<Part>)
    requires Stands(pat, q, parts)
    ensures pat[q] == Next(parts)
  {
    if parts != [] {
      var a, b := PartText(parts[0]), PartsText(parts[1..]);
      TextCut(parts);
      ReadsBoth(pat, q, a, b);
      assert ReadsAt(pat, q, a, 0);
    }
  }

  function ItemsOf(parts: seq<Part>, p: nat): seq<Item> {
    if parts == [] then [] else [ItemOf(parts[0], p)] + ItemsOf(parts[1..], p + |PartText(parts[0])|)
  }

  lemma ItemsStep(pat: seq<int>, p: nat, it: Item, q: nat)
    requires p < |pat| && pat[|pat| - 1] == 0 && pat[p] != 0 && ItemAt(pat, p) == (it, q) && !it.Bad?
    ensures q < |pat| && Items(pat, p) == [it] + Items(pat, q)
  {
  }

  lemma NotBad(part: Part, p: nat)
    ensures !ItemOf(part, p).Bad?
  {
  }

  /** Scanning the text of a pattern gives its parts back. */
  lemma {:induction false} TextItems(pat: seq<int>, p: nat, parts: seq<Part>)
    requires Stands(pat, p, parts) && PartsOk(parts)
    ensures p < |pat| && pat[|pat| - 1] == 0 && Items(pat, p) == ItemsOf(parts, p)
    decreases |parts|
  {
    if parts == [] {
      NextIs(pat, p, parts);
    } else {
      StandsNext(pat, p, parts);
      FirstOk(parts, pat[p + |PartText(parts[0])|]);
      PartRead(pat, p, parts[0]);
      NotBad(parts[0], p);
      ItemsStep(pat, p, ItemOf(parts[0], p), p + |PartText(parts[0])|);
      TextItems(pat, p + |PartText(parts[0])|, parts[1..]);
    }
  }

  /** The text of a pattern matches what its parts match. */
  lemma {:induction false} TextMeans(t: Text, p: nat, parts: seq<Part>, s: nat, caps: seq<Capture>, e: End)
    requires Stands(t.pat, p, parts) && PartsOk(parts)
    ensures Derives(t, ItemsOf(parts, p), s, caps, e) <==> PartsMatch(t.src, parts, s, caps, e)
    decreases |parts|
  {
    if parts != [] {
      StandsNext(t.pat, p, parts);
      FirstOk(parts, t.pat[p + |PartText(parts[0])|]);
      var q, items := p + |PartText(parts[0])|, ItemsOf(parts, p);
      assert items[0] == ItemOf(parts[0], p) && items[1..] == ItemsOf(parts[1..], q);
      forall m: nat, caps' | m <= |t.src|
        ensures Takes(t, items[0], s, caps, m, caps') <==> PartTakes(t.src, parts[0], s, caps, m, caps')
        ensures Derives(t, items[1..], m, caps', e) <==> PartsMatch(t.src, parts[1..], m, caps', e)
      {
        PartMeans(t, p, parts[0], s, caps, m, caps');
        TextMeans(t, q, parts[1..], m, caps', e);
      }
    }
  }

  /** Only repetitions have a choice, and they prefer the same. */
  lemma SamePreference(part: Part, p: nat, n: nat, m: nat)
    requires part.Chars? && part.rep.Once? ==> n == m
    ensures Better(ItemOf(part, p), n, m) <==> Prefers(part, n, m)
  {
  }

  /** For one part: what is preferred to m. */
  lemma SameChoice(t: Text, p: nat, parts: seq<Part>, s: nat, caps: seq<Capture>, m: nat, caps': seq<Capture>)
    requires Stands(t.pat, p, parts) && PartsOk(parts) && parts != [] && m <= |t.src|
    requires PartTakes(t.src, parts[0], s, caps, m, caps')
    ensures NoneBetter(t, ItemOf(parts[0], p), ItemsOf(parts[1..], p + |PartText(parts[0])|), s, caps, m)
       <==> NonePreferred(t.src, parts[0], parts[1..], s, caps, m)
  {
    var part, rest, q := parts[0], parts[1..], p + |PartText(parts[0])|;
    StandsNext(t.pat, p, parts);
    FirstOk(parts, t.pat[q]);
    forall n: nat, c, e | n <= |t.src|
      ensures Takes(t, ItemOf(part, p), s, caps, n, c) <==> PartTakes(t.src, part, s, caps, n, c)
      ensures Derives(t, ItemsOf(rest, q), n, c, e) <==> PartsMatch(t.src, rest, n, c, e)
      ensures PartTakes(t.src, part, s, caps, n, c) ==> (Better(ItemOf(part, p), n, m) <==> Prefers(part, n, m))
    {
      PartMeans(t, p, part, s, caps, n, c);
      TextMeans(t, q, rest, n, c, e);
      if PartTakes(t.src, part, s, caps, n, c) { SamePreference(part, p, n, m); }
    }
  }

  lemma {:induction false} TextChosen(t: Text, p: nat, parts: seq<Part>, s: nat, caps: seq<Capture>, e: End)
    requires Stands(t.pat, p, parts) && PartsOk(parts)
    ensures Chosen(t, ItemsOf(parts, p), s, caps, e) <==> PartsChosen(t.src, parts, s, caps, e)
    decreases |parts|
  {
    if parts != [] {
      StandsNext(t.pat, p, parts);
      FirstOk(parts, t.pat[p + |PartText(parts[0])|]);
      var q, items := p + |PartText(parts[0])|, ItemsOf(parts, p);
      assert items[0] == ItemOf(parts[0], p) && items[1..] == ItemsOf(parts[1..], q);
      forall m: nat, caps' | m <= |t.src|
        ensures Takes(t, items[0], s, caps, m, caps') <==> PartTakes(t.src, parts[0], s, caps, m, caps')
        ensures Chosen(t, items[1..], m, caps', e) <==> PartsChosen(t.src, parts[1..], m, caps', e)
        ensures PartTakes(t.src, parts[0], s, caps, m, caps') ==>
                  (NoneBetter(t, items[0], items[1..], s, caps, m)
                   <==> NonePreferred(t.src, parts[0], parts[1..], s, caps, m))
      {
        PartMeans(t, p, parts[0], s, caps, m, caps');
        TextChosen(t, q, parts[1..], m, caps', e);
        if PartTakes(t.src, parts[0], s, caps, m, caps') { SameChoice(t, p, parts, s, caps, m, caps'); }
      }
    }
  }

  /** The ways to match the text of a pattern are the matches of its parts, the preferred one first. */
  lemma PatternMeans(t: Text, p: nat, parts: seq<Part>, s: nat, caps: seq<Capture>, e: End)
    requires Stands(t.pat, p, parts) && PartsOk(parts) && s <= |t.src|
    ensures p < |t.pat| && t.pat[|t.pat| - 1] == 0
    ensures e in Ways(t, Items(t.pat, p), s, caps) <==> PartsMatch(t.src, parts, s, caps, e)
    ensures First(t, Items(t.pat, p), s, caps, e) <==> PartsChosen(t.src, parts, s, caps, e)
  {
    TextItems(t.pat, p, parts);
    WaysDerive(t, Items(t.pat, p), s, caps, e);
    TextMeans(t, p, parts, s, caps, e);
    WaysChosen(t, Items(t.pat, p), s, caps, e);
    TextChosen(t, p, parts, s, caps, e);
  }
}
