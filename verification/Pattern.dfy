/**
 * Lua patterns (lib_string.c; section 5.4.1 of the Lua 5.1 reference manual): the
 * items of a pattern, and the ways in which a pattern matches a subject, in the
 * order of preference. Characters are integers below 256; patterns end with a
 * zero.
 */
module Pattern {
  const L_ESC: int := 37
  const MAXCAPTURES: nat := 32
  const MAX_XLEVEL: nat := 200

  datatype Option<T> = None | Some(value: T)

  /** A capture is being recorded, or a position, or has a length. */
  datatype Extent = Unfinished | Position | Length(n: nat)
  datatype Capture = Capture(init: nat, len: Extent)

  /** Where a match ends, and the captures it made. */
  datatype End = End(pos: nat, caps: seq<Capture>)

  /** Subject and pattern. */
  datatype Text = Text(src: seq<int>, pat: seq<int>)

  predicate TextOk(t: Text) {
    && |t.pat| > 0 && t.pat[|t.pat| - 1] == 0
    && (forall i :: 0 <= i < |t.pat| ==> 0 <= t.pat[i] < 256) && (forall i :: 0 <= i < |t.src| ==> 0 <= t.src[i] < 256)
  }

  // ---- Single characters ----

  predicate IsUpper(c: int) { 65 <= c <= 90 }
  predicate IsLower(c: int) { 97 <= c <= 122 }
  predicate IsDigit(c: int) { 48 <= c <= 57 }
  predicate IsAlpha(c: int) { IsUpper(c) || IsLower(c) }
  predicate IsAlnum(c: int) { IsAlpha(c) || IsDigit(c) }
  predicate IsCntrl(c: int) { 0 <= c <= 31 || c == 127 }
  predicate IsGraph(c: int) { 33 <= c <= 126 }
  predicate IsPunct(c: int) { IsGraph(c) && !IsAlnum(c) }
  predicate IsSpace(c: int) { 9 <= c <= 13 || c == 32 }
  predicate IsXdigit(c: int) { IsDigit(c) || 65 <= c <= 70 || 97 <= c <= 102 }

  function ToLower(c: int): int { if IsUpper(c) then c + 32 else c }

  /** The class of a letter, and whether there is one: a c d g l p s u w x. */
  predicate HasClass(l: int) { l == 97 || l == 99 || l == 100 || l == 103 || l == 108 || l == 112 || l == 115
                     || l == 117 || l == 119 || l == 120 }

  predicate InClass(c: int, l: int) {
    if l == 97 then IsAlpha(c)
    else if l == 99 then IsCntrl(c)
    else if l == 100 then IsDigit(c)
    else if l == 103 then IsGraph(c)
    else if l == 108 then IsLower(c)
    else if l == 112 then IsPunct(c)
    else if l == 115 then IsSpace(c)
    else if l == 117 then IsUpper(c)
    else if l == 119 then IsAlnum(c)
    else l == 120 && IsXdigit(c)
  }

  /** match_class: upper case letters stand for the complement of their class. */
  predicate MatchClass(c: int, cl: int) {
    if HasClass(ToLower(cl)) then (if IsLower(cl) then InClass(c, cl) else !InClass(c, ToLower(cl)))
    else if cl == 122 then c == 0
    else if cl == 90 then c != 0
    else c == cl
  }

  /** The elements of a set from q to the bracket at ec, without the complement sign: classes, ranges and characters. */
  predicate InElements(pat: seq<int>, c: int, q: nat, ec: nat)
    requires ec < |pat|
    decreases |pat| - q
  {
    if q >= ec then false
    else if pat[q] == L_ESC then MatchClass(c, pat[q + 1]) || InElements(pat, c, q + 2, ec)
    else if pat[q + 1] == 45 && q + 2 < ec then pat[q] <= c <= pat[q + 2] || InElements(pat, c, q + 3, ec)
    else pat[q] == c || InElements(pat, c, q + 1, ec)
  }

  /** The set between the brackets at p and ec. */
  predicate InSet(pat: seq<int>, c: int, p: nat, ec: nat)
    requires p < ec < |pat|
  {
    if pat[p + 1] == 94 then !InElements(pat, c, p + 2, ec) else InElements(pat, c, p + 1, ec)
  }

  /** The character class that starts at p and ends before ep. */
  predicate Single(pat: seq<int>, c: int, p: nat, ep: nat)
    requires p < ep < |pat|
  {
    if pat[p] == 46 then true
    else if pat[p] == L_ESC then MatchClass(c, pat[p + 1])
    else if pat[p] == 91 then (if p < ep - 1 then InSet(pat, c, p, ep - 1) else false)
    else pat[p] == c
  }

  // ---- Items ----

  datatype Error =
    | EndsWithEscape | MissingBracket | UnbalancedPattern | MissingSet | InvalidCapture | InvalidClose
    | TooManyCaptures | TooComplex | UnfinishedCapture

  /** A part of a pattern; classes and sets are named by where they start and end. */
  datatype Item =
    | Open(position: bool)
    | Close
    | Balance(b: int, e: int)
    | Frontier(p: nat, ep: nat)
    | Back(d: int)
    | Anchor
    | One(p: nat, ep: nat)
    | Optional(p: nat, ep: nat)
    | Star(p: nat, ep: nat)
    | Plus(p: nat, ep: nat)
    | Minus(p: nat, ep: nat)
    | Bad(error: Error)

  /** The bracket that ends a set, looking from q on; the first character is never it. */
  function SetEnd(pat: seq<int>, q: nat): (r: Option<nat>)
    requires q < |pat| && pat[|pat| - 1] == 0
    ensures r.Some? ==> q < r.value < |pat| - 1 && pat[r.value] == 93
    decreases |pat| - q
  {
    if pat[q] == 0 then None
    else
      var q' := if pat[q] == L_ESC && pat[q + 1] != 0 then q + 2 else q + 1;
      if pat[q'] == 93 then Some(q') else SetEnd(pat, q')
  }

  /** Where a character class ends. */
  function ClassEnd(pat: seq<int>, p: nat): (r: Option<nat>)
    requires p < |pat| && pat[|pat| - 1] == 0 && pat[p] != 0
    ensures r.Some? ==> p < r.value < |pat|
    ensures r.Some? && pat[p] == 91 ==> p + 1 < r.value
  {
    if pat[p] == L_ESC then if pat[p + 1] == 0 then None else Some(p + 2)
    else if pat[p] == 91 then
      var e := SetEnd(pat, if pat[p + 1] == 94 then p + 2 else p + 1);
      if e.Some? then Some(e.value + 1) else None
    else Some(p + 1)
  }

  /** A class with what may follow it. */
  function Quantified(pat: seq<int>, p: nat): (Item, nat)
    requires p < |pat| && pat[|pat| - 1] == 0 && pat[p] != 0
  {
    match ClassEnd(pat, p)
    case None => (Bad(if pat[p] == L_ESC then EndsWithEscape else MissingBracket), p)
    case Some(ep) =>
      if pat[ep] == 63 then (Optional(p, ep), ep + 1)
      else if pat[ep] == 42 then (Star(p, ep), ep + 1)
      else if pat[ep] == 43 then (Plus(p, ep), ep + 1)
      else if pat[ep] == 45 then (Minus(p, ep), ep + 1)
      else (One(p, ep), ep)
  }

  /** The item at p, and where the next one starts. */
  function ItemAt(pat: seq<int>, p: nat): (r: (Item, nat))
    requires p < |pat| && pat[|pat| - 1] == 0 && pat[p] != 0
    ensures !r.0.Bad? ==> p < r.1 < |pat|
  {
    if pat[p] == 40 then (if pat[p + 1] == 41 then (Open(true), p + 2) else (Open(false), p + 1))
    else if pat[p] == 41 then (Close, p + 1)
    else if pat[p] == L_ESC && pat[p + 1] == 98 then
      if pat[p + 2] == 0 || pat[p + 3] == 0 then (Bad(UnbalancedPattern), p)
          else (Balance(pat[p + 2], pat[p + 3]), p + 4)
    else if pat[p] == L_ESC && pat[p + 1] == 102 then
      if pat[p + 2] != 91 then (Bad(MissingSet), p)
      else match ClassEnd(pat, p + 2)
        case None => (Bad(MissingBracket), p)
        case Some(ep) => (Frontier(p + 2, ep), ep)
    else if pat[p] == L_ESC && IsDigit(pat[p + 1]) then (Back(pat[p + 1]), p + 2)
    else if pat[p] == 36 && pat[p + 1] == 0 then (Anchor, p + 1)
    else Quantified(pat, p)
  }

  /** All items from p on, up to the end or to an error. */
  function Items(pat: seq<int>, p: nat): seq<Item>
    requires p < |pat| && pat[|pat| - 1] == 0
    decreases |pat| - p
  {
    if pat[p] == 0 then []
    else
      var (it, q) := ItemAt(pat, p);
      if it.Bad? then [it] else [it] + Items(pat, q)
  }

  // ---- What items match ----

  /** Subjects end with a zero. */
  function At(t: Text, s: nat): int {
    if s < |t.src| then t.src[s] else 0
  }

  predicate Fits(t: Text, s: nat, p: nat, ep: nat) {
    p < ep < |t.pat| && s < |t.src| && Single(t.pat, t.src[s], p, ep)
  }

  /** How many characters from s on are in a class. */
  function Run(t: Text, s: nat, p: nat, ep: nat): (n: nat)
    ensures !Fits(t, s + n, p, ep) && (s <= |t.src| ==> s + n <= |t.src|)
    decreases |t.src| - s
  {
    if Fits(t, s, p, ep) then Run(t, s + 1, p, ep) + 1 else 0
  }

  /** The end of a balanced string, from s on with cont brackets open. */
  function Balanced(t: Text, s: nat, b: int, e: int, cont: nat): (r: Option<nat>)
    ensures r.Some? ==> s < r.value <= |t.src|
    decreases |t.src| - s
  {
    if s >= |t.src| then None
    else if t.src[s] == e then if cont <= 1 then Some(s + 1) else Balanced(t, s + 1, b, e, cont - 1)
    else Balanced(t, s + 1, b, e, if t.src[s] == b then cont + 1 else cont)
  }

  /** The end of a balanced string that starts at s. */
  function BalanceEnd(t: Text, s: nat, b: int, e: int): (r: Option<nat>)
    ensures r.Some? ==> s < r.value <= |t.src|
  {
    if s < |t.src| && t.src[s] == b then Balanced(t, s + 1, b, e, 1) else None
  }

  /** The capture that a closing parenthesis closes: the last one that is not finished. */
  function ToClose(caps: seq<Capture>): (l: Option<nat>)
    ensures l.Some? ==>
              l.value < |caps| && caps[l.value].len == Unfinished && forall i ::
                l.value < i < |caps| ==> caps[i].len != Unfinished
    ensures l.None? ==> forall i :: 0 <= i < |caps| ==> caps[i].len != Unfinished
  {
    if caps == [] then None
    else if caps[|caps| - 1].len == Unfinished then Some(|caps| - 1)
    else ToClose(caps[..|caps| - 1])
  }

  /** A reference to an earlier capture names one that is finished. */
  predicate BackOk(caps: seq<Capture>, d: int) {
    49 <= d && d - 49 < |caps| && caps[d - 49].len != Unfinished
  }

  /** Where the text of an earlier capture, repeated at s, ends. Positions never match. */
  function BackEnd(t: Text, s: nat, caps: seq<Capture>, d: int): (r: Option<nat>)
    ensures r.Some? && s <= |t.src| ==> s <= r.value <= |t.src|
  {
    if !BackOk(caps, d) then None
    else
      var cap := caps[d - 49];
      if cap.len.Length? && s + cap.len.n <= |t.src| && cap.init + cap.len.n <= |t.src|
         && t.src[cap.init..cap.init + cap.len.n] == t.src[s..s + cap.len.n]
      then Some(s + cap.len.n) else None
  }

  /** The character before s is outside of the set, the one at s inside. */
  predicate AtFrontier(t: Text, s: nat, p: nat, ep: nat) {
    && p + 1 < ep < |t.pat| && s <= |t.src|
    && !InSet(t.pat, if s == 0 then 0 else t.src[s - 1], p, ep - 1) && InSet(t.pat, At(t, s), p, ep - 1)
  }

  function Opened(caps: seq<Capture>, position: bool, s: nat): seq<Capture> {
    caps + [Capture(s, if position then Position else Unfinished)]
  }

  function Closed(caps: seq<Capture>, l: nat, s: nat): seq<Capture>
    requires l < |caps|
  {
    caps[l := caps[l].(len := Length(if s >= caps[l].init then s - caps[l].init else 0))]
  }

  // ---- The ways to match, in the order of preference ----

  ghost function Ways(t: Text, items: seq<Item>, s: nat, caps: seq<Capture>): seq<End>
    requires s <= |t.src|
    decreases |items|, 0
  {
    if items == [] then [End(s, caps)] else FirstWays(t, items[0], items[1..], s, caps)
  }

  /** The ways that start with an item. */
  ghost function FirstWays(t: Text, it: Item, rest: seq<Item>, s: nat, caps: seq<Capture>): seq<End>
    requires s <= |t.src|
    decreases |rest|, |t.src| + 2
  {
    match it
    case Open(position) => if |caps| >= MAXCAPTURES then [] else Ways(t, rest, s, Opened(caps, position, s))
    case Close => if ToClose(caps).Some? then Ways(t, rest, s, Closed(caps, ToClose(caps).value, s)) else []
    case Balance(b, e) => if BalanceEnd(t, s, b, e).Some? then Ways(t, rest, BalanceEnd(t, s, b, e).value, caps) else []
    case Frontier(p, ep) => if AtFrontier(t, s, p, ep) then Ways(t, rest, s, caps) else []
    case Back(d) => if BackEnd(t, s, caps, d).Some? then Ways(t, rest, BackEnd(t, s, caps, d).value, caps) else []
    case Anchor => if s == |t.src| then Ways(t, rest, s, caps) else []
    case One(p, ep) => if Fits(t, s, p, ep) then Ways(t, rest, s + 1, caps) else []
    case Optional(p, ep) => (if Fits(t, s, p, ep) then Ways(t, rest, s + 1, caps) else []) + Ways(t, rest, s, caps)
    case Star(p, ep) => Longest(t, rest, s, Run(t, s, p, ep), caps)
    case Plus(p, ep) => if Fits(t, s, p, ep) then Longest(t, rest, s + 1, Run(t, s + 1, p, ep), caps) else []
    case Minus(p, ep) => Shortest(t, rest, s, Run(t, s, p, ep), caps)
    case Bad(_) => []
  }

  /** The rest after k characters, then after one less, down to none. */
  ghost function Longest(t: Text, rest: seq<Item>, s: nat, k: nat, caps: seq<Capture>): seq<End>
    requires s + k <= |t.src|
    decreases |rest|, k + 1
  {
    Ways(t, rest, s + k, caps) + if k == 0 then [] else Longest(t, rest, s, k - 1, caps)
  }

  /** The rest after no character, then after one, up to k. */
  ghost function Shortest(t: Text, rest: seq<Item>, s: nat, k: nat, caps: seq<Capture>): seq<End>
    requires s + k <= |t.src|
    decreases |rest|, k + 1
  {
    Ways(t, rest, s, caps) + if k == 0 then [] else Shortest(t, rest, s + 1, k - 1, caps)
  }

  // ---- The same without an order: which ways there are at all ----

  /** The items match from s to the end e. */
  ghost predicate Derives(t: Text, items: seq<Item>, s: nat, caps: seq<Capture>, e: End)
    decreases |items|
  {
    if items == [] then s <= |t.src| && e == End(s, caps)
    else
      exists m: nat, caps' {:trigger Takes(t, items[0], s, caps, m, caps')} ::
        m <= |t.src| && Takes(t, items[0], s, caps, m, caps') && Derives(t, items[1..], m, caps', e)
  }

  /** An item takes the subject from s to m. */
  ghost predicate Takes(t: Text, it: Item, s: nat, caps: seq<Capture>, m: nat, caps': seq<Capture>) {
    match it
    case Open(position) => m == s && |caps| < MAXCAPTURES
        && caps' == caps + [Capture(s, if position then Position else Unfinished)]
    case Close => m == s && exists l :: IsOpen(caps, l) && caps' == Closed(caps, l, s)
    case Balance(b, e) => caps' == caps && s < m <= |t.src| && t.src[s] == b && IsBalanced(t, s + 1, m, b, e, 1)
    case Frontier(p, ep) => m == s && caps' == caps && AtFrontier(t, s, p, ep)
    case Back(d) =>
      && caps' == caps && BackOk(caps, d) && caps[d - 49].len.Length? && s <= m <= |t.src|
      && caps[d - 49].init + caps[d - 49].len.n <= |t.src|
      && t.src[s..m] == t.src[caps[d - 49].init..caps[d - 49].init + caps[d - 49].len.n]
    case Anchor => m == s == |t.src| && caps' == caps
    case One(p, ep) => m == s + 1 && caps' == caps && AllFit(t, s, m, p, ep)
    case Optional(p, ep) => s <= m <= s + 1 && caps' == caps && AllFit(t, s, m, p, ep)
    case Star(p, ep) => s <= m && caps' == caps && AllFit(t, s, m, p, ep)
    case Plus(p, ep) => s < m && caps' == caps && AllFit(t, s, m, p, ep)
    case Minus(p, ep) => s <= m && caps' == caps && AllFit(t, s, m, p, ep)
    case Bad(_) => false
  }

  /** The last capture that is not finished. */
  ghost predicate IsOpen(caps: seq<Capture>, l: nat) {
    l < |caps| && caps[l].len == Unfinished && forall i :: l < i < |caps| ==> caps[i].len != Unfinished
  }

  /** All characters of a stretch are in a class. */
  ghost predicate AllFit(t: Text, s: nat, m: nat, p: nat, ep: nat) {
    forall i: nat {:trigger Fits(t, i, p, ep)} :: s <= i < m ==> Fits(t, i, p, ep)
  }

  /** Opening characters minus closing ones, from s to m. */
  function Depth(t: Text, s: nat, m: nat, b: int, e: int): int
    requires m <= |t.src|
    decreases m - s
  {
    if s >= m then 0
    else (if t.src[s] == e then -1 else if t.src[s] == b then 1 else 0) + Depth(t, s + 1, m, b, e)
  }

  /** With cont brackets open before s, m is the first position at which all are closed. */
  ghost predicate IsBalanced(t: Text, s: nat, m: nat, b: int, e: int, cont: nat)
    requires s <= m <= |t.src|
  {
    && s < m && t.src[m - 1] == e && cont + Depth(t, s, m, b, e) == 0
    && forall k: nat {:trigger Depth(t, s, k, b, e)} :: s <= k < m ==> cont + Depth(t, s, k, b, e) > 0
  }

  // ---- Both agree ----

  lemma {:induction false} RunFits(t: Text, s: nat, p: nat, ep: nat, m: nat)
    requires s <= m
    ensures m <= s + Run(t, s, p, ep) <==> AllFit(t, s, m, p, ep)
    decreases |t.src| - s
  {
    if s < m {
      if Fits(t, s, p, ep) {
        RunFits(t, s + 1, p, ep, m);
        assert AllFit(t, s, m, p, ep) <==> AllFit(t, s + 1, m, p, ep);
      }
    }
  }

  /** The first position at which all brackets are closed, found by counting. */
  lemma {:induction false} BalancedIs(t: Text, s: nat, b: int, e: int, cont: nat, m: nat)
    requires cont >= 1 && s <= m <= |t.src|
    ensures Balanced(t, s, b, e, cont) == Some(m) <==> IsBalanced(t, s, m, b, e, cont)
    decreases |t.src| - s
  {
    assert Depth(t, s, s, b, e) == 0;
    if s < |t.src| {
      var c := t.src[s];
      var d := if c == e then -1 else if c == b then 1 else 0;
      if s + 1 <= m {
        assert forall k: nat {:trigger Depth(t, s, k, b, e)} ::
            s < k <= m ==> Depth(t, s, k, b, e) == d + Depth(t, s + 1, k, b, e);
        assert Depth(t, s + 1, s + 1, b, e) == 0;
        if cont + d >= 1 {
          BalancedIs(t, s + 1, b, e, cont + d, m);
          BalancedNext(t, s, m, b, e, cont, d);
        } else if m > s + 1 {
          assert cont + Depth(t, s, s + 1, b, e) == 0;
        }
      }
    }
  }

  lemma BalancedNext(t: Text, s: nat, m: nat, b: int, e: int, cont: nat, d: int)
    requires s < m <= |t.src| && cont >= 1 && cont + d >= 1
    requires d == if t.src[s] == e then -1 else if t.src[s] == b then 1 else 0
    ensures IsBalanced(t, s, m, b, e, cont) <==> IsBalanced(t, s + 1, m, b, e, cont + d)
  {
    forall k: nat | s < k <= m ensures Depth(t, s, k, b, e) == d + Depth(t, s + 1, k, b, e) { }
    assert Depth(t, s, s, b, e) == 0;
    assert Depth(t, s + 1, s + 1, b, e) == 0;
    if IsBalanced(t, s, m, b, e, cont) {
      forall k: nat {:trigger Depth(t, s + 1, k, b, e)} | s + 1 <= k < m ensures cont + d + Depth(t, s + 1, k, b,
          e) > 0 {
        assert cont + Depth(t, s, k, b, e) > 0;
      }
    }
    if IsBalanced(t, s + 1, m, b, e, cont + d) {
      forall k: nat | s <= k < m ensures cont + Depth(t, s, k, b, e) > 0 {
        if k > s { assert cont + d + Depth(t, s + 1, k, b, e) > 0; }
      }
    }
  }

  /** The rest has a way from m on. */
  ghost predicate GoesOn(t: Text, rest: seq<Item>, m: nat, caps: seq<Capture>, e: End) {
    m <= |t.src| && e in Ways(t, rest, m, caps)
  }

  /** The ways after taking up to k characters. */
  lemma {:induction false} LongestWays(t: Text, rest: seq<Item>, s: nat, k: nat, caps: seq<Capture>, e: End)
    requires s + k <= |t.src|
    ensures e in Longest(t, rest, s, k, caps) <==> exists m: nat {:trigger GoesOn(t, rest, m, caps, e)} ::
              s <= m <= s + k && GoesOn(t, rest, m, caps, e)
    decreases k
  {
    assert GoesOn(t, rest, s + k, caps, e) <==> e in Ways(t, rest, s + k, caps);
    if k > 0 { LongestWays(t, rest, s, k - 1, caps, e); }
  }

  lemma {:induction false} ShortestWays(t: Text, rest: seq<Item>, s: nat, k: nat, caps: seq<Capture>, e: End)
    requires s + k <= |t.src|
    ensures e in Shortest(t, rest, s, k, caps) <==> exists m: nat {:trigger GoesOn(t, rest, m, caps, e)} ::
              s <= m <= s + k && GoesOn(t, rest, m, caps, e)
    decreases k
  {
    assert GoesOn(t, rest, s, caps, e) <==> e in Ways(t, rest, s, caps);
    if k > 0 {
      ShortestWays(t, rest, s + 1, k - 1, caps, e);
      assert e in Shortest(t, rest, s, k, caps) <==>
             e in Ways(t, rest, s, caps) || e in Shortest(t, rest, s + 1, k - 1, caps);
    }
  }

  /** Some way goes on from where an item may stop. */
  ghost predicate Goes(t: Text, it: Item, rest: seq<Item>, s: nat, caps: seq<Capture>, e: End) {
    exists m: nat, caps' {:trigger Takes(t, it, s, caps, m, caps')} :: Takes(t, it, s, caps, m, caps')
        && GoesOn(t, rest, m, caps', e)
  }

  /** An item that can stop in one way only. */
  lemma OneStop(t: Text, it: Item, rest: seq<Item>, s: nat, caps: seq<Capture>, e: End, m: nat, caps': seq<Capture>)
    requires forall n: nat, c {:trigger Takes(t, it, s, caps, n, c)} ::
               Takes(t, it, s, caps, n, c) <==> n == m && c == caps'
    ensures Goes(t, it, rest, s, caps, e) <==> GoesOn(t, rest, m, caps', e)
  {
    assert Takes(t, it, s, caps, m, caps');
  }

  lemma NoStop(t: Text, it: Item, rest: seq<Item>, s: nat, caps: seq<Capture>, e: End)
    requires forall n: nat, c {:trigger Takes(t, it, s, caps, n, c)} :: !Takes(t, it, s, caps, n, c)
    ensures !Goes(t, it, rest, s, caps, e)
  {
  }

  /** An item that takes at least lo characters of a class. */
  lemma ManyStops(t: Text, it: Item, rest: seq<Item>, s: nat, caps: seq<Capture>, e: End, lo: nat, p: nat, ep: nat)
    requires lo <= 1 && (lo == 1 ==> Fits(t, s, p, ep)) && s + lo <= |t.src|
    requires forall n: nat, c {:trigger Takes(t, it, s, caps, n, c)} ::
               Takes(t, it, s, caps, n, c) <==> s + lo <= n && AllFit(t, s, n, p, ep) && c == caps
    ensures Goes(t, it, rest, s, caps, e) <==> exists m: nat {:trigger GoesOn(t, rest, m, caps, e)} ::
              s + lo <= m <= s + lo + Run(t, s + lo, p, ep) && GoesOn(t, rest, m, caps, e)
  {
    var k := Run(t, s + lo, p, ep);
    if Goes(t, it, rest, s, caps, e) {
      var m: nat, c :| Takes(t, it, s, caps, m, c) && GoesOn(t, rest, m, c, e);
      RunFits(t, s + lo, p, ep, m);
    }
    if m: nat :| s + lo <= m <= s + lo + k && GoesOn(t, rest, m, caps, e) {
      RunFits(t, s + lo, p, ep, m);
      assert Takes(t, it, s, caps, m, caps);
    }
  }

  /** Items with a choice of how much to take. */
  predicate Repeats(it: Item) {
    it.Optional? || it.Star? || it.Plus? || it.Minus?
  }

  /** Where any other item stops, with the captures then. */
  ghost function Stop(t: Text, it: Item, s: nat, caps: seq<Capture>): Option<End> {
    match it
    case Open(position) => if |caps| >= MAXCAPTURES then None else Some(End(s, Opened(caps, position, s)))
    case Close => if ToClose(caps).Some? then Some(End(s, Closed(caps, ToClose(caps).value, s))) else None
    case Balance(b, e) => if BalanceEnd(t, s, b, e).Some? then Some(End(BalanceEnd(t, s, b, e).value, caps)) else None
    case Frontier(p, ep) => if AtFrontier(t, s, p, ep) then Some(End(s, caps)) else None
    case Back(d) => if BackEnd(t, s, caps, d).Some? then Some(End(BackEnd(t, s, caps, d).value, caps)) else None
    case Anchor => if s == |t.src| then Some(End(s, caps)) else None
    case One(p, ep) => if Fits(t, s, p, ep) then Some(End(s + 1, caps)) else None
    case _ => None
  }

  /** That is the only way to take it. */
  lemma StopIs(t: Text, it: Item, s: nat, caps: seq<Capture>, m: nat, caps': seq<Capture>)
    requires s <= |t.src| && !Repeats(it)
    ensures Takes(t, it, s, caps, m, caps') <==> Stop(t, it, s, caps) == Some(End(m, caps'))
  {
    match it
    case Close =>
      if ToClose(caps).Some? { assert IsOpen(caps, ToClose(caps).value); }
    case Balance(b, e) =>
      if s < m <= |t.src| && t.src[s] == b { BalancedIs(t, s + 1, b, e, 1, m); }
    case Back(d) =>
      assert s <= m <= |t.src| ==> |t.src[s..m]| == m - s;
    case One(p, ep) =>
      assert Fits(t, s, p, ep) <==> AllFit(t, s, s + 1, p, ep);
    case _ =>
  }

  lemma StopWays(t: Text, it: Item, rest: seq<Item>, s: nat, caps: seq<Capture>)
    requires s <= |t.src| && !Repeats(it)
    ensures var stop := Stop(t, it, s, caps);
            && (stop.Some? ==> stop.value.pos <= |t.src|)
            && FirstWays(t, it, rest, s, caps)
               == if stop.Some? then Ways(t, rest, stop.value.pos, stop.value.caps) else []
  {
  }

  /** The ways that start with an item go on from where it may stop. */
  lemma ItemTakes(t: Text, it: Item, rest: seq<Item>, s: nat, caps: seq<Capture>, e: End)
    requires s <= |t.src|
    ensures e in FirstWays(t, it, rest, s, caps) <==> Goes(t, it, rest, s, caps, e)
  {
    match it {
      case Optional(p, ep) => OptionalTakes(t, rest, s, caps, e, p, ep);
      case Star(p, ep) =>
        ManyStops(t, it, rest, s, caps, e, 0, p, ep);
        LongestWays(t, rest, s, Run(t, s, p, ep), caps, e);
      case Plus(p, ep) =>
        if Fits(t, s, p, ep) {
          ManyStops(t, it, rest, s, caps, e, 1, p, ep);
          LongestWays(t, rest, s + 1, Run(t, s + 1, p, ep), caps, e);
        } else {
          NoStop(t, it, rest, s, caps, e);
        }
      case Minus(p, ep) =>
        ManyStops(t, it, rest, s, caps, e, 0, p, ep);
        ShortestWays(t, rest, s, Run(t, s, p, ep), caps, e);
      case _ => SingleTakes(t, it, rest, s, caps, e);
    }
  }

  lemma SingleTakes(t: Text, it: Item, rest: seq<Item>, s: nat, caps: seq<Capture>, e: End)
    requires s <= |t.src| && !Repeats(it)
    ensures e in FirstWays(t, it, rest, s, caps) <==> Goes(t, it, rest, s, caps, e)
  {
    StopWays(t, it, rest, s, caps);
    var stop := Stop(t, it, s, caps);
    forall m: nat, c ensures Takes(t, it, s, caps, m, c) <==> stop == Some(End(m, c)) { StopIs(t, it, s, caps, m, c); }
    if stop.Some? {
      OneStop(t, it, rest, s, caps, e, stop.value.pos, stop.value.caps);
    } else {
      NoStop(t, it, rest, s, caps, e);
    }
  }

  lemma OptionalTakes(t: Text, rest: seq<Item>, s: nat, caps: seq<Capture>, e: End, p: nat, ep: nat)
    requires s <= |t.src|
    ensures e in FirstWays(t, Optional(p, ep), rest, s, caps) <==> Goes(t, Optional(p, ep), rest, s, caps, e)
  {
    var it := Optional(p, ep);
    assert Takes(t, it, s, caps, s, caps);
    assert Takes(t, it, s, caps, s + 1, caps) <==> Fits(t, s, p, ep);
    assert GoesOn(t, rest, s, caps, e) <==> e in Ways(t, rest, s, caps);
    assert Fits(t, s, p, ep) ==> (GoesOn(t, rest, s + 1, caps, e) <==> e in Ways(t, rest, s + 1, caps));
  }

  /** A way to match is a derivation, and every derivation is among the ways. */
  lemma {:induction false} WaysDerive(t: Text, items: seq<Item>, s: nat, caps: seq<Capture>, e: End)
    requires s <= |t.src|
    ensures e in Ways(t, items, s, caps) <==> Derives(t, items, s, caps, e)
    decreases |items|
  {
    if items != [] {
      var rest := items[1..];
      ItemTakes(t, items[0], rest, s, caps, e);
      forall m: nat, caps' | m <= |t.src| ensures GoesOn(t, rest, m, caps', e) <==> Derives(t, rest, m, caps', e) {
        WaysDerive(t, rest, m, caps', e);
      }
    }
  }
}
