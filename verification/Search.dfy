/**
 * string.find, string.match and string.gsub (lib_string.c): where a pattern is
 * tried, plain searches, and replacements.
 */
module Search {
  import opened Pattern
  import opened PatternText
  import opened Matcher

  const SPECIALS: seq<int> := [94, 36, 42, 43, 63, 46, 40, 91, 37, 45]

  /** The preferred match that starts at s. */
  ghost function MatchAt(t: Text, p: nat, s: nat): Option<End>
    requires TextOk(t) && p < |t.pat| && s <= |t.src|
  {
    FirstOf(Ways(t, Items(t.pat, p), s, []))
  }

  /** It is a derivation, and without one there is none. */
  lemma MatchAtDerives(t: Text, p: nat, s: nat)
    requires TextOk(t) && p < |t.pat| && s <= |t.src|
    ensures MatchAt(t, p, s).Some? ==> Derives(t, Items(t.pat, p), s, [], MatchAt(t, p, s).value)
    ensures MatchAt(t, p, s).None? ==> forall e {:trigger Derives(t, Items(t.pat, p), s, [], e)} ::
              !Derives(t, Items(t.pat, p), s, [], e)
  {
    var ws := Ways(t, Items(t.pat, p), s, []);
    if ws != [] {
      WaysDerive(t, Items(t.pat, p), s, [], ws[0]);
    }
    forall e | ws == [] ensures !Derives(t, Items(t.pat, p), s, [], e) {
      WaysDerive(t, Items(t.pat, p), s, [], e);
    }
  }

  /** The pattern matches nowhere from lo up to hi. */
  ghost predicate NoneFrom(t: Text, p: nat, lo: nat, hi: nat)
    requires TextOk(t) && p < |t.pat| && hi <= |t.src| + 1
  {
    forall s: nat, e {:trigger Derives(t, Items(t.pat, p), s, [], e)} :: lo <= s < hi
        ==> !Derives(t, Items(t.pat, p), s, [], e)
  }

  /** What a pattern may raise: if it is well formed, then only that it has too many parentheses and repetitions. */
  ghost predicate MayRaise(t: Text, p: nat, error: Pattern.Error)
    requires TextOk(t) && p < |t.pat|
  {
    WellFormed(Items(t.pat, p), []) ==> error == TooComplex && Calls(Items(t.pat, p)) >= MAX_XLEVEL
  }

  lemma MayOnlyRaise(o: Outcome, t: Text, p: nat)
    requires TextOk(t) && p < |t.pat| && RaisesOnly(o, t, p, Opens([]), 0)
    ensures o.Raises? ==> MayRaise(t, p, o.error)
  {
    assert Opens([]) == [];
  }

  datatype Found = Nowhere | Here(start: nat, end: nat, caps: seq<Capture>) | Failed(error: Pattern.Error)

  /** The matcher, started afresh at s. */
  method TryAt(ms: MatchState, p: nat, s: nat) returns (o: Outcome)
    requires ms.Valid() && p < |ms.t.pat| && s <= |ms.t.src|
    modifies ms, ms.capture
    ensures ms.Valid()
    ensures match o
            case NoMatch => MatchAt(ms.t, p, s) == None
            case Ends(pos) => MatchAt(ms.t, p, s) == Some(End(pos, ms.Caps()))
            case Raises(error) => MayRaise(ms.t, p, error)
  {
    ms.level, ms.depth := 0, 0;
    assert ms.Caps() == [];
    o := ms.Match(s, p);
    MayOnlyRaise(o, ms.t, p);
  }

  /** Found is the match that starts first, or the one at init if the pattern is anchored. */
  ghost predicate PatternFound(t: Text, init: nat, f: Found)
    requires TextOk(t) && init <= |t.src|
  {
    var anchor := t.pat[0] == 94;
    var p := if anchor then 1 else 0;
    match f
    case Nowhere => NoneFrom(t, p, init, if anchor then init + 1 else |t.src| + 1)
    case Here(start, end, caps) =>
      && init <= start <= end <= |t.src| && (anchor ==> start == init) && NoneFrom(t, p, init, start)
      && MatchAt(t, p, start) == Some(End(end, caps)) && Derives(t, Items(t.pat, p), start, [], End(end, caps))
    case Failed(error) => MayRaise(t, p, error)
  }

  /** str_find_aux with a pattern. */
  method FindPattern(t: Text, init: nat) returns (f: Found)
    requires TextOk(t) && init <= |t.src|
    ensures PatternFound(t, init, f)
  {
    var anchor := t.pat[0] == 94;
    var p := if anchor then 1 else 0;
    var ms := new MatchState(t);
    var s1 := init;
    while true
      invariant init <= s1 <= |t.src| && ms.Valid() && ms.t == t && fresh(ms) && fresh(ms.capture)
                  && NoneFrom(t, p, init, s1) && (anchor ==> s1 == init)
      decreases |t.src| - s1
    {
      var o := TryAt(ms, p, s1);
      MatchAtDerives(t, p, s1);
      if o.Raises? {
        return Failed(o.error);
      }
      if o.Ends? {
        MatchWithin(t, Items(t.pat, p), s1, [], End(o.pos, ms.Caps()));
        return Here(s1, o.pos, ms.capture[..ms.level]);
      }
      if s1 == |t.src| || anchor {
        return Nowhere;
      }
      s1 := s1 + 1;
    }
  }

  /** Matches end within the subject, and not before they start. */
  lemma {:induction false} MatchWithin(t: Text, items: seq<Item>, s: nat, caps: seq<Capture>, e: End)
    requires Derives(t, items, s, caps, e) && s <= |t.src|
    ensures s <= e.pos <= |t.src|
    decreases |items|
  {
    if items != [] {
      var m: nat, caps' :| m <= |t.src| && Takes(t, items[0], s, caps, m, caps') && Derives(t, items[1..], m, caps', e);
      MatchWithin(t, items[1..], m, caps', e);
    }
  }

  /**
   * For a pattern that is given by its parts: what is found is their preferred match where it starts, none
   * starts before it, and where nothing is found there is none.
   */
  lemma FoundMeans(t: Text, init: nat, f: Found, parts: seq<Part>, s: nat, e: End)
    requires TextOk(t) && init <= |t.src| && PatternFound(t, init, f)
    requires var p := if t.pat[0] == 94 then 1 else 0; Stands(t.pat, p, parts) && PartsOk(parts)
    ensures f.Here? ==> PartsMatch(t.src, parts, f.start, [], End(f.end, f.caps))
                        && PartsChosen(t.src, parts, f.start, [], End(f.end, f.caps))
    ensures init <= s <= |t.src| && (t.pat[0] == 94 ==> s == init) && PartsMatch(t.src, parts, s, [], e) ==>
              f.Failed? || (f.Here? && f.start <= s)
  {
    var p := if t.pat[0] == 94 then 1 else 0;
    if f.Here? {
      PatternMeans(t, p, parts, f.start, [], End(f.end, f.caps));
      WaysDerive(t, Items(t.pat, p), f.start, [], End(f.end, f.caps));
    }
    if s <= |t.src| {
      PatternMeans(t, p, parts, s, [], e);
      WaysDerive(t, Items(t.pat, p), s, [], e);
    }
  }

  // ---- Plain searches ----

  /** s2 occurs in s1 at i. */
  predicate OccursAt(s1: seq<int>, s2: seq<int>, i: nat) {
    i + |s2| <= |s1| && s1[i..i + |s2|] == s2
  }

  /** s2 does not occur in s1 before i. */
  ghost predicate NotBefore(s1: seq<int>, s2: seq<int>, i: nat) {
    forall k: nat {:trigger OccursAt(s1, s2, k)} :: k < i ==> !OccursAt(s1, s2, k)
  }

  /** r is the first occurrence, if there is one. */
  ghost predicate FirstOccurs(s1: seq<int>, s2: seq<int>, r: Option<nat>) {
    if r.Some? then OccursAt(s1, s2, r.value) && NotBefore(s1, s2, r.value) else NotBefore(s1, s2, |s1| + 1)
  }

  /** Where s2 occurs, its first character is found. */
  lemma NotWithout(s1: seq<int>, s2: seq<int>, at: nat, l1: nat, i: nat)
    requires s2 != [] && NotBefore(s1, s2, at) && at + l1 + |s2| == |s1| + 1 && i <= l1 && s2[0] !in s1[at..at + i]
    ensures NotBefore(s1, s2, at + i)
    ensures i == l1 ==> NotBefore(s1, s2, |s1| + 1)
  {
    forall k: nat | k < at + i ensures !OccursAt(s1, s2, k) {
      assert k + |s2| <= |s1| ==> s1[k..k + |s2|][0] == s1[k];
      if k >= at { assert s1[at..at + i][k - at] == s1[k]; }
    }
  }

  /** The first character is compared apart from the others. */
  lemma OccursHere(s1: seq<int>, s2: seq<int>, j: nat)
    requires s2 != [] && j + |s2| <= |s1| && s1[j] == s2[0]
    ensures OccursAt(s1, s2, j) <==> s1[j + 1..j + |s2|] == s2[1..]
  {
    assert s1[j..j + |s2|] == [s1[j]] + s1[j + 1..j + |s2|] && s2 == [s2[0]] + s2[1..];
  }

  /** lmemfind: the first occurrence; memchr finds its first character. */
  method MemFind(s1: seq<int>, s2: seq<int>) returns (r: Option<nat>)
    ensures FirstOccurs(s1, s2, r)
  {
    if |s2| == 0 {
      return Some(0);
    } else if |s2| > |s1| {
      return None;
    }
    var l2 := |s2| - 1;
    var l1 := |s1| - l2;
    var at: nat := 0;
    while l1 > 0
      invariant 0 <= l1 && at + l1 == |s1| - l2 && NotBefore(s1, s2, at)
      decreases l1
    {
      var init := MemChr(s1[at..at + l1], s2[0]);
      NotWithout(s1, s2, at, l1, if init.Some? then init.value else l1);
      if init.None? {
        return None;
      }
      var j := at + init.value;
      OccursHere(s1, s2, j);
      if s1[j + 1..j + 1 + l2] == s2[1..] {
        return Some(j);
      }
      l1 := l1 - (init.value + 1);
      at := j + 1;
    }
    NotWithout(s1, s2, at, 0, 0);
    return None;
  }

  /** memchr */
  method MemChr(s: seq<int>, c: int) returns (r: Option<nat>)
    ensures r.Some? ==> r.value < |s| && s[r.value] == c && c !in s[..r.value]
    ensures r.None? ==> c !in s
  {
    var i := 0;
    while i < |s|
      invariant i <= |s| && forall k :: 0 <= k < i ==> s[k] != c
    {
      if s[i] == c {
        return Some(i);
      }
      i := i + 1;
    }
    return None;
  }

  /** strpbrk(p, SPECIALS) finds a special character from i on; it stops at a zero. */
  predicate Special(p: seq<int>, i: nat)
    decreases |p| - i
  {
    i < |p| && p[i] != 0 && (p[i] in SPECIALS || Special(p, i + 1))
  }

  method HasSpecial(p: seq<int>) returns (b: bool)
    ensures b == Special(p, 0)
  {
    var i := 0;
    while i < |p| && p[i] != 0
      invariant i <= |p| && Special(p, 0) == Special(p, i)
    {
      if p[i] in SPECIALS {
        return true;
      }
      i := i + 1;
    }
    return false;
  }

  predicate IsText(s: seq<int>) {
    forall i :: 0 <= i < |s| ==> 0 <= s[i] < 256
  }

  /**
   * A pattern that stands for itself: no special character, no zero, and no closing parenthesis,
   * which SPECIALS lacks.
   */
  predicate IsPlain(s2: seq<int>) {
    forall i :: 0 <= i < |s2| ==> 0 < s2[i] < 256 && s2[i] !in SPECIALS && s2[i] != 41
  }

  /** An ordinary character takes itself. */
  lemma PlainItem(t: Text, p: nat, s: nat)
    requires TextOk(t) && p < |t.pat| && s <= |t.src| && t.pat[p] != 0 && t.pat[p] !in SPECIALS && t.pat[p] != 41
    requires t.pat[p + 1] !in SPECIALS
    ensures Ways(t, Items(t.pat, p), s, []) == if s < |t.src| && t.src[s] == t.pat[p]
              then Ways(t, Items(t.pat, p + 1), s + 1, []) else []
  {
    var c, d := t.pat[p], t.pat[p + 1];
    assert c in SPECIALS <==> c == 94 || c == 36 || c == 42 || c == 43 || c == 63 || c == 46 || c == 40 || c == 91 || c == 37 || c == 45;
    assert d in SPECIALS <==> d == 94 || d == 36 || d == 42 || d == 43 || d == 63 || d == 46 || d == 40 || d == 91 || d == 37 || d == 45;
    ItemsNext(t, p, s, []);
    assert ItemAt(t.pat, p) == (One(p, p + 1), p + 1);
    assert Fits(t, s, p, p + 1) <==> s < |t.src| && t.src[s] == c;
  }

  /** A pattern without special characters up to its zero at z matches just where its text occurs. */
  lemma {:induction false} PlainWays(t: Text, z: nat, p: nat, s: nat)
    requires TextOk(t) && p <= z < |t.pat| && t.pat[z] == 0 && IsPlain(t.pat[..z]) && s <= |t.src|
    ensures Ways(t, Items(t.pat, p), s, []) ==
            if OccursAt(t.src, t.pat[p..z], s) then [End(s + z - p, [])] else []
    decreases z - p
  {
    if p == z {
      assert t.src[s..s] == t.pat[p..z];
    } else {
      PlainAtEach(t, z, p);
      PlainItem(t, p, s);
      OccursWhere(t.src, t.pat, p, z, s);
      if s < |t.src| && t.src[s] == t.pat[p] { PlainWays(t, z, p + 1, s + 1); }
    }
  }

  lemma PlainAtEach(t: Text, z: nat, p: nat)
    requires TextOk(t) && p < z < |t.pat| && IsPlain(t.pat[..z]) && (t.pat[z] == 0 || t.pat[z] == 41)
    ensures t.pat[p] != 0 && t.pat[p] !in SPECIALS && t.pat[p] != 41 && t.pat[p + 1] !in SPECIALS
  {
    var w := t.pat[..z];
    assert t.pat[p] == w[p] && (p + 1 < z ==> t.pat[p + 1] == w[p + 1]);
  }

  /** A text occurs where its first character does and the rest of it follows. */
  lemma OccursWhere(src: seq<int>, pat: seq<int>, p: nat, z: nat, s: nat)
    requires p < z <= |pat| && s <= |src|
    ensures OccursAt(src, pat[p..z], s) <==> s < |src| && src[s] == pat[p] && OccursAt(src, pat[p + 1..z], s + 1)
  {
    var w := pat[p..z];
    assert w[0] == pat[p] && w[1..] == pat[p + 1..z];
    if s < |src| && src[s] == w[0] {
      OccursNext(src, w, s);
    } else if s + |w| <= |src| {
      assert src[s..s + |w|][0] == src[s];
    }
  }

  lemma OccursNext(src: seq<int>, w: seq<int>, s: nat)
    requires w != [] && s < |src| && src[s] == w[0]
    ensures OccursAt(src, w, s) <==> OccursAt(src, w[1..], s + 1)
  {
    if s + |w| <= |src| { OccursHere(src, w, s); }
  }

  /** A closing parenthesis that opens nothing never lets the pattern match. */
  lemma {:induction false} CloseNever(t: Text, k: nat, p: nat, s: nat)
    requires TextOk(t) && p <= k < |t.pat| && t.pat[k] == 41 && IsPlain(t.pat[..k]) && s <= |t.src|
    ensures Ways(t, Items(t.pat, p), s, []) == []
    decreases k - p
  {
    if p == k {
      ItemsNext(t, p, s, []);
      assert ItemAt(t.pat, p) == (Close, p + 1) && ToClose([]) == None;
    } else {
      PlainAtEach(t, k, p);
      PlainItem(t, p, s);
      if s < |t.src| && t.src[s] == t.pat[p] { CloseNever(t, k, p + 1, s + 1); }
    }
  }

  /** The matcher agrees with a plain search for s2 at s. */
  ghost predicate SameAt(s2: seq<int>, t: Text, s: nat) {
    TextOk(t) && t.pat == s2 + [0] && s <= |t.src| ==> (MatchAt(t, 0, s).Some? <==> OccursAt(t.src, s2, s))
  }

  /** Up to the first zero or closing parenthesis, a pattern in which strpbrk finds nothing is plain. */
  lemma {:induction false} PlainUpTo(s2: seq<int>, i: nat) returns (k: nat)
    requires IsText(s2) && i <= |s2| && !Special(s2, i) && IsPlain(s2[..i])
    ensures i <= k <= |s2| && IsPlain(s2[..k]) && (k < |s2| ==> s2[k] == 0 || s2[k] == 41)
    decreases |s2| - i
  {
    if i == |s2| || s2[i] == 0 || s2[i] == 41 {
      k := i;
    } else {
      assert s2[..i + 1] == s2[..i] + [s2[i]];
      k := PlainUpTo(s2, i + 1);
    }
  }

  /**
   * string.find searches plainly if strpbrk finds no special character. That
   * agrees with the matcher, for all subjects, if and only if the pattern has
   * neither a closing parenthesis nor a zero in it.
   */
  lemma PlainExactly(s2: seq<int>)
    requires IsText(s2) && !Special(s2, 0)
    ensures IsPlain(s2) <==> forall t, s: nat {:trigger SameAt(s2, t, s)} :: SameAt(s2, t, s)
    ensures IsPlain(s2) <==> 41 !in s2 && 0 !in s2
  {
    var k := PlainUpTo(s2, 0);
    if k == |s2| {
      assert s2[..k] == s2;
      forall t, s: nat ensures SameAt(s2, t, s) {
        if TextOk(t) && t.pat == s2 + [0] && s <= |t.src| {
          assert t.pat[..k] == s2 && t.pat[0..k] == s2;
          PlainWays(t, k, 0, s);
        }
      }
    } else {
      var t := PlainDiffers(s2, k);
      assert !SameAt(s2, t, 0);
    }
  }

  /** A subject on which they differ. */
  lemma PlainDiffers(s2: seq<int>, k: nat) returns (t: Text)
    requires IsText(s2) && k < |s2| && IsPlain(s2[..k]) && (s2[k] == 0 || s2[k] == 41)
    ensures !SameAt(s2, t, 0)
  {
    t := if s2[k] == 41 then Text(s2, s2 + [0]) else Text(s2[..k], s2 + [0]);
    assert t.pat[..k] == s2[..k] && t.pat[k] == s2[k];
    if s2[k] == 41 {
      CloseNever(t, k, 0, 0);
      assert s2[0..|s2|] == s2;
    } else {
      PlainWays(t, k, 0, 0);
      assert t.pat[0..k] == t.src && t.src[0..k] == t.src;
    }
  }

  /** A lone closing parenthesis: a plain search finds it, the matcher raises an error. */
  lemma CloseDiffers()
    ensures !Special([41], 0) && !IsPlain([41]) && OccursAt([41], [41], 0)
    ensures MatchAt(Text([41], [41, 0]), 0, 0).None? && !WellFormed(Items([41, 0], 0), [])
  {
    var t := Text([41], [41, 0]);
    CloseNever(t, 0, 0, 0);
    ItemsNext(t, 0, 0, []);
    assert ItemAt(t.pat, 0) == (Close, 1);
  }

  /** For a plain pattern both searches find the same. */
  lemma PlainFindsSame(t: Text, s2: seq<int>, init: nat, f: Found, r: Option<nat>)
    requires TextOk(t) && t.pat == s2 + [0] && IsPlain(s2) && init <= |t.src|
    requires PatternFound(t, init, f) && !f.Failed? && FirstOccurs(t.src[init..], s2, r)
    ensures f == if r.Some? then Here(init + r.value, init + r.value + |s2|, []) else Nowhere
  {
    if r.Some? {
      PlainAt(t, s2, init, init + r.value);
      if f.Here? {
        PlainAt(t, s2, init, f.start);
        assert !(f.start - init < r.value);
      }
    } else if f.Here? {
      PlainAt(t, s2, init, f.start);
    }
    assert t.pat[0] == if s2 == [] then 0 else s2[0];
  }

  /** What both searches see at s. */
  lemma PlainAt(t: Text, s2: seq<int>, init: nat, s: nat)
    requires TextOk(t) && t.pat == s2 + [0] && IsPlain(s2) && init <= s <= |t.src|
    ensures var e := End(s + |s2|, []);
            if OccursAt(t.src[init..], s2, s - init) then MatchAt(t, 0, s) == Some(e)
                && Derives(t, Items(t.pat, 0), s, [], e) else MatchAt(t, 0, s) == None
  {
    var z := |s2|;
    assert t.pat[..z] == s2 && t.pat[0..z] == s2;
    assert s + z <= |t.src| ==> t.src[init..][s - init..s - init + z] == t.src[s..s + z];
    PlainWays(t, z, 0, s);
    MatchAtDerives(t, 0, s);
  }

  // ---- string.find and string.match ----

  /** posrelat: negative positions count from the end. */
  function PosRelat(pos: int, len: nat): (r: nat) {
    if pos >= 0 then pos else if pos + len + 1 >= 0 then pos + len + 1 else 0
  }

  /** Where a search starts, counting from zero. */
  function SearchStart(pos: int, len: nat): (r: nat)
    ensures r <= len
    ensures 1 <= pos <= len + 1 ==> r == pos - 1
    ensures pos < 0 && pos + len >= 0 ==> r == pos + len
    ensures pos > len + 1 ==> r == len
    ensures pos == 0 || pos + len < 0 ==> r == 0
  {
    var init := PosRelat(pos, len) - 1;
    if init < 0 then 0 else if init > len then len else init
  }

  /** A result of a capture: its text, or its position. */
  datatype Pushed = Piece(s: seq<int>) | Index(k: int)
  datatype Answer = NotFound | FoundAt(start: nat, end: nat,
      values: seq<Pushed>) | Matched(values: seq<Pushed>) | Raised(error: Pattern.Error)

  predicate Finished(caps: seq<Capture>) {
    forall i :: 0 <= i < |caps| ==> caps[i].len != Unfinished
  }

  /** What a capture that is finished shows: the position, counted from one, or the text there. */
  predicate Shows(src: seq<int>, c: Capture, v: Pushed) {
    match c.len
    case Unfinished => false
    case Position => v == Index(c.init + 1)
    case Length(n) => v.Piece? && |v.s| == n && OccursAt(src, v.s, c.init)
  }

  /** All captures in order, or the text of the whole match if there are none and it is asked for. */
  ghost predicate AllShown(src: seq<int>, start: nat, end: nat, caps: seq<Capture>, find: bool, values: seq<Pushed>) {
    if caps == [] && !find then
      |values| == 1 && values[0].Piece? && start + |values[0].s| == end && OccursAt(src, values[0].s, start)
    else |values| == |caps| && forall i :: 0 <= i < |caps| ==> Shows(src, caps[i], values[i])
  }

  /** The answer for a match: positions count from one, and an open capture is an error. */
  ghost predicate Answers(src: seq<int>, f: Found, find: bool, a: Answer) {
    match f
    case Nowhere => a == NotFound
    case Failed(error) => a == Raised(error)
    case Here(start, end, caps) =>
      start <= end <= |src| &&
      if !Finished(caps) then a == Raised(UnfinishedCapture)
      else if find then
        a.FoundAt? && a.start == start + 1 && a.end == end && AllShown(src, start, end, caps, find, a.values)
      else a.Matched? && AllShown(src, start, end, caps, find, a.values)
  }

  /** Captures lie within the match. */
  lemma {:induction false} CapturesWithin(t: Text, items: seq<Item>, s: nat, caps: seq<Capture>, e: End)
    requires Derives(t, items, s, caps, e) && s <= |t.src| && Sensible(caps, s)
    ensures Sensible(e.caps, e.pos)
    decreases |items|
  {
    if items != [] {
      var m: nat, caps' :| m <= |t.src| && Takes(t, items[0], s, caps, m, caps') && Derives(t, items[1..], m, caps', e);
      assert Sensible(caps', m);
      CapturesWithin(t, items[1..], m, caps', e);
    }
  }

  /** push_captures */
  method PushCaptures(src: seq<int>, start: nat, end: nat, caps: seq<Capture>, find: bool)
                      returns (ok: bool, values: seq<Pushed>)
    requires start <= end <= |src| && Sensible(caps, end)
    ensures ok <==> Finished(caps)
    ensures ok ==> AllShown(src, start, end, caps, find, values)
  {
    values := [];
    if |caps| == 0 && !find {
      return true, [Piece(src[start..end])];
    }
    var i := 0;
    while i < |caps|
      invariant i == |values| <= |caps| && Finished(caps[..i])
      invariant forall k :: 0 <= k < i ==> Shows(src, caps[k], values[k])
    {
      var c := caps[i];
      if c.len == Unfinished {
        return false, [];
      }
      assert caps[..i + 1] == caps[..i] + [c];
      values := values + [if c.len == Position then Index(c.init + 1) else Piece(src[c.init..c.init + c.len.n])];
      i := i + 1;
    }
    assert caps[..i] == caps;
    ok := true;
  }

  /** What the matcher answers. */
  ghost predicate MatcherAnswers(t: Text, init: nat, find: bool, a: Answer)
    requires TextOk(t) && init <= |t.src|
  {
    exists f {:trigger PatternFound(t, init, f)} :: PatternFound(t, init, f) && Answers(t.src, f, find, a)
  }

  /** What a plain search from init on answers. */
  ghost predicate PlainAnswers(s: seq<int>, p: seq<int>, init: nat, a: Answer)
    requires init <= |s|
  {
    match a
    case NotFound => FirstOccurs(s[init..], p, None)
    case FoundAt(start, end, values) =>
      start > init && end == start - 1 + |p| && values == [] && FirstOccurs(s[init..], p, Some(start - 1 - init))
    case _ => false
  }

  /** str_find_aux: a plain search where that is asked for or the pattern looks plain, otherwise the matcher. */
  method StrFindAux(s: seq<int>, p: seq<int>, pos: int, plain: bool, find: bool) returns (a: Answer)
    requires IsText(s) && IsText(p)
    ensures find && (plain || !Special(p, 0)) ==> PlainAnswers(s, p, SearchStart(pos, |s|), a)
    ensures !(find && (plain || !Special(p, 0))) ==>
              MatcherAnswers(Text(s, p + [0]), SearchStart(pos, |s|), find, a)
  {
    var init := SearchStart(pos, |s|);
    var special := HasSpecial(p);
    if find && (plain || !special) {
      var r := MemFind(s[init..], p);
      a := if r.Some? then FoundAt(init + r.value + 1, init + r.value + |p|, []) else NotFound;
    } else {
      var f := FindPattern(Text(s, p + [0]), init);
      if f.Here? {
        CapturesWithin(Text(s, p + [0]), Items(p + [0], if p != [] && p[0] == 94 then 1 else 0), f.start, [],
            End(f.end, f.caps));
      }
      a := Reply(s, f, find);
    }
  }

  method Reply(s: seq<int>, f: Found, find: bool) returns (a: Answer)
    requires f.Here? ==> f.start <= f.end <= |s| && Sensible(f.caps, f.end)
    ensures Answers(s, f, find, a)
  {
    match f
    case Nowhere => a := NotFound;
    case Failed(error) => a := Raised(error);
    case Here(start, end, caps) =>
      var ok, values := PushCaptures(s, start, end, caps, find);
      a := if !ok then Raised(UnfinishedCapture) else if find then FoundAt(start + 1, end, values) else Matched(values);
  }

  // ---- Replacements ----

  /** What was replaced: a stretch, and what its captures were. */
  datatype Seg = Seg(start: nat, end: nat, caps: seq<Capture>)

  /** The text of a replacement, or none to keep the original. */
  type Repl = (nat, nat, seq<Capture>) -> Option<seq<int>>

  function Replaced(src: seq<int>, g: Seg, repl: Repl): seq<int>
    requires g.start <= g.end <= |src|
  {
    var r := repl(g.start, g.end, g.caps);
    if r.Some? then r.value else src[g.start..g.end]
  }

  /** Stretches come one after the other, none before lo or behind hi. */
  ghost predicate InOrder(segs: seq<Seg>, lo: nat, hi: nat)
    decreases |segs|
  {
    if segs == [] then lo <= hi
    else
      var g := segs[|segs| - 1];
      lo <= g.start <= g.end <= hi && InOrder(segs[..|segs| - 1], lo, g.start)
  }

  /** The subject up to hi with some stretches replaced. */
  ghost function Spliced(src: seq<int>, segs: seq<Seg>, repl: Repl, hi: nat): seq<int>
    requires InOrder(segs, 0, hi) && hi <= |src|
    decreases |segs|
  {
    if segs == [] then src[..hi]
    else
      var g := segs[|segs| - 1];
      Spliced(src, segs[..|segs| - 1], repl, g.start) + Replaced(src, g, repl) + src[g.end..hi]
  }

  /** Every stretch is the preferred match at its start. */
  ghost predicate AllMatches(t: Text, p: nat, segs: seq<Seg>)
    requires TextOk(t) && p < |t.pat|
  {
    forall i {:trigger segs[i]} ::
        0 <= i < |segs| ==>
          segs[i].start <= |t.src| && MatchAt(t, p, segs[i].start) == Some(End(segs[i].end, segs[i].caps))
  }

  /** A position is in a stretch, or starts one, or nothing matches there. */
  ghost predicate Covered(t: Text, p: nat, segs: seq<Seg>, s: nat)
    requires TextOk(t) && p < |t.pat|
  {
    s <= |t.src| ==>
        MatchAt(t, p, s).None? || exists i {:trigger segs[i]} ::
          0 <= i < |segs| && (segs[i].start == s || segs[i].start <= s < segs[i].end)
  }

  lemma CoveredMore(t: Text, p: nat, segs: seq<Seg>, g: Seg, s: nat)
    requires TextOk(t) && p < |t.pat| && Covered(t, p, segs, s)
    ensures Covered(t, p, segs + [g], s)
  {
    if s <= |t.src| && MatchAt(t, p, s).Some? {
      var i :| 0 <= i < |segs| && (segs[i].start == s || segs[i].start <= s < segs[i].end);
      assert (segs + [g])[i] == segs[i];
    }
  }

  lemma SplicedMore(src: seq<int>, segs: seq<Seg>, repl: Repl, hi: nat)
    requires InOrder(segs, 0, hi) && hi < |src|
    ensures InOrder(segs, 0, hi + 1) && Spliced(src, segs, repl, hi + 1) == Spliced(src, segs, repl, hi) + [src[hi]]
  {
    if segs == [] {
      assert src[..hi + 1] == src[..hi] + [src[hi]];
    } else {
      var g := segs[|segs| - 1];
      assert src[g.end..hi + 1] == src[g.end..hi] + [src[hi]];
    }
  }

  lemma SplicedRest(src: seq<int>, segs: seq<Seg>, repl: Repl, hi: nat)
    requires InOrder(segs, 0, hi) && hi <= |src|
    ensures InOrder(segs, 0, |src|) && Spliced(src, segs, repl, |src|) == Spliced(src, segs, repl, hi) + src[hi..]
  {
    if segs == [] {
      assert src[..|src|] == src[..hi] + src[hi..];
    } else {
      var g := segs[|segs| - 1];
      assert src[g.end..|src|] == src[g.end..hi] + src[hi..];
    }
  }

  /** Where the text behind stretch i ends. */
  function NextStart(segs: seq<Seg>, i: nat, hi: nat): nat {
    if i + 1 < |segs| then segs[i + 1].start else hi
  }

  lemma {:induction false} InOrderAt(segs: seq<Seg>, lo: nat, hi: nat, i: nat)
    requires InOrder(segs, lo, hi) && i < |segs|
    ensures InOrder(segs[..i], lo, segs[i].start) && segs[i].start <= segs[i].end <= NextStart(segs, i, hi) <= hi
    decreases |segs|
  {
    var n := |segs| - 1;
    if i < n {
      assert segs[..n][..i] == segs[..i];
      InOrderAt(segs[..n], lo, segs[n].start, i);
    }
  }

  /**
   * In the result every replacement stands behind what the text before it became, and is followed by the
   * text up to the next stretch.
   */
  lemma {:induction false} SplicedHas(src: seq<int>, segs: seq<Seg>, repl: Repl, hi: nat, i: nat, w: seq<int>)
    returns (rest: seq<int>)
    requires InOrder(segs, 0, hi) && hi <= |src| && i < |segs|
    requires repl(segs[i].start, segs[i].end, segs[i].caps) == Some(w)
    ensures InOrder(segs[..i], 0, segs[i].start) && segs[i].start <= segs[i].end <= NextStart(segs, i, hi) <= |src|
    ensures Spliced(src, segs, repl, hi)
         == Spliced(src, segs[..i], repl, segs[i].start) + w + src[segs[i].end..NextStart(segs, i, hi)] + rest
    ensures i + 1 == |segs| ==> rest == []
    decreases |segs|
  {
    InOrderAt(segs, 0, hi, i);
    var n := |segs| - 1;
    if i < n {
      var front, g := segs[..n], segs[n];
      assert front[..i] == segs[..i] && front[i] == segs[i] && NextStart(front, i, g.start) == NextStart(segs, i, hi);
      rest := SplicedHas(src, front, repl, g.start, i, w);
      rest := More(Spliced(src, segs[..i], repl, segs[i].start) + w + src[segs[i].end..NextStart(segs, i, hi)], rest,
          Replaced(src, g, repl), src[g.end..hi]);
    } else {
      rest := [];
    }
  }

  lemma More(a: seq<int>, b: seq<int>, c: seq<int>, d: seq<int>) returns (rest: seq<int>)
    ensures (a + b) + c + d == a + rest
  {
    rest := b + c + d;
  }

  /** Keeping all originals gives back the subject. */
  lemma {:induction false} KeptAll(src: seq<int>, segs: seq<Seg>, repl: Repl, hi: nat)
    requires InOrder(segs, 0, hi) && hi <= |src| && forall i {:trigger segs[i]} ::
               0 <= i < |segs| ==> repl(segs[i].start, segs[i].end, segs[i].caps) == None
    ensures Spliced(src, segs, repl, hi) == src[..hi]
    decreases |segs|
  {
    if segs != [] {
      var front, g := segs[..|segs| - 1], segs[|segs| - 1];
      assert forall i {:trigger front[i]} :: 0 <= i < |front| ==> front[i] == segs[i];
      KeptAll(src, front, repl, g.start);
      assert src[..g.start] + src[g.start..g.end] + src[g.end..hi] == src[..hi];
    }
  }

  /** The subject up to src has been dealt with: nothing that matches there was missed. */
  ghost predicate Good(t: Text, p: nat, segs: seq<Seg>, repl: Repl, src: nat, out: seq<int>)
    requires TextOk(t) && p < |t.pat|
  {
    src <= |t.src| && AllMatches(t, p, segs) && InOrder(segs, 0, src) && out == Spliced(t.src, segs, repl, src)
  }

  ghost predicate CoveredTo(t: Text, p: nat, segs: seq<Seg>, hi: nat)
    requires TextOk(t) && p < |t.pat|
  {
    forall s: nat {:trigger Covered(t, p, segs, s)} :: s < hi ==> Covered(t, p, segs, s)
  }

  /** The subject up to src has been dealt with, and nothing that matches before hi was missed. */
  ghost predicate Through(t: Text, p: nat, segs: seq<Seg>, repl: Repl, src: nat, out: seq<int>, hi: nat)
    requires TextOk(t) && p < |t.pat|
  {
    Good(t, p, segs, repl, src, out) && CoveredTo(t, p, segs, hi)
  }

  /** A match is replaced. */
  lemma Hit(t: Text, p: nat, segs: seq<Seg>, repl: Repl, src: nat, out: seq<int>, e: End)
    requires TextOk(t) && p < |t.pat| && Through(t, p, segs, repl, src, out, src) && MatchAt(t, p, src) == Some(e)
    ensures var g := Seg(src, e.pos, e.caps);
            && src <= e.pos <= |t.src|
            && Through(t, p, segs + [g], repl, e.pos, out + Replaced(t.src, g, repl), if e.pos > src then e.pos
                else src + 1)
  {
    var g := Seg(src, e.pos, e.caps);
    MatchAtDerives(t, p, src);
    MatchWithin(t, Items(t.pat, p), src, [], e);
    HitCovers(t, p, segs, g, if e.pos > src then e.pos else src + 1);
    HitGood(t, p, segs, repl, src, out, g);
  }

  lemma HitCovers(t: Text, p: nat, segs: seq<Seg>, g: Seg, hi: nat)
    requires TextOk(t) && p < |t.pat| && CoveredTo(t, p, segs, g.start) && g.start < hi
               && hi <= (if g.end > g.start then g.end else g.start + 1)
    ensures CoveredTo(t, p, segs + [g], hi)
  {
    forall s: nat | s < hi ensures Covered(t, p, segs + [g], s) {
      if s < g.start {
        CoveredMore(t, p, segs, g, s);
      } else {
        assert (segs + [g])[|segs|] == g;
      }
    }
  }

  lemma HitGood(t: Text, p: nat, segs: seq<Seg>, repl: Repl, src: nat, out: seq<int>, g: Seg)
    requires TextOk(t) && p < |t.pat| && Good(t, p, segs, repl, src, out) && g.start == src <= g.end <= |t.src|
    requires MatchAt(t, p, src) == Some(End(g.end, g.caps))
    ensures Good(t, p, segs + [g], repl, g.end, out + Replaced(t.src, g, repl))
  {
    var segs' := segs + [g];
    assert segs'[..|segs|] == segs && segs'[|segs|] == g;
    assert t.src[g.end..g.end] == [];
    forall i {:trigger segs'[i]} | 0 <= i < |segs'|
      ensures segs'[i].start <= |t.src| && MatchAt(t, p, segs'[i].start) == Some(End(segs'[i].end, segs'[i].caps))
    {
      if i < |segs| { assert segs'[i] == segs[i]; }
    }
  }

  /** A character is copied. */
  lemma Copied(t: Text, p: nat, segs: seq<Seg>, repl: Repl, src: nat, out: seq<int>)
    requires TextOk(t) && p < |t.pat| && Good(t, p, segs, repl, src, out) && src < |t.src|
    ensures Good(t, p, segs, repl, src + 1, out + [t.src[src]])
  {
    SplicedMore(t.src, segs, repl, src);
  }

  lemma Missed(t: Text, p: nat, segs: seq<Seg>, src: nat)
    requires TextOk(t) && p < |t.pat| && src <= |t.src| && CoveredTo(t, p, segs, src) && MatchAt(t, p, src).None?
    ensures CoveredTo(t, p, segs, src + 1)
  {
  }

  /** What a step adds to the segments. */
  ghost predicate OneHit(segs0: seq<Seg>, segs: seq<Seg>, hit: bool, src0: nat) {
    if hit then segs != [] && segs[..|segs| - 1] == segs0 && segs[|segs| - 1].start == src0 else segs == segs0
  }

  /** One step of a replacement: a match, or a character that is copied; the end of the subject ends it. */
  method GsubStep(ms: MatchState, p: nat, src0: nat, out0: seq<int>, ghost segs0: seq<Seg>, repl: Repl)
    returns (f: Option<Pattern.Error>, src: nat, out: seq<int>, hit: bool, more: bool, ghost segs: seq<Seg>)
    requires ms.Valid() && p < |ms.t.pat| && Through(ms.t, p, segs0, repl, src0, out0, src0)
    modifies ms, ms.capture
    ensures ms.Valid()
    ensures f.None? ==> Through(ms.t, p, segs, repl, src, out, if more then src else src + 1)
    ensures f.None? ==> OneHit(segs0, segs, hit, src0) && if more then src0 < src else src0 == src == |ms.t.src|
    ensures f.Some? ==> MayRaise(ms.t, p, f.value)
  {
    f, src, out, hit, more, segs := None, src0, out0, false, true, segs0;
    var o := TryAt(ms, p, src);
    if o.Raises? {
      return Some(o.error), src, out, hit, more, segs;
    }
    if o.Ends? {
      hit := true;
      Hit(ms.t, p, segs, repl, src, out, End(o.pos, ms.Caps()));
      var r := repl(src, o.pos, ms.capture[..ms.level]);
      out := out + if r.Some? then r.value else ms.t.src[src..o.pos];
      segs := segs + [Seg(src, o.pos, ms.Caps())];
    } else {
      Missed(ms.t, p, segs, src);
    }
    src, out, more := Advance(ms.t, p, src, out, segs, repl, if o.Ends? then o.pos else src);
  }

  /** Behind a match, or past a character. */
  method Advance(t: Text, p: nat, src0: nat, out0: seq<int>, ghost segs: seq<Seg>, repl: Repl, e: nat)
                 returns (src: nat, out: seq<int>, more: bool)
    requires TextOk(t) && p < |t.pat| && src0 <= e
               && Through(t, p, segs, repl, e, out0, if e > src0 then e else src0 + 1)
    ensures Through(t, p, segs, repl, src, out, if more then src else src + 1) && if more then src0 < src
              else src0 == src == |t.src|
  {
    src, out, more := src0, out0, true;
    if e > src {
      src := e;
    } else if src < |t.src| {
      Copied(t, p, segs, repl, src, out);
      out := out + [t.src[src]];
      src := src + 1;
    } else {
      more := false;
    }
  }

  /** Where the last stretch that was replaced ends; the place where it starts counts, too. */
  ghost function LastEnd(segs: seq<Seg>): nat {
    if segs == [] then 0
    else
      var g := segs[|segs| - 1];
      if g.end > g.start then g.end else g.start + 1
  }

  /** What was replaced so far: nothing was missed up to src, nor up to the last stretch. */
  ghost predicate Going(t: Text, p: nat, segs: seq<Seg>, repl: Repl, src: nat, out: seq<int>, n: nat, anchor: bool,
                        go: bool)
    requires TextOk(t) && p < |t.pat|
  {
    && Good(t, p, segs, repl, src, out) && CoveredTo(t, p, segs, src) && CoveredTo(t, p, segs, LastEnd(segs))
        && n == |segs|
    && (!go ==> CoveredTo(t, p, segs, if anchor then 1 else |t.src| + 1))
    && (anchor ==> n <= 1 && (n == 1 ==> segs[0].start == 0) && (go ==> src == 0 && n == 0))
  }

  lemma GoesOn(t: Text, p: nat, segs0: seq<Seg>, segs: seq<Seg>, repl: Repl, src0: nat, src: nat, out: seq<int>,
               hit: bool, more: bool, anchor: bool)
    requires TextOk(t) && p < |t.pat| && Through(t, p, segs, repl, src, out, if more then src else src + 1)
               && OneHit(segs0, segs, hit, src0)
    requires CoveredTo(t, p, segs0, LastEnd(segs0)) && (anchor ==> segs0 == [] && src0 == 0) && if more then src0 < src
               else src0 == src == |t.src|
    ensures Going(t, p, segs, repl, src, out, |segs|, anchor, more && !anchor)
  {
    if hit { assert LastEnd(segs) <= if more then src else src + 1; }
  }

  /** The stretches that string.gsub replaces, and what comes out of it. */
  ghost predicate Gsubbed(t: Text, max: int, repl: Repl, out: seq<int>, n: nat, segs: seq<Seg>)
    requires TextOk(t)
  {
    var anchor := t.pat[0] == 94;
    var p := if anchor then 1 else 0;
    && n == |segs| && (max >= 0 ==> n <= max) && AllMatches(t, p, segs) && InOrder(segs, 0, |t.src|)
    && out == Spliced(t.src, segs, repl, |t.src|) && CoveredTo(t, p, segs, LastEnd(segs))
    && (anchor ==> n <= 1 && (n == 1 ==> segs[0].start == 0))
    && (n < max ==> CoveredTo(t, p, segs, if anchor then 1 else |t.src| + 1))
  }

  /**
   * string.gsub: the matches are replaced from left to right, none of them
   * overlapping, at most max of them; no match is passed over.
   */
  method Gsub(t: Text, max: int, repl: Repl) returns (f: Option<Pattern.Error>, out: seq<int>, n: nat)
    requires TextOk(t)
    ensures f.Some? ==> MayRaise(t, if t.pat[0] == 94 then 1 else 0, f.value)
    ensures f.None? ==> exists segs {:trigger Gsubbed(t, max, repl, out, n, segs)} :: Gsubbed(t, max, repl, out, n, segs)
  {
    var anchor := t.pat[0] == 94;
    var p := if anchor then 1 else 0;
    var ms := new MatchState(t);
    var src: nat := 0;
    ghost var segs: seq<Seg> := [];
    f, out, n := None, [], 0;
    assert t.src[..0] == [];
    var go := true;
    while n < max && go
      invariant f.None? && ms.Valid() && ms.t == t && fresh(ms) && fresh(ms.capture)
      invariant Going(t, p, segs, repl, src, out, n, anchor, go) && (max >= 0 ==> n <= max)
      decreases |t.src| - src, go
    {
      var hit;
      ghost var segs0, src0 := segs, src;
      f, src, out, hit, go, segs := GsubStep(ms, p, src, out, segs, repl);
      if f.Some? {
        return;
      }
      GoesOn(t, p, segs0, segs, repl, src0, src, out, hit, go, anchor);
      if hit {
        n := n + 1;
      }
      if anchor {
        go := false;
      }
    }
    SplicedRest(t.src, segs, repl, src);
    out := out + t.src[src..];
    assert Gsubbed(t, max, repl, out, n, segs);
  }
}
