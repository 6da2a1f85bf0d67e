/**
 * The pattern matcher (lib_string.c): backtracking over captures that are
 * changed in place and restored when a match fails.
 */
module Matcher {
  import opened Pattern
  import opened PatternText
  import opened PatternChoice

  /** NULL, the end of the match, or the error that is raised. */
  datatype Outcome = NoMatch | Ends(pos: nat) | Raises(error: Pattern.Error)

  function FirstOf(ws: seq<End>): Option<End> {
    if ws == [] then None else Some(ws[0])
  }

  /** The outcome is the preferred way to match; without one, the captures are as before. */
  ghost predicate Agrees(o: Outcome, way: Option<End>, before: seq<Capture>, now: seq<Capture>) {
    match o
    case NoMatch => way == None && now == before
    case Ends(pos) => way == Some(End(pos, now))
    case Raises(_) => true
  }

  // ---- Patterns that raise no errors ----

  function Opens(caps: seq<Capture>): (o: seq<bool>)
    ensures |o| == |caps| && forall i :: 0 <= i < |caps| ==> o[i] == caps[i].len.Unfinished?
  {
    seq(|caps|, i requires 0 <= i < |caps| => caps[i].len.Unfinished?)
  }

  function LastOpen(open: seq<bool>): (l: Option<nat>)
    ensures l.Some? ==> l.value < |open| && open[l.value] && forall i :: l.value < i < |open| ==> !open[i]
    ensures l.None? ==> forall i :: 0 <= i < |open| ==> !open[i]
  {
    if open == [] then None else if open[|open| - 1] then Some(|open| - 1) else LastOpen(open[..|open| - 1])
  }

  /**
   * All items are well formed, and parentheses and references to captures make sense, given which
   * captures are open.
   */
  predicate WellFormed(items: seq<Item>, open: seq<bool>)
    decreases |items|
  {
    items == [] ||
    match items[0]
    case Open(position) => |open| < MAXCAPTURES && WellFormed(items[1..], open + [!position])
    case Close => LastOpen(open).Some? && WellFormed(items[1..], open[LastOpen(open).value := false])
    case Back(d) => 49 <= d && d - 49 < |open| && !open[d - 49] && WellFormed(items[1..], open)
    case Bad(_) => false
    case _ => WellFormed(items[1..], open)
  }

  /** The matcher calls itself for parentheses and for repetitions. */
  predicate CallsItself(it: Item) {
    it.Open? || it.Close? || it.Optional? || it.Star? || it.Plus? || it.Minus?
  }

  function Calls(items: seq<Item>): nat {
    if items == [] then 0 else (if CallsItself(items[0]) then 1 else 0) + Calls(items[1..])
  }

  /** A well-formed pattern is only too complex, and that only if it has that many parentheses and repetitions. */
  ghost predicate RaisesOnly(o: Outcome, t: Text, p: nat, open: seq<bool>, depth: nat)
    requires TextOk(t) && p < |t.pat|
  {
    o.Raises? && WellFormed(Items(t.pat, p), open) ==>
      o.error == TooComplex && depth + 1 + Calls(Items(t.pat, p)) > MAX_XLEVEL
  }

  /** Captures lie before s. */
  ghost predicate Sensible(caps: seq<Capture>, s: nat) {
    forall i {:trigger caps[i]} ::
        0 <= i < |caps| ==> caps[i].init <= s && (caps[i].len.Length? ==> caps[i].init + caps[i].len.n <= s)
  }

  /** The items of a pattern are the one at p and those behind it. */
  lemma ItemsNext(t: Text, p: nat, s: nat, caps: seq<Capture>)
    requires TextOk(t) && p < |t.pat| && t.pat[p] != 0 && s <= |t.src|
    ensures var (it, q) := ItemAt(t.pat, p);
            if it.Bad? then Items(t.pat, p) == [it] && Ways(t, Items(t.pat, p), s, caps) == []
            else && Items(t.pat, p) == [it] + Items(t.pat, q) && Items(t.pat, p)[1..] == Items(t.pat, q)
                 && Ways(t, Items(t.pat, p), s, caps) == FirstWays(t, it, Items(t.pat, q), s, caps)
                 && Calls(Items(t.pat, p)) == Calls(Items(t.pat, q)) + if CallsItself(it) then 1 else 0
  {
  }

  /** The preferred way with no more than i characters. */
  ghost function LongestFirst(t: Text, rest: seq<Item>, s: nat, i: int, caps: seq<Capture>): Option<End>
    requires s + i <= |t.src|
  {
    if i < 0 then None else FirstOf(Longest(t, rest, s, i, caps))
  }

  lemma LongestNext(t: Text, rest: seq<Item>, s: nat, i: nat, caps: seq<Capture>)
    requires s + i <= |t.src|
    ensures LongestFirst(t, rest, s, i, caps) ==
            if Ways(t, rest, s + i, caps) == [] then LongestFirst(t, rest, s, i - 1, caps)
                else FirstOf(Ways(t, rest, s + i, caps))
  {
  }

  /** The first way with as few characters as possible: none, or one and then as few as possible. */
  lemma ShortestNext(t: Text, rest: seq<Item>, s: nat, p: nat, ep: nat, caps: seq<Capture>)
    requires s <= |t.src|
    ensures FirstOf(Shortest(t, rest, s, Run(t, s, p, ep), caps)) ==
            if Ways(t, rest, s, caps) != [] then FirstOf(Ways(t, rest, s, caps))
            else if Fits(t, s, p, ep) then FirstOf(Shortest(t, rest, s + 1, Run(t, s + 1, p, ep), caps))
            else None
  {
  }

  /** What the matcher does with a class and the character behind it. */
  ghost function ClassWay(t: Text, p: nat, s: nat, ep: nat, caps: seq<Capture>): Option<End>
    requires TextOk(t) && p < ep < |t.pat| && s <= |t.src| && (t.pat[ep] == 0 || ep + 1 < |t.pat|)
  {
    var c, m := t.pat[ep], Fits(t, s, p, ep);
    if c == 63 then
      var first := if m then FirstOf(Ways(t, Items(t.pat, ep + 1), s + 1, caps)) else None;
      if first.Some? then first else FirstOf(Ways(t, Items(t.pat, ep + 1), s, caps))
    else if c == 42 then FirstOf(Longest(t, Items(t.pat, ep + 1), s, Run(t, s, p, ep), caps))
    else if c == 43 then if m then FirstOf(Longest(t, Items(t.pat, ep + 1), s + 1, Run(t, s + 1, p, ep), caps))
        else None
    else if c == 45 then FirstOf(Shortest(t, Items(t.pat, ep + 1), s, Run(t, s, p, ep), caps))
    else if m then FirstOf(Ways(t, Items(t.pat, ep), s + 1, caps))
    else None
  }

  predicate IsClass(pat: seq<int>, p: nat)
    requires p < |pat| && pat[|pat| - 1] == 0
  {
    && pat[p] != 0 && pat[p] != 40 && pat[p] != 41
    && !(pat[p] == L_ESC && (pat[p + 1] == 98 || pat[p + 1] == 102 || IsDigit(pat[p + 1])))
    && !(pat[p] == 36 && pat[p + 1] == 0)
  }

  /** Where the pattern goes on behind a class. */
  function BehindClass(pat: seq<int>, ep: nat): nat
    requires ep < |pat|
  {
    if pat[ep] == 63 || pat[ep] == 42 || pat[ep] == 43 || pat[ep] == 45 then ep + 1 else ep
  }

  lemma ClassWays(t: Text, p: nat, s: nat, ep: nat, caps: seq<Capture>, open: seq<bool>)
    requires TextOk(t) && p < |t.pat| && s <= |t.src| && IsClass(t.pat, p) && ClassEnd(t.pat, p) == Some(ep)
    ensures t.pat[ep] == 0 || ep + 1 < |t.pat|
    ensures FirstOf(Ways(t, Items(t.pat, p), s, caps)) == ClassWay(t, p, s, ep, caps)
    ensures WellFormed(Items(t.pat, p), open) ==> WellFormed(Items(t.pat, BehindClass(t.pat, ep)), open)
    ensures var q := BehindClass(t.pat, ep);
            Calls(Items(t.pat, p)) == Calls(Items(t.pat, q)) + if q > ep then 1 else 0
  {
    var (it, q) := Quantified(t.pat, p);
    assert ItemAt(t.pat, p) == (it, q) && !it.Bad? && q == BehindClass(t.pat, ep);
    ItemsNext(t, p, s, caps);
    ClassFirst(t, p, s, ep, caps, it, q);
  }

  lemma ClassFirst(t: Text, p: nat, s: nat, ep: nat, caps: seq<Capture>, it: Item, q: nat)
    requires TextOk(t) && p < |t.pat| && s <= |t.src| && t.pat[p] != 0 && ClassEnd(t.pat, p) == Some(ep)
               && Quantified(t.pat, p) == (it, q)
    requires (t.pat[ep] == 0 || ep + 1 < |t.pat|) && q < |t.pat|
    ensures FirstOf(FirstWays(t, it, Items(t.pat, q), s, caps)) == ClassWay(t, p, s, ep, caps)
  {
  }

  lemma NoClass(t: Text, p: nat, open: seq<bool>)
    requires TextOk(t) && p < |t.pat| && IsClass(t.pat, p) && ClassEnd(t.pat, p).None?
    ensures !WellFormed(Items(t.pat, p), open)
  {
    assert ItemAt(t.pat, p) == Quantified(t.pat, p);
  }

  /** Whatever elements the text stands for, the answer is whether one of them has the character. */
  ghost predicate FindsElems(pat: seq<int>, c: int, p: nat, ec: nat, b: bool) {
    forall neg, elems {:trigger SetText(neg, elems)} ::
      SetOk(neg, elems) && Reads(pat, p, SetText(neg, elems)) && p + |SetText(neg, elems)| == ec + 1 ==>
        (b <==> SetHas(neg, elems, c))
  }

  lemma FindsAll(pat: seq<int>, c: int, p: nat, ec: nat)
    requires p < ec < |pat| && pat[|pat| - 1] == 0
    ensures FindsElems(pat, c, p, ec, InSet(pat, c, p, ec))
  {
    forall neg, elems | SetOk(neg, elems) && Reads(pat, p, SetText(neg, elems)) && p + |SetText(neg, elems)| == ec + 1
      ensures InSet(pat, c, p, ec) <==> SetHas(neg, elems, c)
    {
      SetRead(pat, p, neg, elems);
    }
  }

  /** The outcome is the preferred match of the parts, or there is none. */
  ghost predicate OutcomeOf(src: seq<int>, parts: seq<Part>, s: nat, caps: seq<Capture>, o: Outcome,
                            caps': seq<Capture>) {
    match o
    case Ends(pos) =>
      PartsChosen(src, parts, s, caps, End(pos, caps')) && PartsMatch(src, parts, s, caps, End(pos, caps'))
    case NoMatch => forall e {:trigger PartsMatch(src, parts, s, caps, e)} :: !PartsMatch(src, parts, s, caps, e)
    case Raises(_) => true
  }

  /** Whatever pattern the text stands for. */
  ghost predicate MeansParts(t: Text, p: nat, s: nat, caps: seq<Capture>, o: Outcome, caps': seq<Capture>) {
    forall parts {:trigger Stands(t.pat, p, parts)} :: Stands(t.pat, p, parts) && PartsOk(parts) ==>
      OutcomeOf(t.src, parts, s, caps, o, caps')
  }

  lemma OutcomeMeans(t: Text, p: nat, s: nat, caps: seq<Capture>, o: Outcome, caps': seq<Capture>)
    requires TextOk(t) && p < |t.pat| && s <= |t.src|
    requires Agrees(o, FirstOf(Ways(t, Items(t.pat, p), s, caps)), caps, caps')
    ensures MeansParts(t, p, s, caps, o, caps')
  {
    forall parts | Stands(t.pat, p, parts) && PartsOk(parts)
      ensures OutcomeOf(t.src, parts, s, caps, o, caps')
    {
      forall e
        ensures e in Ways(t, Items(t.pat, p), s, caps) <==> PartsMatch(t.src, parts, s, caps, e)
        ensures First(t, Items(t.pat, p), s, caps, e) <==> PartsChosen(t.src, parts, s, caps, e)
      {
        PatternMeans(t, p, parts, s, caps, e);
      }
    }
  }

  class MatchState {
    const t: Text
    var level: nat
    var depth: nat
    const capture: array<Capture>

    ghost predicate Valid()
      reads this
    {
      TextOk(t) && capture.Length == MAXCAPTURES && level <= MAXCAPTURES
    }

    ghost function Caps(): seq<Capture>
      requires Valid()
      reads this, capture
    {
      capture[..level]
    }

    constructor (t: Text)
      requires TextOk(t)
      ensures Valid() && this.t == t && level == 0 && depth == 0 && fresh(capture)
    {
      this.t, level, depth := t, 0, 0;
      capture := new Capture[MAXCAPTURES](i => Capture(0, Unfinished));
    }

    // ---- Classes ----

    /** classend */
    method FindClassEnd(p0: nat) returns (ok: bool, ep: nat)
      requires Valid() && p0 < |t.pat| && t.pat[p0] != 0
      ensures ok <==> ClassEnd(t.pat, p0).Some?
      ensures ok ==> ClassEnd(t.pat, p0) == Some(ep)
    {
      var p := p0 + 1;
      if t.pat[p0] == L_ESC {
        return t.pat[p] != 0, p + 1;
      } else if t.pat[p0] == 91 {
        if t.pat[p] == 94 {
          p := p + 1;
        }
        ghost var goal := SetEnd(t.pat, p);
        while true
          invariant p < |t.pat| && SetEnd(t.pat, p) == goal
          decreases |t.pat| - p
        {
          if t.pat[p] == 0 {
            return false, p;
          }
          p := p + 1;
          if t.pat[p - 1] == L_ESC && t.pat[p] != 0 {
            p := p + 1;
          }
          if t.pat[p] == 93 {
            break;
          }
        }
        return true, p + 1;
      }
      return true, p;
    }

    /** matchbracketclass */
    method MatchBracketClass(c: int, p0: nat, ec: nat) returns (b: bool)
      requires Valid() && p0 < ec < |t.pat|
      ensures b == InSet(t.pat, c, p0, ec) && FindsElems(t.pat, c, p0, ec, b)
    {
      FindsAll(t.pat, c, p0, ec);
      var sig := true;
      var p := p0;
      if t.pat[p + 1] == 94 {
        sig := false;
        p := p + 1;
      }
      ghost var goal := InElements(t.pat, c, p + 1, ec);
      p := p + 1;
      while p < ec
        invariant InElements(t.pat, c, p, ec) == goal
        decreases |t.pat| - p
      {
        if t.pat[p] == L_ESC {
          p := p + 1;
          if MatchClass(c, t.pat[p]) {
            return sig;
          }
        } else if t.pat[p + 1] == 45 && p + 2 < ec {
          p := p + 2;
          if t.pat[p - 2] <= c <= t.pat[p] {
            return sig;
          }
        } else if t.pat[p] == c {
          return sig;
        }
        p := p + 1;
      }
      return !sig;
    }

    /** singlematch, where there is a character left. */
    method SingleMatch(s: nat, p: nat, ep: nat) returns (b: bool)
      requires Valid() && p < ep < |t.pat| && (t.pat[p] == 91 ==> p + 1 < ep)
      ensures b == Fits(t, s, p, ep)
    {
      if s >= |t.src| {
        return false;
      }
      var c := t.src[s];
      if t.pat[p] == 46 {
        b := true;
      } else if t.pat[p] == L_ESC {
        b := MatchClass(c, t.pat[p + 1]);
      } else if t.pat[p] == 91 {
        b := MatchBracketClass(c, p, ep - 1);
      } else {
        b := t.pat[p] == c;
      }
    }

    /** matchbalance, behind the check of its arguments. */
    method MatchBalance(s0: nat, b: int, e: int) returns (r: Option<nat>)
      requires Valid() && s0 <= |t.src| && b != 0
      ensures r == BalanceEnd(t, s0, b, e)
    {
      if At(t, s0) != b {
        return None;
      }
      var s, cont := s0 + 1, 1;
      while s < |t.src|
        invariant s <= |t.src| && cont >= 1 && Balanced(t, s, b, e, cont) == BalanceEnd(t, s0, b, e)
      {
        if t.src[s] == e {
          cont := cont - 1;
          if cont == 0 {
            return Some(s + 1);
          }
        } else if t.src[s] == b {
          cont := cont + 1;
        }
        s := s + 1;
      }
      return None;
    }

    // ---- Captures ----

    /** capture_to_close */
    method CaptureToClose() returns (l: Option<nat>)
      requires Valid()
      ensures l == ToClose(Caps())
    {
      var i: nat := level;
      assert Caps()[..i] == Caps();
      while i > 0
        invariant i <= level && ToClose(Caps()[..i]) == ToClose(Caps())
      {
        i := i - 1;
        assert Caps()[..i + 1][..i] == Caps()[..i];
        if capture[i].len == Unfinished {
          return Some(i);
        }
      }
      return None;
    }

    /** match_capture: the text of an earlier capture is repeated; None stands for the error. */
    method MatchCapture(s: nat, d: int) returns (ok: bool, r: Option<nat>)
      requires Valid() && s <= |t.src| && Sensible(Caps(), s)
      ensures ok <==> BackOk(Caps(), d)
      ensures ok ==> r == BackEnd(t, s, Caps(), d)
    {
      var l := d - 49;
      if l < 0 || l >= level || capture[l].len == Unfinished {
        return false, None;
      }
      assert Caps()[l] == capture[l];
      var cap := capture[l];
      if cap.len.Length? && |t.src| - s >= cap.len.n
          && t.src[cap.init..cap.init + cap.len.n] == t.src[s..s + cap.len.n] {
        return true, Some(s + cap.len.n);
      }
      return true, None;
    }

    // ---- The matcher ----

    /** What a call of the matcher promises. */
    ghost predicate Did(o: Outcome, way: Option<End>, before: seq<Capture>, depth0: nat)
      requires Valid()
      reads this, capture
    {
      Agrees(o, way, before, Caps()) && (!o.Raises? ==> depth == depth0)
    }

    /** match */
    method Match(s0: nat, p0: nat) returns (o: Outcome)
      requires Valid() && s0 <= |t.src| && p0 < |t.pat| && Sensible(Caps(), s0)
      modifies this`level, this`depth, capture
      ensures Valid() && Did(o, FirstOf(Ways(t, Items(t.pat, p0), s0, old(Caps()))), old(Caps()), old(depth))
      ensures RaisesOnly(o, t, p0, Opens(old(Caps())), old(depth))
      ensures MeansParts(t, p0, s0, old(Caps()), o, Caps())
      decreases |t.pat| - p0, 0
    {
      ghost var caps0, way := Caps(), FirstOf(Ways(t, Items(t.pat, p0), s0, Caps()));
      ghost var open, depth0 := Opens(caps0), depth;
      depth := depth + 1;
      if depth > MAX_XLEVEL {
        return Raises(TooComplex);
      }
      var s, p := s0, p0;
      while true
        invariant Valid() && s0 <= s <= |t.src| && p0 <= p < |t.pat| && depth == depth0 + 1 && Caps() == caps0
        invariant FirstOf(Ways(t, Items(t.pat, p), s, caps0)) == way
        invariant WellFormed(Items(t.pat, p0), open) ==>
                    WellFormed(Items(t.pat, p), open) && Calls(Items(t.pat, p)) <= Calls(Items(t.pat, p0))
        decreases |t.pat| - p
      {
        var done;
        done, o, s, p := Item(s, p);
        if done {
          break;
        }
      }
      if !o.Raises? {
        depth := depth - 1;
      }
      OutcomeMeans(t, p0, s0, caps0, o, Caps());
    }

    /** One item: either the outcome is known, or the match goes on behind the item. */
    method Item(s: nat, p: nat) returns (done: bool, o: Outcome, s': nat, p': nat)
      requires Valid() && s <= |t.src| && p < |t.pat| && Sensible(Caps(), s)
      modifies this`level, this`depth, capture
      ensures Valid()
      ensures done ==> Did(o, FirstOf(Ways(t, Items(t.pat, p), s, old(Caps()))), old(Caps()), old(depth))
      ensures done && o.Raises? && WellFormed(Items(t.pat, p), Opens(old(Caps()))) ==>
                o.error == TooComplex && old(depth) + Calls(Items(t.pat, p)) > MAX_XLEVEL
      ensures !done ==> p < p' < |t.pat| && s <= s' <= |t.src| && Caps() == old(Caps()) && depth == old(depth)
      ensures !done ==> FirstOf(Ways(t, Items(t.pat, p'), s', old(Caps()))) == FirstOf(Ways(t, Items(t.pat, p), s,
                old(Caps())))
      ensures !done && WellFormed(Items(t.pat, p), Opens(old(Caps()))) ==>
                WellFormed(Items(t.pat, p'), Opens(old(Caps()))) && Calls(Items(t.pat, p')) <= Calls(Items(t.pat, p))
      decreases |t.pat| - p - 1, 9
    {
      if t.pat[p] == 0 {
        return true, Ends(s), s, p;
      }
      ItemsNext(t, p, s, Caps());
      if t.pat[p] == 40 {
        if t.pat[p + 1] == 41 {
          o := StartCapture(s, p + 2, Position);
        } else {
          o := StartCapture(s, p + 1, Unfinished);
        }
        return true, o, s, p;
      } else if t.pat[p] == 41 {
        o := EndCapture(s, p + 1);
        return true, o, s, p;
      } else if t.pat[p] == L_ESC && (t.pat[p + 1] == 98 || t.pat[p + 1] == 102 || IsDigit(t.pat[p + 1])) {
        done, o, s', p' := Escape(s, p);
      } else if t.pat[p] == 36 && t.pat[p + 1] == 0 {
        ItemsNext(t, p, s, Caps());
        return true, if s != |t.src| then NoMatch else Ends(s), s, p;
      } else {
        done, o, s', p' := Class(s, p);
      }
    }

    /** start_capture */
    method StartCapture(s: nat, p: nat, what: Extent) returns (o: Outcome)
      requires Valid() && s <= |t.src| && p < |t.pat| && Sensible(Caps(), s) && !what.Length?
      modifies this`level, this`depth, capture
      ensures Valid() && Did(o, FirstOf(FirstWays(t, Open(what.Position?), Items(t.pat, p), s, old(Caps()))),
                old(Caps()), old(depth))
      ensures old(|Caps()|) < MAXCAPTURES ==> RaisesOnly(o, t, p, Opens(old(Caps())) + [!what.Position?], old(depth))
      decreases |t.pat| - p, 1
    {
      if level >= MAXCAPTURES {
        return Raises(TooManyCaptures);
      }
      ghost var caps0 := Caps();
      capture[level] := Capture(s, what);
      level := level + 1;
      assert Caps() == Opened(caps0, what.Position?, s);
      assert Opens(Caps()) == Opens(caps0) + [!what.Position?];
      o := Match(s, p);
      if o.NoMatch? {
        assert Caps()[..|caps0|] == caps0;
        level := level - 1;
      }
    }

    /** end_capture */
    method EndCapture(s: nat, p: nat) returns (o: Outcome)
      requires Valid() && s <= |t.src| && p < |t.pat| && Sensible(Caps(), s)
      modifies this`level, this`depth, capture
      ensures Valid() && Did(o, FirstOf(FirstWays(t, Close, Items(t.pat, p), s, old(Caps()))), old(Caps()), old(depth))
      ensures var l := LastOpen(Opens(old(Caps()))); l.Some? ==>
                RaisesOnly(o, t, p, Opens(old(Caps()))[l.value := false], old(depth))
      decreases |t.pat| - p, 1
    {
      ghost var caps0 := Caps();
      var l := CaptureToClose();
      if l.None? {
        return Raises(InvalidClose);
      }
      var i := l.value;
      assert caps0[i] == capture[i];
      capture[i] := capture[i].(len := Length(s - capture[i].init));
      assert Caps() == Closed(caps0, i, s);
      assert Opens(Caps()) == Opens(caps0)[i := false];
      o := Match(s, p);
      if o.NoMatch? {
        ghost var caps := Caps();
        assert caps[i] == capture[i];
        capture[i] := capture[i].(len := Unfinished);
        assert Caps() == caps[i := caps0[i]];
      }
    }

    /** Balanced strings, frontiers and references to captures. */
    method Escape(s: nat, p: nat) returns (done: bool, o: Outcome, s': nat, p': nat)
      requires Valid() && s <= |t.src| && p < |t.pat| && Sensible(Caps(), s)
      requires t.pat[p] == L_ESC && (t.pat[p + 1] == 98 || t.pat[p + 1] == 102 || IsDigit(t.pat[p + 1]))
      ensures done ==> Did(o, FirstOf(Ways(t, Items(t.pat, p), s, Caps())), Caps(), depth)
      ensures done && o.Raises? ==> !WellFormed(Items(t.pat, p), Opens(Caps()))
      ensures !done ==> p < p' < |t.pat| && s <= s' <= |t.src|
      ensures !done ==> FirstOf(Ways(t, Items(t.pat, p'), s', Caps())) == FirstOf(Ways(t, Items(t.pat, p), s, Caps()))
      ensures !done && WellFormed(Items(t.pat, p), Opens(Caps())) ==>
                WellFormed(Items(t.pat, p'), Opens(Caps())) && Calls(Items(t.pat, p')) <= Calls(Items(t.pat, p))
    {
      ItemsNext(t, p, s, Caps());
      done, o, s', p' := false, NoMatch, s, p;
      if t.pat[p + 1] == 98 {
        if t.pat[p + 2] == 0 || t.pat[p + 3] == 0 {
          return true, Raises(UnbalancedPattern), s, p;
        }
        var r := MatchBalance(s, t.pat[p + 2], t.pat[p + 3]);
        if r.None? {
          return true, NoMatch, s, p;
        }
        s', p' := r.value, p + 4;
      } else if t.pat[p + 1] == 102 {
        done, o, p' := MatchFrontier(s, p);
      } else {
        var ok, r := MatchCapture(s, t.pat[p + 1]);
        if !ok {
          return true, Raises(InvalidCapture), s, p;
        }
        if r.None? {
          return true, NoMatch, s, p;
        }
        s', p' := r.value, p + 2;
      }
    }

    /** The frontier pattern. */
    method MatchFrontier(s: nat, p: nat) returns (done: bool, o: Outcome, p': nat)
      requires Valid() && s <= |t.src| && p < |t.pat| && t.pat[p] == L_ESC && t.pat[p + 1] == 102
      ensures var it := ItemAt(t.pat, p).0;
              if it.Bad? then done && o.Raises?
              else if it.Frontier? && AtFrontier(t, s, it.p, it.ep) then !done && p' == ItemAt(t.pat, p).1
              else it.Frontier? && done && o == NoMatch
    {
      done, o, p' := true, NoMatch, p;
      if t.pat[p + 2] != 91 {
        return true, Raises(MissingSet), p;
      }
      var ok, ep := FindClassEnd(p + 2);
      if !ok {
        return true, Raises(MissingBracket), p;
      }
      var before := MatchBracketClass(if s == 0 then 0 else t.src[s - 1], p + 2, ep - 1);
      var here := MatchBracketClass(At(t, s), p + 2, ep - 1);
      if !before && here {
        done, p' := false, ep;
      }
    }

    /** A character class and what may follow it. */
    method Class(s: nat, p: nat) returns (done: bool, o: Outcome, s': nat, p': nat)
      requires Valid() && s <= |t.src| && p < |t.pat| && Sensible(Caps(), s)
      requires IsClass(t.pat, p)
      modifies this`level, this`depth, capture
      ensures Valid()
      ensures done ==> Did(o, FirstOf(Ways(t, Items(t.pat, p), s, old(Caps()))), old(Caps()), old(depth))
      ensures done && o.Raises? && WellFormed(Items(t.pat, p), Opens(old(Caps()))) ==>
                o.error == TooComplex && old(depth) + Calls(Items(t.pat, p)) > MAX_XLEVEL
      ensures !done ==> p < p' < |t.pat| && s <= s' <= |t.src| && Caps() == old(Caps()) && depth == old(depth)
      ensures !done ==> FirstOf(Ways(t, Items(t.pat, p'), s', old(Caps()))) == FirstOf(Ways(t, Items(t.pat, p), s,
                old(Caps())))
      ensures !done && WellFormed(Items(t.pat, p), Opens(old(Caps()))) ==>
                WellFormed(Items(t.pat, p'), Opens(old(Caps()))) && Calls(Items(t.pat, p')) <= Calls(Items(t.pat, p))
      decreases |t.pat| - p - 1, 8
    {
      var ok, ep := FindClassEnd(p);
      if !ok {
        NoClass(t, p, Opens(Caps()));
        return true, Raises(if t.pat[p] == L_ESC then EndsWithEscape else MissingBracket), s, p;
      }
      ClassWays(t, p, s, ep, Caps(), Opens(Caps()));
      done, o, s', p' := Repeated(s, p, ep);
    }

    /** A class that ends at ep. */
    method Repeated(s: nat, p: nat, ep: nat) returns (done: bool, o: Outcome, s': nat, p': nat)
      requires Valid() && s <= |t.src| && p < ep < |t.pat| && (t.pat[p] == 91 ==> p + 1 < ep) && Sensible(Caps(), s)
      requires t.pat[ep] == 0 || ep + 1 < |t.pat|
      modifies this`level, this`depth, capture
      ensures Valid()
      ensures done ==> Did(o, ClassWay(t, p, s, ep, old(Caps())), old(Caps()), old(depth))
      ensures done ==> RaisesOnly(o, t, BehindClass(t.pat, ep), Opens(old(Caps())), old(depth))
      ensures done && o.Raises? ==> BehindClass(t.pat, ep) > ep
      ensures !done ==>
                p' == BehindClass(t.pat, ep) && s <= s' <= |t.src| && Caps() == old(Caps()) && depth == old(depth)
      ensures !done ==> FirstOf(Ways(t, Items(t.pat, p'), s', old(Caps()))) == ClassWay(t, p, s, ep, old(Caps()))
      decreases |t.pat| - p - 1, 7
    {
      done, o, s', p' := false, NoMatch, s, p;
      var m := SingleMatch(s, p, ep);
      if t.pat[ep] == 63 {
        if m {
          o := Match(s + 1, ep + 1);
          if !o.NoMatch? {
            return true, o, s, p;
          }
        }
        p' := ep + 1;
      } else if t.pat[ep] == 42 {
        o := MaxExpand(s, p, ep);
        done := true;
      } else if t.pat[ep] == 43 {
        if m {
          o := MaxExpand(s + 1, p, ep);
        }
        done := true;
      } else if t.pat[ep] == 45 {
        o := MinExpand(s, p, ep);
        done := true;
      } else if m {
        s', p' := s + 1, ep;
      } else {
        done := true;
      }
    }

    /** max_expand */
    method MaxExpand(s: nat, p: nat, ep: nat) returns (o: Outcome)
      requires Valid() && s <= |t.src| && p < ep < |t.pat| - 1 && (t.pat[p] == 91 ==> p + 1 < ep) && Sensible(Caps(), s)
      modifies this`level, this`depth, capture
      ensures Valid() && Did(o, FirstOf(Longest(t, Items(t.pat, ep + 1), s, Run(t, s, p, ep), old(Caps()))),
                old(Caps()), old(depth))
      ensures RaisesOnly(o, t, ep + 1, Opens(old(Caps())), old(depth))
      decreases |t.pat| - ep - 1, 1
    {
      ghost var caps0, depth0, rest := Caps(), depth, Items(t.pat, ep + 1);
      var k := CountRun(s, p, ep);
      var i: int := k;
      while i >= 0
        invariant -1 <= i <= k && Valid() && Caps() == caps0 && depth == depth0
        invariant FirstOf(Longest(t, rest, s, k, caps0)) == LongestFirst(t, rest, s, i, caps0)
      {
        LongestNext(t, rest, s, i, caps0);
        o := Match(s + i, ep + 1);
        if !o.NoMatch? {
          return;
        }
        i := i - 1;
      }
      return NoMatch;
    }

    method CountRun(s: nat, p: nat, ep: nat) returns (k: nat)
      requires Valid() && s <= |t.src| && p < ep < |t.pat| && (t.pat[p] == 91 ==> p + 1 < ep)
      ensures k == Run(t, s, p, ep)
    {
      k := 0;
      while true
        invariant s + k <= |t.src| && Run(t, s, p, ep) == k + Run(t, s + k, p, ep)
        decreases |t.src| - s - k
      {
        var m := SingleMatch(s + k, p, ep);
        if !m {
          break;
        }
        k := k + 1;
      }
    }

    /** min_expand */
    method MinExpand(s0: nat, p: nat, ep: nat) returns (o: Outcome)
      requires Valid() && s0 <= |t.src| && p < ep < |t.pat| - 1 && (t.pat[p] == 91 ==> p + 1 < ep)
                 && Sensible(Caps(), s0)
      modifies this`level, this`depth, capture
      ensures Valid() && Did(o, FirstOf(Shortest(t, Items(t.pat, ep + 1), s0, Run(t, s0, p, ep), old(Caps()))),
                old(Caps()), old(depth))
      ensures RaisesOnly(o, t, ep + 1, Opens(old(Caps())), old(depth))
      decreases |t.pat| - ep - 1, 1
    {
      ghost var caps0, depth0, rest := Caps(), depth, Items(t.pat, ep + 1);
      var s := s0;
      while true
        invariant s0 <= s <= |t.src| && Valid() && Caps() == caps0 && depth == depth0
        invariant FirstOf(Shortest(t, rest, s0, Run(t, s0, p, ep), caps0)) == FirstOf(Shortest(t, rest, s,
                    Run(t, s, p, ep), caps0))
        decreases |t.src| - s
      {
        ShortestNext(t, rest, s, p, ep, caps0);
        o := Match(s, ep + 1);
        if !o.NoMatch? {
          return;
        }
        var m := SingleMatch(s, p, ep);
        if !m {
          return NoMatch;
        }
        s := s + 1;
      }
    }
  }
}
