/**
 * Which of its matches a Lua pattern prefers (lib_string.c): repetitions take as
 * much as possible, or as little as possible behind a minus sign, as long as the
 * rest of the pattern matches. The first of the ways to match is that one.
 */
module PatternChoice {
  import opened Pattern

  /** To take up to n rather than up to m: as little as possible for a minus sign, otherwise as much as possible. */
  predicate Better(it: Item, n: nat, m: nat) {
    if it.Minus? then n < m else Repeats(it) && n > m
  }

  /**
   * The preferred match: each item takes what it prefers among all that let the rest of the items match,
   * the first item choosing first.
   */
  ghost predicate Chosen(t: Text, items: seq<Item>, s: nat, caps: seq<Capture>, e: End)
    decreases |items|
  {
    if items == [] then s <= |t.src| && e == End(s, caps)
    else
      exists m: nat, caps' {:trigger Takes(t, items[0], s, caps, m, caps')} ::
        && m <= |t.src| && Takes(t, items[0], s, caps, m, caps') && Chosen(t, items[1..], m, caps', e)
        && NoneBetter(t, items[0], items[1..], s, caps, m)
  }

  /** Whatever the item would rather take, the rest does not match behind it. */
  ghost predicate NoneBetter(t: Text, it: Item, rest: seq<Item>, s: nat, caps: seq<Capture>, m: nat) {
    forall n: nat, c, e {:trigger Takes(t, it, s, caps, n, c), Derives(t, rest, n, c, e)} ::
      n <= |t.src| && Better(it, n, m) && Takes(t, it, s, caps, n, c) ==> !Derives(t, rest, n, c, e)
  }

  /** The rest goes on from m, and e is how it does first. */
  ghost predicate First(t: Text, rest: seq<Item>, m: nat, caps: seq<Capture>, e: End) {
    m <= |t.src| && Ways(t, rest, m, caps) != [] && Ways(t, rest, m, caps)[0] == e
  }

  /** The rest does not go on from n. */
  ghost predicate Stuck(t: Text, rest: seq<Item>, n: nat, caps: seq<Capture>) {
    n <= |t.src| ==> Ways(t, rest, n, caps) == []
  }

  lemma NoWays(t: Text, rest: seq<Item>, m: nat, caps: seq<Capture>)
    requires m <= |t.src|
    ensures Stuck(t, rest, m, caps) <==>
            forall e {:trigger Derives(t, rest, m, caps, e)} :: !Derives(t, rest, m, caps, e)
  {
    var ws := Ways(t, rest, m, caps);
    if ws != [] { WaysDerive(t, rest, m, caps, ws[0]); }
    forall e | ws == [] ensures !Derives(t, rest, m, caps, e) { WaysDerive(t, rest, m, caps, e); }
  }

  lemma {:induction false} LongestChoice(t: Text, rest: seq<Item>, s: nat, k: nat, caps: seq<Capture>, e: End)
    requires s + k <= |t.src|
    ensures Longest(t, rest, s, k, caps) != [] && Longest(t, rest, s, k, caps)[0] == e <==>
            exists m: nat {:trigger First(t, rest, m, caps, e)} :: s <= m <= s + k && First(t, rest, m, caps, e)
              && forall n: nat {:trigger Stuck(t, rest, n, caps)} :: m < n <= s + k ==> Stuck(t, rest, n, caps)
    decreases k
  {
    assert Stuck(t, rest, s + k, caps) <==> Ways(t, rest, s + k, caps) == [];
    assert First(t, rest, s + k, caps, e) <==> Ways(t, rest, s + k, caps) != [] && Ways(t, rest, s + k, caps)[0] == e;
    if k > 0 { LongestChoice(t, rest, s, k - 1, caps, e); }
  }

  lemma {:induction false} ShortestChoice(t: Text, rest: seq<Item>, s: nat, k: nat, caps: seq<Capture>, e: End)
    requires s + k <= |t.src|
    ensures Shortest(t, rest, s, k, caps) != [] && Shortest(t, rest, s, k, caps)[0] == e <==>
            exists m: nat {:trigger First(t, rest, m, caps, e)} :: s <= m <= s + k && First(t, rest, m, caps, e)
              && forall n: nat {:trigger Stuck(t, rest, n, caps)} :: s <= n < m ==> Stuck(t, rest, n, caps)
    decreases k
  {
    assert Stuck(t, rest, s, caps) <==> Ways(t, rest, s, caps) == [];
    assert First(t, rest, s, caps, e) <==> Ways(t, rest, s, caps) != [] && Ways(t, rest, s, caps)[0] == e;
    if k > 0 { ShortestChoice(t, rest, s + 1, k - 1, caps, e); }
  }

  /** The first item's choice, given how the rest goes on. */
  ghost predicate Chooses(t: Text, it: Item, rest: seq<Item>, s: nat, caps: seq<Capture>, e: End) {
    exists m: nat, caps' {:trigger Takes(t, it, s, caps, m, caps')} ::
      Takes(t, it, s, caps, m, caps') && First(t, rest, m, caps', e) && NoneBetter(t, it, rest, s, caps, m)
  }

  lemma SingleChooses(t: Text, it: Item, rest: seq<Item>, s: nat, caps: seq<Capture>, e: End)
    requires s <= |t.src| && !Repeats(it)
    ensures FirstWays(t, it, rest, s, caps) != [] && FirstWays(t, it, rest, s, caps)[0] == e
       <==> Chooses(t, it, rest, s, caps, e)
  {
    StopWays(t, it, rest, s, caps);
    var stop := Stop(t, it, s, caps);
    forall m: nat, c ensures Takes(t, it, s, caps, m, c) <==> stop == Some(End(m, c)) { StopIs(t, it, s, caps, m, c); }
    if stop.Some? { assert Takes(t, it, s, caps, stop.value.pos, stop.value.caps); }
  }

  /** The item takes anything from lo to hi. */
  ghost predicate TakesUpTo(t: Text, it: Item, s: nat, caps: seq<Capture>, lo: nat, hi: nat) {
    forall n: nat, c {:trigger Takes(t, it, s, caps, n, c)} ::
      Takes(t, it, s, caps, n, c) <==> lo <= n <= hi && c == caps
  }

  /** Nothing better is left if and only if the rest has no way from anywhere better. */
  lemma BetterStops(t: Text, it: Item, rest: seq<Item>, s: nat, caps: seq<Capture>, lo: nat, hi: nat, m: nat)
    requires hi <= |t.src| && TakesUpTo(t, it, s, caps, lo, hi)
    ensures NoneBetter(t, it, rest, s, caps, m) <==>
            forall n: nat {:trigger Stuck(t, rest, n, caps)} ::
              lo <= n <= hi && Better(it, n, m) ==> Stuck(t, rest, n, caps)
  {
    if NoneBetter(t, it, rest, s, caps, m) {
      forall n: nat {:trigger Stuck(t, rest, n, caps)} | lo <= n <= hi && Better(it, n, m)
        ensures Stuck(t, rest, n, caps)
      {
        assert Takes(t, it, s, caps, n, caps);
        NoWays(t, rest, n, caps);
      }
    }
    if forall n: nat {:trigger Stuck(t, rest, n, caps)} ::
      lo <= n <= hi && Better(it, n, m) ==> Stuck(t, rest, n, caps)
    {
      forall n: nat, c, e {:trigger Takes(t, it, s, caps, n, c), Derives(t, rest, n, c, e)} |
        n <= |t.src| && Better(it, n, m) && Takes(t, it, s, caps, n, c)
        ensures !Derives(t, rest, n, c, e)
      {
        NoWays(t, rest, n, caps);
      }
    }
  }

  lemma GreedyChooses(t: Text, it: Item, rest: seq<Item>, s: nat, caps: seq<Capture>, e: End, lo: nat, hi: nat)
    requires hi <= |t.src| && TakesUpTo(t, it, s, caps, lo, hi) && Repeats(it) && !it.Minus?
    ensures Chooses(t, it, rest, s, caps, e) <==>
            exists m: nat {:trigger First(t, rest, m, caps, e)} :: lo <= m <= hi && First(t, rest, m, caps, e)
              && forall n: nat {:trigger Stuck(t, rest, n, caps)} :: m < n <= hi ==> Stuck(t, rest, n, caps)
  {
    if Chooses(t, it, rest, s, caps, e) {
      var m: nat, c :| Takes(t, it, s, caps, m, c) && First(t, rest, m, c, e) && NoneBetter(t, it, rest, s, caps, m);
      BetterStops(t, it, rest, s, caps, lo, hi, m);
    }
    if m: nat :| lo <= m <= hi && First(t, rest, m, caps, e)
                 && forall n: nat {:trigger Stuck(t, rest, n, caps)} :: m < n <= hi ==> Stuck(t, rest, n, caps) {
      assert Takes(t, it, s, caps, m, caps);
      BetterStops(t, it, rest, s, caps, lo, hi, m);
    }
  }

  lemma LazyChooses(t: Text, it: Item, rest: seq<Item>, s: nat, caps: seq<Capture>, e: End, lo: nat, hi: nat)
    requires hi <= |t.src| && TakesUpTo(t, it, s, caps, lo, hi) && it.Minus?
    ensures Chooses(t, it, rest, s, caps, e) <==>
            exists m: nat {:trigger First(t, rest, m, caps, e)} :: lo <= m <= hi && First(t, rest, m, caps, e)
              && forall n: nat {:trigger Stuck(t, rest, n, caps)} :: lo <= n < m ==> Stuck(t, rest, n, caps)
  {
    if Chooses(t, it, rest, s, caps, e) {
      var m: nat, c :| Takes(t, it, s, caps, m, c) && First(t, rest, m, c, e) && NoneBetter(t, it, rest, s, caps, m);
      BetterStops(t, it, rest, s, caps, lo, hi, m);
    }
    if m: nat :| lo <= m <= hi && First(t, rest, m, caps, e)
                 && forall n: nat {:trigger Stuck(t, rest, n, caps)} :: lo <= n < m ==> Stuck(t, rest, n, caps) {
      assert Takes(t, it, s, caps, m, caps);
      BetterStops(t, it, rest, s, caps, lo, hi, m);
    }
  }

  /** How far repetitions reach. */
  lemma RepeatTakes(t: Text, it: Item, s: nat, caps: seq<Capture>)
    requires s <= |t.src|
    ensures it.Star? || it.Minus? ==> TakesUpTo(t, it, s, caps, s, s + Run(t, s, it.p, it.ep))
    ensures it.Plus? && Fits(t, s, it.p, it.ep) ==> TakesUpTo(t, it, s, caps, s + 1, s + 1 + Run(t, s + 1, it.p, it.ep))
    ensures it.Plus? && !Fits(t, s, it.p, it.ep) ==> TakesUpTo(t, it, s, caps, 1, 0)
    ensures it.Optional? ==> TakesUpTo(t, it, s, caps, s, if Fits(t, s, it.p, it.ep) then s + 1 else s)
  {
    forall n: nat | s <= n && (it.Star? || it.Minus? || it.Plus? || it.Optional?)
      ensures n <= s + Run(t, s, it.p, it.ep) <==> AllFit(t, s, n, it.p, it.ep)
    {
      RunFits(t, s, it.p, it.ep, n);
    }
    if it.Optional? { assert Fits(t, s, it.p, it.ep) <==> AllFit(t, s, s + 1, it.p, it.ep); }
  }

  lemma ItemChooses(t: Text, it: Item, rest: seq<Item>, s: nat, caps: seq<Capture>, e: End)
    requires s <= |t.src|
    ensures FirstWays(t, it, rest, s, caps) != [] && FirstWays(t, it, rest, s, caps)[0] == e
       <==> Chooses(t, it, rest, s, caps, e)
  {
    RepeatTakes(t, it, s, caps);
    match it
    case Optional(p, ep) =>
      var k := if Fits(t, s, p, ep) then 1 else 0;
      assert FirstWays(t, it, rest, s, caps) == Longest(t, rest, s, k, caps);
      LongestChoice(t, rest, s, k, caps, e);
      GreedyChooses(t, it, rest, s, caps, e, s, s + k);
    case Star(p, ep) =>
      LongestChoice(t, rest, s, Run(t, s, p, ep), caps, e);
      GreedyChooses(t, it, rest, s, caps, e, s, s + Run(t, s, p, ep));
    case Plus(p, ep) =>
      if Fits(t, s, p, ep) {
        LongestChoice(t, rest, s + 1, Run(t, s + 1, p, ep), caps, e);
        GreedyChooses(t, it, rest, s, caps, e, s + 1, s + 1 + Run(t, s + 1, p, ep));
      }
    case Minus(p, ep) =>
      ShortestChoice(t, rest, s, Run(t, s, p, ep), caps, e);
      LazyChooses(t, it, rest, s, caps, e, s, s + Run(t, s, p, ep));
    case _ => SingleChooses(t, it, rest, s, caps, e);
  }

  /** The first of the ways is the preferred match. */
  lemma {:induction false} WaysChosen(t: Text, items: seq<Item>, s: nat, caps: seq<Capture>, e: End)
    requires s <= |t.src|
    ensures First(t, items, s, caps, e) <==> Chosen(t, items, s, caps, e)
    decreases |items|
  {
    if items != [] {
      var rest := items[1..];
      ItemChooses(t, items[0], rest, s, caps, e);
      forall m: nat, caps' | m <= |t.src| ensures First(t, rest, m, caps', e) <==> Chosen(t, rest, m, caps', e) {
        WaysChosen(t, rest, m, caps', e);
      }
    }
  }
}
