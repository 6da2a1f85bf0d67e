/**
 * table.sort (auxsort in lib_table.c): a quicksort in place that recurses into the
 * smaller part only, for any comparison that the caller provides.
 */
module Sort {
  import opened Words

  /** The comparison is a strict weak order: what is not less, is ordered. */
  ghost predicate StrictWeak<T(!new)>(lt: (T, T) -> bool) {
    && (forall x {:trigger lt(x, x)} :: !lt(x, x))
    && (forall x, y {:trigger Le(lt, x, y)} :: Le(lt, x, y) || Le(lt, y, x))
    && (forall x, y, z {:trigger Le(lt, x, y), Le(lt, y, z)} :: Le(lt, x, y) && Le(lt, y, z) ==> Le(lt, x, z))
  }

  predicate Le<T>(lt: (T, T) -> bool, x: T, y: T) {
    !lt(y, x)
  }

  // ---- Rearrangements of a part ----

  /** Only elements from l to u have changed places. */
  ghost predicate Rearranged<T>(s: seq<T>, s': seq<T>, l: int, u: int) {
    && 0 <= l && l <= u + 1 <= |s| && |s'| == |s| && s'[..l] == s[..l] && s'[u + 1..] == s[u + 1..]
    && multiset(s'[l..u + 1]) == multiset(s[l..u + 1])
  }

  lemma RearrangedTwice<T>(s: seq<T>, s': seq<T>, s'': seq<T>, l: int, u: int)
    requires Rearranged(s, s', l, u) && Rearranged(s', s'', l, u)
    ensures Rearranged(s, s'', l, u)
  {
  }

  lemma RearrangedWider<T>(s: seq<T>, s': seq<T>, l: int, u: int, lo: int, hi: int)
    requires Rearranged(s, s', l, u) && 0 <= lo <= l && u <= hi < |s|
    ensures Rearranged(s, s', lo, hi)
  {
    Three(s, lo, l, u + 1, hi + 1);
    Three(s', lo, l, u + 1, hi + 1);
    assert s'[lo..l] == s'[..l][lo..l] == s[..l][lo..l] == s[lo..l];
    assert s'[u + 1..hi + 1] == s'[u + 1..][..hi - u] == s[u + 1..][..hi - u] == s[u + 1..hi + 1];
    assert s'[..lo] == s'[..l][..lo] == s[..l][..lo] == s[..lo];
    assert s'[hi + 1..] == s'[u + 1..][hi - u..] == s[u + 1..][hi - u..] == s[hi + 1..];
  }

  lemma Three<T>(s: seq<T>, a: int, b: int, c: int, d: int)
    requires 0 <= a <= b <= c <= d <= |s|
    ensures multiset(s[a..d]) == multiset(s[a..b]) + multiset(s[b..c]) + multiset(s[c..d])
  {
    assert s[a..d] == s[a..b] + s[b..c] + s[c..d];
  }

  lemma Swapped<T>(s: seq<T>, i: int, j: int, l: int, u: int)
    requires 0 <= l <= i <= u < |s| && l <= j <= u
    ensures Rearranged(s, s[i := s[j]][j := s[i]], l, u)
  {
    var s' := s[i := s[j]][j := s[i]];
    var w := s[l..u + 1];
    assert s'[l..u + 1] == w[i - l := w[j - l]][j - l := w[i - l]];
  }

  /** Outside of the part nothing moved; inside it everything came from inside. */
  lemma Moved<T>(s: seq<T>, s': seq<T>, l: int, u: int, k: int) returns (m: int)
    requires Rearranged(s, s', l, u) && 0 <= k < |s|
    ensures 0 <= m < |s| && s'[k] == s[m] && (if l <= k <= u then l <= m <= u else m == k)
  {
    if k < l {
      assert s'[..l][k] == s[..l][k];
      m := k;
    } else if k > u {
      assert s'[u + 1..][k - u - 1] == s[u + 1..][k - u - 1];
      m := k;
    } else {
      assert s'[k] == s'[l..u + 1][k - l];
      assert s'[k] in multiset(s'[l..u + 1]);
      assert s'[k] in multiset(s[l..u + 1]);
      var n :| 0 <= n < u + 1 - l && s[l..u + 1][n] == s'[k];
      m := l + n;
    }
  }

  // ---- Order ----

  /** All elements from lo to hi are at most x, and those are at least x. */
  ghost predicate Below<T>(lt: (T, T) -> bool, s: seq<T>, lo: int, hi: int, x: T) {
    forall k {:trigger s[k]} :: 0 <= k < |s| && lo <= k <= hi ==> Le(lt, s[k], x)
  }

  ghost predicate Above<T>(lt: (T, T) -> bool, s: seq<T>, lo: int, hi: int, x: T) {
    forall k {:trigger s[k]} :: 0 <= k < |s| && lo <= k <= hi ==> Le(lt, x, s[k])
  }

  predicate LeAt<T>(lt: (T, T) -> bool, s: seq<T>, p: int, q: int) {
    0 <= p < |s| && 0 <= q < |s| ==> Le(lt, s[p], s[q])
  }

  /** From lo to hi all is in order, except perhaps among the elements from l to u. */
  ghost predicate InOrderBut<T>(lt: (T, T) -> bool, s: seq<T>, lo: int, hi: int, l: int, u: int) {
    forall p, q {:trigger LeAt(lt, s, p, q)} :: lo <= p < q <= hi && !(l <= p && q <= u) ==> LeAt(lt, s, p, q)
  }

  ghost predicate IsSorted<T>(lt: (T, T) -> bool, s: seq<T>, lo: int, hi: int) {
    forall p, q {:trigger LeAt(lt, s, p, q)} :: lo <= p < q <= hi ==> LeAt(lt, s, p, q)
  }

  /** Changing places among the elements that are out of order anyway. */
  lemma OrderKept<T>(lt: (T, T) -> bool, s: seq<T>, s': seq<T>, lo: int, hi: int, l: int, u: int)
    requires Rearranged(s, s', l, u) && lo <= l && u <= hi && InOrderBut(lt, s, lo, hi, l, u)
    ensures InOrderBut(lt, s', lo, hi, l, u)
  {
    forall p, q | lo <= p < q <= hi && !(l <= p && q <= u) ensures LeAt(lt, s', p, q) {
      if 0 <= p && q < |s| {
        var m := Moved(s, s', l, u, p);
        var n := Moved(s, s', l, u, q);
        assert LeAt(lt, s, m, n);
      }
    }
  }

  // ---- The algorithm ----

  /** set2, with the two elements on the stack in reverse order. */
  method Swap<T>(a: array<T>, i: int, j: int, ghost l: int, ghost u: int)
    requires 0 <= l <= i <= u < a.Length && l <= j <= u
    modifies a
    ensures a[..] == old(a[..])[i := old(a[j])][j := old(a[i])] && Rearranged(old(a[..]), a[..], l, u)
  {
    Swapped(a[..], i, j, l, u);
    a[i], a[j] := a[j], a[i];
  }

  /** The first, the middle and the last element are put in order. */
  method Median<T(!new)>(a: array<T>, lt: (T, T) -> bool, l: int, u: int)
    requires 0 <= l < u < a.Length
    modifies a
    ensures Rearranged(old(a[..]), a[..], l, u)
    ensures StrictWeak(lt) ==>
              Le(lt, a[l], a[u]) && (u - l > 1 ==> Le(lt, a[l], a[(l + u) / 2]) && Le(lt, a[(l + u) / 2], a[u]))
  {
    ghost var s0 := a[..];
    if lt(a[u], a[l]) {
      if StrictWeak(lt) { Less(lt, a[u], a[l]); }
      Swap(a, l, u, l, u);
    }
    if u - l > 1 {
      ghost var s1 := a[..];
      Middle(a, lt, l, (l + u) / 2, u);
      RearrangedTwice(s0, s1, a[..], l, u);
    }
  }

  lemma Less<T(!new)>(lt: (T, T) -> bool, x: T, y: T)
    requires StrictWeak(lt) && lt(x, y)
    ensures Le(lt, x, y)
  {
    assert Le(lt, x, y) || Le(lt, y, x);
  }

  /** The middle element comes between two that are in order. */
  method Middle<T(!new)>(a: array<T>, lt: (T, T) -> bool, l: int, i: int, u: int)
    requires 0 <= l < i < u < a.Length && (StrictWeak(lt) ==> Le(lt, a[l], a[u]))
    modifies a
    ensures Rearranged(old(a[..]), a[..], l, u)
    ensures StrictWeak(lt) ==> Le(lt, a[l], a[i]) && Le(lt, a[i], a[u]) && Le(lt, a[l], a[u])
  {
    ghost var x, y, z := a[l], a[i], a[u];
    if lt(a[i], a[l]) {
      if StrictWeak(lt) { Less(lt, y, x); }
      Swap(a, i, l, l, u);
    } else if lt(a[u], a[i]) {
      if StrictWeak(lt) { Less(lt, z, y); }
      Swap(a, i, u, l, u);
    }
    assert StrictWeak(lt) ==> Le(lt, a[l], a[i]) && Le(lt, a[i], a[u]);
  }

  /** What the partition has established: a[l..i] <= P <= a[j..u], where P is a[u - 1]. */
  ghost predicate Parted<T>(lt: (T, T) -> bool, s: seq<T>, l: int, u: int, i: int, j: int, p: T) {
    0 <= l <= i < u < |s| && l < j < u && s[u - 1] == p && Below(lt, s, l, i, p) && Above(lt, s, j, u, p)
  }

  /** From i on the first element that is not less than the pivot; none is an error. */
  method Upwards<T(!new)>(a: array<T>, lt: (T, T) -> bool, l: int, u: int, i0: int, ghost j: int, p: T)
                   returns (ok: bool, i: int)
    requires 0 <= l <= i0 < u < a.Length
    requires StrictWeak(lt) ==> Parted(lt, a[..], l, u, i0, j, p)
    ensures StrictWeak(lt) ==> ok
    ensures ok ==> i0 < i <= u && (StrictWeak(lt) ==> Below(lt, a[..], l, i - 1, p) && Le(lt, p, a[i]) && (i <= j || i <= i0 + 1))
  {
    i := i0 + 1;
    while lt(a[i], p)
      invariant i0 < i <= u && (StrictWeak(lt) ==> Below(lt, a[..], l, i - 1, p) && (i <= j || i == i0 + 1))
      decreases u - i
    {
      ghost var s := a[..];
      assert s[i] == a[i];
      if i >= u {
        return false, i;
      }
      assert StrictWeak(lt) ==> (Le(lt, a[i], p) || Le(lt, p, a[i]));
      i := i + 1;
    }
    ok := true;
  }

  /** From j down the first element that the pivot is not less than; none is an error. */
  method Downwards<T(!new)>(a: array<T>, lt: (T, T) -> bool, l: int, u: int, i: int, j0: int, p: T)
                     returns (ok: bool, j: int)
    requires 0 <= l < j0 < u < a.Length && l < i
    requires StrictWeak(lt) ==> Below(lt, a[..], l, i - 1, p) && Above(lt, a[..], j0, u, p)
    ensures StrictWeak(lt) ==> ok
    ensures ok ==> l <= j < j0 && (StrictWeak(lt) ==> Above(lt, a[..], j + 1, u, p) && Le(lt, a[j], p))
  {
    j := j0 - 1;
    while lt(p, a[j])
      invariant l <= j < j0 && (StrictWeak(lt) ==> Above(lt, a[..], j + 1, u, p))
      decreases j - l
    {
      ghost var s := a[..];
      assert s[j] == a[j];
      if j <= l {
        return false, j;
      }
      assert StrictWeak(lt) ==> (Le(lt, a[j], p) || Le(lt, p, a[j]));
      j := j - 1;
    }
    ok := true;
  }

  /** Swapping an element that is not less with one that is not greater. */
  lemma PartedNext<T>(lt: (T, T) -> bool, s: seq<T>, l: int, u: int, i: int, j: int, p: T)
    requires 0 <= l < i <= j < u < |s| && s[u - 1] == p && j < u - 1
    requires Below(lt, s, l, i - 1, p) && Above(lt, s, j + 1, u, p) && Le(lt, p, s[i]) && Le(lt, s[j], p)
    ensures Parted(lt, s[i := s[j]][j := s[i]], l, u, i, j, p)
  {
  }

  /** All before i is at most the pivot, which waits at u - 1, all from i on is at least the pivot. */
  ghost predicate Met<T>(lt: (T, T) -> bool, s: seq<T>, l: int, u: int, i: int, p: T) {
    0 <= l < i < u < |s| && s[u - 1] == p && Below(lt, s, l, i - 1, p) && Above(lt, s, i, u, p)
  }

  lemma SidesMet<T(!new)>(lt: (T, T) -> bool, s: seq<T>, l: int, u: int, i: int, j: int, p: T)
    requires 0 <= l < i < u < |s| && j < i && s[u - 1] == p
    requires Below(lt, s, l, i - 1, p) && Above(lt, s, j + 1, u, p) && Le(lt, p, s[i])
    ensures Met(lt, s, l, u, i, p)
  {
  }

  /** The last swap puts the pivot in its place. */
  lemma PartedLast<T(!new)>(lt: (T, T) -> bool, s: seq<T>, l: int, u: int, i: int, p: T)
    requires StrictWeak(lt) && Met(lt, s, l, u, i, p)
    ensures var s' := s[u - 1 := s[i]][i := s[u - 1]];
            s'[i] == p && Below(lt, s', l, i - 1, p) && Above(lt, s', i + 1, u, p)
  {
  }

  /**
   * The pivot, at u - 1 to start with, ends up at i, with all that is less before and all that is
   * greater behind it.
   */
  method Partition<T(!new)>(a: array<T>, lt: (T, T) -> bool, l: int, u: int) returns (ok: bool, i: int)
    requires 0 <= l && u - l > 2 && u < a.Length
    requires StrictWeak(lt) ==> Le(lt, a[l], a[u - 1]) && Le(lt, a[u - 1], a[u])
    modifies a
    ensures Rearranged(old(a[..]), a[..], l, u)
    ensures StrictWeak(lt) ==> ok
    ensures ok ==> l < i <= u && (StrictWeak(lt) ==> i < u && Below(lt, a[..], l, i - 1, a[i]) && Above(lt, a[..], i + 1, u, a[i]))
  {
    var p := a[u - 1];
    ghost var s0 := a[..];
    i := l;
    var j, done := u - 1, false;
    if StrictWeak(lt) { assert Le(lt, p, p) || Le(lt, p, p); }
    while !done
      invariant Rearranged(s0, a[..], l, u) && (if done then l < i <= u else Between(l, u, i, j))
      invariant StrictWeak(lt) ==> if done then Met(lt, a[..], l, u, i, p) else Parted(lt, a[..], l, u, i, j, p)
      decreases !done, j - l
    {
      ok, done, i, j := Exchange(a, lt, l, u, i, j, p, s0);
      if !ok {
        return;
      }
    }
    ghost var s := a[..];
    if StrictWeak(lt) { PartedLast(lt, s, l, u, i, p); }
    Swap(a, u - 1, i, l, u);
    RearrangedTwice(s0, s, a[..], l, u);
    ok := true;
  }

  predicate Between(l: int, u: int, i: int, j: int) {
    l <= i < u && l < j < u && if i == l then j == u - 1 else i <= j < u - 1
  }

  /** One round of the loop: the next two elements on the wrong sides change places, unless the sides have met. */
  method Exchange<T(!new)>(a: array<T>, lt: (T, T) -> bool, l: int, u: int, i0: int, j0: int, p: T, ghost s0: seq<T>)
    returns (ok: bool, done: bool, i: int, j: int)
    requires 0 <= l && u < a.Length && Between(l, u, i0, j0) && Rearranged(s0, a[..], l, u)
    requires StrictWeak(lt) ==> Parted(lt, a[..], l, u, i0, j0, p)
    modifies a
    ensures Rearranged(s0, a[..], l, u) && (StrictWeak(lt) ==> ok)
    ensures ok ==> j < j0 && if done then l < i <= u else Between(l, u, i, j)
    ensures ok && StrictWeak(lt) ==> if done then Met(lt, a[..], l, u, i, p) else Parted(lt, a[..], l, u, i, j, p)
  {
    ghost var s := a[..];
    done, i, j := false, i0, j0;
    ok, i := Upwards(a, lt, l, u, i0, j0, p);
    if !ok {
      return;
    }
    ok, j := Downwards(a, lt, l, u, i, j0, p);
    if !ok {
      return;
    }
    if j < i {
      done := true;
      if StrictWeak(lt) { SidesMet(lt, s, l, u, i, j, p); }
      return;
    }
    if StrictWeak(lt) { PartedNext(lt, s, l, u, i, j, p); }
    Swap(a, i, j, l, u);
    RearrangedTwice(s0, s, a[..], l, u);
  }

  /** Order except within the two parts beside a pivot. */
  ghost predicate InOrderTwo<T>(lt: (T, T) -> bool, s: seq<T>, lo: int, hi: int, l: int, i: int, u: int) {
    forall p, q {:trigger LeAt(lt, s, p, q)} :: lo <= p < q <= hi && !(l <= p && q < i) && !(i < p && q <= u)
        ==> LeAt(lt, s, p, q)
  }

  lemma Split<T(!new)>(lt: (T, T) -> bool, s: seq<T>, lo: int, hi: int, l: int, i: int, u: int)
    requires StrictWeak(lt) && 0 <= l <= i <= u < |s| && InOrderBut(lt, s, lo, hi, l, u)
    requires Below(lt, s, l, i - 1, s[i]) && Above(lt, s, i + 1, u, s[i])
    ensures InOrderTwo(lt, s, lo, hi, l, i, u)
  {
    forall p, q | lo <= p < q <= hi && !(l <= p && q < i) && !(i < p && q <= u) ensures LeAt(lt, s, p, q) {
      if l <= p && q <= u {
        assert p <= i ==> Le(lt, s[p], s[i]) || p == i;
        assert q >= i ==> Le(lt, s[i], s[q]) || q == i;
      }
    }
  }

  lemma SortedLeft<T>(lt: (T, T) -> bool, s: seq<T>, s': seq<T>, lo: int, hi: int, l: int, i: int, u: int)
    requires InOrderTwo(lt, s, lo, hi, l, i, u) && lo <= l <= i <= u <= hi < |s| && Rearranged(s, s', l, i - 1)
               && IsSorted(lt, s', l, i - 1)
    ensures InOrderBut(lt, s', lo, hi, i + 1, u)
  {
    forall p, q | lo <= p < q <= hi && !(i < p && q <= u) ensures LeAt(lt, s', p, q) {
      if l <= p && q < i {
        assert LeAt(lt, s', p, q);
      } else if 0 <= p && q < |s| {
        var m := Moved(s, s', l, i - 1, p);
        var n := Moved(s, s', l, i - 1, q);
        assert LeAt(lt, s, m, n);
      }
    }
  }

  lemma SortedRight<T>(lt: (T, T) -> bool, s: seq<T>, s': seq<T>, lo: int, hi: int, l: int, i: int, u: int)
    requires InOrderTwo(lt, s, lo, hi, l, i, u) && lo <= l <= i <= u <= hi < |s| && Rearranged(s, s', i + 1, u)
               && IsSorted(lt, s', i + 1, u)
    ensures InOrderBut(lt, s', lo, hi, l, i - 1)
  {
    forall p, q | lo <= p < q <= hi && !(l <= p && q < i) ensures LeAt(lt, s', p, q) {
      if i < p && q <= u {
        assert LeAt(lt, s', p, q);
      } else if 0 <= p && q < |s| {
        var m := Moved(s, s', i + 1, u, p);
        var n := Moved(s, s', i + 1, u, q);
        assert LeAt(lt, s, m, n);
      }
    }
  }

  function Size(l: int, u: int): nat {
    if u > l then u - l + 1 else 1
  }

  /** Two or three elements are sorted by the median step alone. */
  lemma FewSorted<T(!new)>(lt: (T, T) -> bool, s: seq<T>, lo: int, hi: int, l: int, u: int)
    requires StrictWeak(lt) && 0 <= l && u < |s| && InOrderBut(lt, s, lo, hi, l, u)
    requires l >= u || Few(lt, s, l, u)
    ensures IsSorted(lt, s, lo, hi)
  {
  }

  /** Two or three elements in order. */
  ghost predicate Few<T>(lt: (T, T) -> bool, s: seq<T>, l: int, u: int) {
    0 <= l && u < |s| && ((u - l == 1 && Le(lt, s[l], s[u]))
        || (u - l == 2 && Le(lt, s[l], s[l + 1]) && Le(lt, s[l + 1], s[u])))
  }

  /** The body of the loop up to the recursion: few elements are in order, more are parted by the element at i. */
  method Pivot<T(!new)>(a: array<T>, lt: (T, T) -> bool, l: int, u: int) returns (ok: bool, done: bool, i: int)
    requires 0 <= l < u < a.Length
    modifies a
    ensures Rearranged(old(a[..]), a[..], l, u) && (done <==> u - l <= 2) && (done ==> ok)
    ensures StrictWeak(lt) ==> ok && (done ==> Few(lt, a[..], l, u))
    ensures ok && !done ==>
              l < i <= u && (StrictWeak(lt) ==> Below(lt, a[..], l, i - 1, a[i]) && Above(lt, a[..], i + 1, u, a[i]))
  {
    ghost var s0 := a[..];
    ok, done, i := true, true, l;
    Median(a, lt, l, u);
    if u - l == 1 {
      return;
    }
    i := (l + u) / 2;
    if u - l == 2 {
      assert i == l + 1;
      return;
    }
    done := false;
    ghost var s1 := a[..];
    Swap(a, i, u - 1, l, u);
    ghost var s2 := a[..];
    RearrangedTwice(s0, s1, s2, l, u);
    ok, i := Partition(a, lt, l, u);
    RearrangedTwice(s0, s2, a[..], l, u);
  }

  /** The same within a larger part, of which all else is in order. */
  method PivotWithin<T(!new)>(a: array<T>, lt: (T, T) -> bool, l: int, u: int, ghost s0: seq<T>, ghost lo: int,
                       ghost hi: int) returns (ok: bool, done: bool, i: int)
    requires 0 <= lo <= l < u <= hi < a.Length && Rearranged(s0, a[..], lo, hi)
    requires StrictWeak(lt) ==> InOrderBut(lt, a[..], lo, hi, l, u)
    modifies a
    ensures Rearranged(s0, a[..], lo, hi) && (StrictWeak(lt) ==> ok) && (done ==> ok)
    ensures ok && done && StrictWeak(lt) ==> IsSorted(lt, a[..], lo, hi)
    ensures ok && !done ==> l < i <= u && (StrictWeak(lt) ==> InOrderTwo(lt, a[..], lo, hi, l, i, u))
  {
    ghost var s := a[..];
    ok, done, i := Pivot(a, lt, l, u);
    Inner(lt, s0, s, a[..], lo, hi, l, u);
    if StrictWeak(lt) {
      if done {
        FewSorted(lt, a[..], lo, hi, l, u);
      } else {
        Split(lt, a[..], lo, hi, l, i, u);
      }
    }
  }

  lemma DepthNext(d: nat, size: int, all: int)
    requires Pow2(d) <= (if size > 1 then size else 1) && 2 * size < all && all > 1
    ensures Pow2(d + 1) <= all
  {
  }

  /**
   * auxsort: for a strict weak order no error is raised and the elements end up sorted; the
   * recursion is as deep as the logarithm of their number.
   */
  method AuxSort<T(!new)>(a: array<T>, lt: (T, T) -> bool, l0: int, u0: int) returns (ok: bool, ghost depth: nat)
    requires 0 <= l0 <= u0 + 1 && u0 < a.Length
    modifies a
    ensures Rearranged(old(a[..]), a[..], l0, u0)
    ensures StrictWeak(lt) ==> ok && IsSorted(lt, a[..], l0, u0)
    ensures Pow2(depth) <= Size(l0, u0)
    decreases u0 - l0, 1
  {
    ghost var s0 := a[..];
    var l, u := l0, u0;
    ok, depth := true, 0;
    while l < u
      invariant l0 <= l <= u + 1 && u <= u0 && ok && Rearranged(s0, a[..], l0, u0)
      invariant StrictWeak(lt) ==> InOrderBut(lt, a[..], l0, u0, l, u)
      invariant Pow2(depth) <= Size(l0, u0)
      decreases u - l
    {
      var done, i;
      ok, done, i := PivotWithin(a, lt, l, u, s0, l0, u0);
      if !ok || done {
        return;
      }
      ghost var d;
      ok, l, u, d := SortSmaller(a, lt, l, i, u, s0, l0, u0);
      depth := if d > depth then d else depth;
      if !ok {
        return;
      }
    }
    if StrictWeak(lt) { FewSorted(lt, a[..], l0, u0, l, u); }
  }

  /** The smaller part beside the pivot is sorted, the larger one is left over. */
  method SortSmaller<T(!new)>(a: array<T>, lt: (T, T) -> bool, l0: int, i: int, u0: int, ghost s0: seq<T>,
                       ghost lo: int, ghost hi: int)
    returns (ok: bool, l: int, u: int, ghost depth: nat)
    requires 0 <= lo <= l0 < i <= u0 <= hi < a.Length && Rearranged(s0, a[..], lo, hi)
    requires StrictWeak(lt) ==> InOrderTwo(lt, a[..], lo, hi, l0, i, u0)
    modifies a
    ensures lo <= l <= u + 1 && u <= hi && u - l < u0 - l0 && Rearranged(s0, a[..], lo, hi)
    ensures StrictWeak(lt) ==> ok && InOrderBut(lt, a[..], lo, hi, l, u)
    ensures Pow2(depth) <= Size(lo, hi)
    decreases u0 - l0, 0
  {
    l, u := l0, u0;
    if i - l < u - i {
      ok, depth := SortLeft(a, lt, l, i, u, s0, lo, hi);
      l := i + 1;
    } else {
      ok, depth := SortRight(a, lt, l, i, u, s0, lo, hi);
      u := i - 1;
    }
  }

  method SortLeft<T(!new)>(a: array<T>, lt: (T, T) -> bool, l: int, i: int, u: int, ghost s0: seq<T>, ghost lo: int,
                    ghost hi: int)
    returns (ok: bool, ghost depth: nat)
    requires 0 <= lo <= l < i <= u <= hi < a.Length && Rearranged(s0, a[..], lo, hi) && i - l < u - i
    requires StrictWeak(lt) ==> InOrderTwo(lt, a[..], lo, hi, l, i, u)
    modifies a
    ensures Rearranged(s0, a[..], lo, hi) && (StrictWeak(lt) ==> ok && InOrderBut(lt, a[..], lo, hi, i + 1, u))
    ensures Pow2(depth) <= Size(lo, hi)
    decreases i - l, 2
  {
    ghost var s := a[..];
    ok, depth := AuxSort(a, lt, l, i - 1);
    LeftDone(lt, s0, s, a[..], lo, hi, l, i, u);
    DepthNext(depth, i - l, hi - lo + 1);
    depth := depth + 1;
  }

  method SortRight<T(!new)>(a: array<T>, lt: (T, T) -> bool, l: int, i: int, u: int, ghost s0: seq<T>, ghost lo: int,
                     ghost hi: int)
    returns (ok: bool, ghost depth: nat)
    requires 0 <= lo <= l < i <= u <= hi < a.Length && Rearranged(s0, a[..], lo, hi) && i - l >= u - i
    requires StrictWeak(lt) ==> InOrderTwo(lt, a[..], lo, hi, l, i, u)
    modifies a
    ensures Rearranged(s0, a[..], lo, hi) && (StrictWeak(lt) ==> ok && InOrderBut(lt, a[..], lo, hi, l, i - 1))
    ensures Pow2(depth) <= Size(lo, hi)
    decreases u - i, 2
  {
    ghost var s := a[..];
    ok, depth := AuxSort(a, lt, i + 1, u);
    RightDone(lt, s0, s, a[..], lo, hi, l, i, u);
    DepthNext(depth, u - i, hi - lo + 1);
    depth := depth + 1;
  }

  lemma LeftDone<T(!new)>(lt: (T, T) -> bool, s0: seq<T>, s: seq<T>, s': seq<T>, lo: int, hi: int, l: int, i: int,
                   u: int)
    requires Rearranged(s0, s, lo, hi) && Rearranged(s, s', l, i - 1) && lo <= l <= i <= u <= hi < |s0|
    requires StrictWeak(lt) ==> InOrderTwo(lt, s, lo, hi, l, i, u) && IsSorted(lt, s', l, i - 1)
    ensures Rearranged(s0, s', lo, hi) && (StrictWeak(lt) ==> InOrderBut(lt, s', lo, hi, i + 1, u))
  {
    RearrangedWider(s, s', l, i - 1, lo, hi);
    RearrangedTwice(s0, s, s', lo, hi);
    if StrictWeak(lt) { SortedLeft(lt, s, s', lo, hi, l, i, u); }
  }

  lemma RightDone<T(!new)>(lt: (T, T) -> bool, s0: seq<T>, s: seq<T>, s': seq<T>, lo: int, hi: int, l: int, i: int,
                    u: int)
    requires Rearranged(s0, s, lo, hi) && Rearranged(s, s', i + 1, u) && lo <= l <= i <= u <= hi < |s0|
    requires StrictWeak(lt) ==> InOrderTwo(lt, s, lo, hi, l, i, u) && IsSorted(lt, s', i + 1, u)
    ensures Rearranged(s0, s', lo, hi) && (StrictWeak(lt) ==> InOrderBut(lt, s', lo, hi, l, i - 1))
  {
    RearrangedWider(s, s', i + 1, u, lo, hi);
    RearrangedTwice(s0, s, s', lo, hi);
    if StrictWeak(lt) { SortedRight(lt, s, s', lo, hi, l, i, u); }
  }

  /** A change within the part that is not in order yet. */
  lemma Inner<T(!new)>(lt: (T, T) -> bool, s0: seq<T>, s: seq<T>, s': seq<T>, lo: int, hi: int, l: int, u: int)
    requires Rearranged(s0, s, lo, hi) && Rearranged(s, s', l, u) && lo <= l && u <= hi < |s0|
    ensures Rearranged(s0, s', lo, hi) && (InOrderBut(lt, s, lo, hi, l, u) ==> InOrderBut(lt, s', lo, hi, l, u))
  {
    RearrangedWider(s, s', l, u, lo, hi);
    RearrangedTwice(s0, s, s', lo, hi);
    if InOrderBut(lt, s, lo, hi, l, u) { OrderKept(lt, s, s', lo, hi, l, u); }
  }

  /** table.sort */
  method TableSort<T(!new)>(a: array<T>, lt: (T, T) -> bool) returns (ok: bool)
    modifies a
    ensures multiset(a[..]) == multiset(old(a[..]))
    ensures StrictWeak(lt) ==> ok && IsSorted(lt, a[..], 0, a.Length - 1)
  {
    ghost var s, depth := a[..], 0;
    ok, depth := AuxSort(a, lt, 0, a.Length - 1);
    assert s[0..a.Length] == s && a[..][0..a.Length] == a[..];
  }
}
