/** Stable sorting, greatest first: what sort.SliceStable does for releases and for upstream releases. */
module Sorting {
  /** An order as a comparison function: a total preorder, so that distinct elements may tie. */
  ghost predicate TotalPreorder<T(!new)>(cmp: (T, T) -> int) {
    && (forall a, b :: cmp(a, b) >= 0 <==> cmp(b, a) <= 0)
    && (forall a, b, c :: cmp(a, b) >= 0 && cmp(b, c) >= 0 ==> cmp(a, c) >= 0)
  }

  ghost predicate GreatestFirst<T(!new)>(s: seq<T>, cmp: (T, T) -> int) {
    forall i, j | 0 <= i < j < |s| :: cmp(s[i], s[j]) >= 0
  }

  /** Insert x after everything that is not smaller. */
  function Insert<T>(s: seq<T>, x: T, cmp: (T, T) -> int): seq<T> {
    if s != [] && cmp(x, s[|s| - 1]) > 0 then Insert(s[..|s| - 1], x, cmp) + [s[|s| - 1]] else s + [x]
  }

  function Sorted<T>(s: seq<T>, cmp: (T, T) -> int): seq<T> {
    if s == [] then [] else Insert(Sorted(s[..|s| - 1], cmp), s[|s| - 1], cmp)
  }

  /** The elements that tie with x, in order. */
  function Ties<T>(s: seq<T>, x: T, cmp: (T, T) -> int): seq<T> {
    if s == [] then []
    else Ties(s[..|s| - 1], x, cmp) + if cmp(s[|s| - 1], x) == 0 then [s[|s| - 1]] else []
  }

  lemma {:induction false} InsertPermutes<T>(s: seq<T>, x: T, cmp: (T, T) -> int)
    ensures multiset(Insert(s, x, cmp)) == multiset(s) + multiset{x}
  {
    if s != [] && cmp(x, s[|s| - 1]) > 0 {
      InsertPermutes(s[..|s| - 1], x, cmp);
      assert s == s[..|s| - 1] + [s[|s| - 1]];
    }
  }

  lemma {:induction false} InsertKeepsOrder<T(!new)>(s: seq<T>, x: T, cmp: (T, T) -> int)
    requires TotalPreorder(cmp) && GreatestFirst(s, cmp)
    ensures GreatestFirst(Insert(s, x, cmp), cmp)
  {
    if s != [] && cmp(x, s[|s| - 1]) > 0 {
      var rest, last := s[..|s| - 1], s[|s| - 1];
      InsertKeepsOrder(rest, x, cmp);
      InsertPermutes(rest, x, cmp);
      var r := Insert(rest, x, cmp);
      forall i | 0 <= i < |r| ensures cmp(r[i], last) >= 0 {
        InMultiset(r, i);
        assert r[i] in rest || r[i] == x;
      }
      AppendKeepsOrder(r, last, cmp);
    } else {
      forall i | 0 <= i < |s| ensures cmp(s[i], x) >= 0 {
        assert cmp(s[|s| - 1], x) >= 0;
        assert i < |s| - 1 ==> cmp(s[i], s[|s| - 1]) >= 0;
      }
      AppendKeepsOrder(s, x, cmp);
    }
  }

  lemma InMultiset<T>(s: seq<T>, i: nat)
    requires i < |s|
    ensures s[i] in multiset(s)
  {
  }

  lemma AppendKeepsOrder<T(!new)>(s: seq<T>, x: T, cmp: (T, T) -> int)
    requires GreatestFirst(s, cmp)
    requires forall i | 0 <= i < |s| :: cmp(s[i], x) >= 0
    ensures GreatestFirst(s + [x], cmp)
  {
  }

  lemma {:induction false} InsertKeepsTies<T(!new)>(s: seq<T>, x: T, y: T, cmp: (T, T) -> int)
    requires TotalPreorder(cmp)
    ensures Ties(Insert(s, x, cmp), y, cmp) == Ties(s, y, cmp) + if cmp(x, y) == 0 then [x] else []
  {
    if s != [] && cmp(x, s[|s| - 1]) > 0 {
      var rest, last := s[..|s| - 1], s[|s| - 1];
      InsertKeepsTies(rest, x, y, cmp);
      var r := Insert(s, x, cmp);
      assert r[..|r| - 1] == Insert(rest, x, cmp) && r[|r| - 1] == last;
      TiesTogether(x, last, y, cmp);
    } else {
      assert (s + [x])[..|s|] == s;
    }
  }

  lemma TiesTogether<T(!new)>(x: T, last: T, y: T, cmp: (T, T) -> int)
    requires TotalPreorder(cmp) && cmp(x, last) > 0
    ensures cmp(x, y) != 0 || cmp(last, y) != 0
  {
    assert cmp(last, y) >= 0 && cmp(y, x) >= 0 ==> cmp(last, x) >= 0;
  }

  /** Sorting gives a permutation, greatest first, with tied elements in their old order. */
  lemma {:induction false} SortedIsStableSort<T(!new)>(s: seq<T>, cmp: (T, T) -> int)
    requires TotalPreorder(cmp)
    ensures multiset(Sorted(s, cmp)) == multiset(s)
    ensures GreatestFirst(Sorted(s, cmp), cmp)
    ensures forall y :: Ties(Sorted(s, cmp), y, cmp) == Ties(s, y, cmp)
  {
    if s != [] {
      var rest, x := s[..|s| - 1], s[|s| - 1];
      SortedIsStableSort(rest, cmp);
      InsertPermutes(Sorted(rest, cmp), x, cmp);
      InsertKeepsOrder(Sorted(rest, cmp), x, cmp);
      assert s == rest + [x];
      forall y ensures Ties(Sorted(s, cmp), y, cmp) == Ties(s, y, cmp) {
        InsertKeepsTies(Sorted(rest, cmp), x, y, cmp);
      }
    }
  }

  /** Two sequences that both are stable sorts of the same elements. */
  ghost predicate SameSort<T(!new)>(a: seq<T>, b: seq<T>, cmp: (T, T) -> int) {
    && multiset(a) == multiset(b)
    && GreatestFirst(a, cmp) && GreatestFirst(b, cmp)
    && forall y :: Ties(a, y, cmp) == Ties(b, y, cmp)
  }

  /** The properties above leave no choice: whatever stable sort is used, the result is the same. */
  lemma {:induction false} StableSortIsUnique<T(!new)>(a: seq<T>, b: seq<T>, cmp: (T, T) -> int)
    requires TotalPreorder(cmp) && SameSort(a, b, cmp)
    ensures a == b
  {
    hide Ties, GreatestFirst, TotalPreorder;
    assert |multiset(a)| == |a| && |multiset(b)| == |b|;
    if a != [] {
      Shorten(a, b, cmp);
      StableSortIsUnique(a[..|a| - 1], b[..|b| - 1], cmp);
      assert a == a[..|a| - 1] + [a[|a| - 1]] && b == b[..|b| - 1] + [b[|b| - 1]];
    }
  }

  lemma PrefixKeepsOrder<T(!new)>(s: seq<T>, cmp: (T, T) -> int)
    requires s != [] && GreatestFirst(s, cmp)
    ensures GreatestFirst(s[..|s| - 1], cmp)
  {
  }

  lemma Shorten<T(!new)>(a: seq<T>, b: seq<T>, cmp: (T, T) -> int)
    requires TotalPreorder(cmp) && SameSort(a, b, cmp) && |a| == |b| > 0
    ensures a[|a| - 1] == b[|b| - 1] && SameSort(a[..|a| - 1], b[..|b| - 1], cmp)
  {
    hide Ties, GreatestFirst, TotalPreorder;
    assert Ties(a, a[|a| - 1], cmp) == Ties(b, a[|a| - 1], cmp);
    LastAgree(a, b, cmp);
    var x, restA, restB := a[|a| - 1], a[..|a| - 1], b[..|b| - 1];
    assert a == restA + [x] && b == restB + [x];
    WithoutLast(restA, restB, x, cmp);
    PrefixKeepsOrder(a, cmp);
    PrefixKeepsOrder(b, cmp);
  }

  lemma WithoutLast<T(!new)>(a: seq<T>, b: seq<T>, x: T, cmp: (T, T) -> int)
    requires multiset(a + [x]) == multiset(b + [x])
    requires forall y :: Ties(a + [x], y, cmp) == Ties(b + [x], y, cmp)
    ensures multiset(a) == multiset(b)
    ensures forall y :: Ties(a, y, cmp) == Ties(b, y, cmp)
  {
    assert multiset(a) == multiset(a + [x]) - multiset{x};
    assert multiset(b) == multiset(b + [x]) - multiset{x};
    forall y ensures Ties(a, y, cmp) == Ties(b, y, cmp) {
      assert Ties(a + [x], y, cmp) == Ties(b + [x], y, cmp);
      TiesWithoutLast(a, b, x, y, cmp);
    }
  }

  lemma TiesWithoutLast<T>(a: seq<T>, b: seq<T>, x: T, y: T, cmp: (T, T) -> int)
    requires Ties(a + [x], y, cmp) == Ties(b + [x], y, cmp)
    ensures Ties(a, y, cmp) == Ties(b, y, cmp)
  {
    assert (a + [x])[..|a|] == a && (b + [x])[..|b|] == b;
    var tie := if cmp(x, y) == 0 then [x] else [];
    var l, r := Ties(a, y, cmp), Ties(b, y, cmp);
    assert l + tie == r + tie;
    assert l == (l + tie)[..|l|] && r == (r + tie)[..|r|];
  }

  lemma LastAgree<T(!new)>(a: seq<T>, b: seq<T>, cmp: (T, T) -> int)
    requires TotalPreorder(cmp)
    requires multiset(a) == multiset(b) && |a| == |b| > 0
    requires GreatestFirst(a, cmp) && GreatestFirst(b, cmp)
    requires Ties(a, a[|a| - 1], cmp) == Ties(b, a[|a| - 1], cmp)
    ensures a[|a| - 1] == b[|b| - 1]
  {
    var x, y := a[|a| - 1], b[|b| - 1];
    InMultiset(a, |a| - 1);
    InMultiset(b, |b| - 1);
    SmallestLast(a, y, cmp);
    SmallestLast(b, x, cmp);
    assert cmp(x, x) == 0 && cmp(y, x) == 0;
    assert Ties(a, x, cmp)[|Ties(a, x, cmp)| - 1] == x;
    assert Ties(b, x, cmp)[|Ties(b, x, cmp)| - 1] == y;
  }

  lemma SmallestLast<T(!new)>(s: seq<T>, x: T, cmp: (T, T) -> int)
    requires TotalPreorder(cmp) && GreatestFirst(s, cmp)
    requires s != [] && x in multiset(s)
    ensures cmp(x, s[|s| - 1]) >= 0
  {
    var i :| 0 <= i < |s| && s[i] == x;
    assert cmp(x, x) >= 0;
  }

  /** Sorting a slice in place. */
  method SortInPlace<T>(a: array<T>, cmp: (T, T) -> int)
    modifies a
    ensures a[..] == Sorted(old(a[..]), cmp)
  {
    ghost var was := a[..];
    for i := 0 to a.Length
      invariant a[..i] == Sorted(was[..i], cmp)
      invariant a[i..] == was[i..]
    {
      assert was[..i + 1][..i] == was[..i];
      assert a[i] == was[i];
      InsertInPlace(a, i, cmp);
      assert a[i + 1..] == was[i..][1..];
    }
    assert a[..] == a[..a.Length] && was == was[..a.Length];
  }

  /** Moves a[i] down to its place in the sorted part before it. */
  method InsertInPlace<T>(a: array<T>, i: nat, cmp: (T, T) -> int)
    requires i < a.Length
    modifies a
    ensures a[..i + 1] == Insert(old(a[..i]), old(a[i]), cmp)
    ensures a[i + 1..] == old(a[i + 1..])
  {
    hide Insert;
    ghost var sorted := a[..i];
    var x := a[i];
    var j := i;
    while j > 0 && cmp(x, a[j - 1]) > 0
      invariant j <= i
      invariant forall k | 0 <= k < j :: a[k] == sorted[k]
      invariant a[j] == x
      invariant forall k | j < k <= i :: a[k] == sorted[k - 1]
      invariant forall k | j <= k < i :: cmp(x, sorted[k]) > 0
      invariant forall k | i < k < a.Length :: a[k] == old(a[k])
    {
      a[j], a[j - 1] := a[j - 1], a[j];
      j := j - 1;
    }
    Shifted(sorted, a[..i + 1], x, j);
    InsertPosition(sorted, x, j, cmp);
  }

  lemma Shifted<T>(sorted: seq<T>, now: seq<T>, x: T, j: nat)
    requires j <= |sorted| && |now| == |sorted| + 1 && now[j] == x
    requires forall k | 0 <= k < j :: now[k] == sorted[k]
    requires forall k | j < k < |now| :: now[k] == sorted[k - 1]
    ensures now == sorted[..j] + [x] + sorted[j..]
  {
  }

  lemma {:induction false} InsertPosition<T>(s: seq<T>, x: T, j: nat, cmp: (T, T) -> int)
    requires j <= |s|
    requires j > 0 ==> cmp(x, s[j - 1]) <= 0
    requires forall k | j <= k < |s| :: cmp(x, s[k]) > 0
    ensures Insert(s, x, cmp) == s[..j] + [x] + s[j..]
  {
    if j < |s| {
      var rest := s[..|s| - 1];
      InsertPosition(rest, x, j, cmp);
      assert rest[..j] == s[..j] && rest[j..] + [s[|s| - 1]] == s[j..];
    }
  }
}
