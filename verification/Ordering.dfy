/** Stable sorting by a comparison, as the platforms' built-in sorts do it. */
module Ordering {

  ghost predicate TotalPreorder<T(!new)>(le: (T, T) -> bool) {
    && (forall a, b :: le(a, b) || le(b, a))
    && (forall a, b, c :: le(a, b) && le(b, c) ==> le(a, c))
  }

  ghost predicate SortedBy<T(!new)>(le: (T, T) -> bool, s: seq<T>) {
    forall i, j :: 0 <= i < j < |s| ==> le(s[i], s[j])
  }

  /** Put `x` behind every element that is not greater. */
  function Insert<T>(le: (T, T) -> bool, sorted: seq<T>, x: T): seq<T> {
    if sorted == [] then [x]
    else
      var n := |sorted| - 1;
      if le(sorted[n], x) then sorted + [x] else Insert(le, sorted[..n], x) + [sorted[n]]
  }

  /** Insertion in the order given: equal elements keep their order. */
  function Sort<T>(le: (T, T) -> bool, s: seq<T>): seq<T> {
    if s == [] then [] else Insert(le, Sort(le, s[..|s| - 1]), s[|s| - 1])
  }

  lemma {:induction false} InsertKeepsAll<T>(le: (T, T) -> bool, sorted: seq<T>, x: T)
    ensures multiset(Insert(le, sorted, x)) == multiset(sorted) + multiset{x}
  {
    if sorted != [] {
      var n := |sorted| - 1;
      assert sorted == sorted[..n] + [sorted[n]];
      InsertKeepsAll(le, sorted[..n], x);
    }
  }

  lemma InsertMembers<T>(le: (T, T) -> bool, sorted: seq<T>, x: T)
    ensures forall y :: y in Insert(le, sorted, x) <==> y in sorted || y == x
  {
    InsertKeepsAll(le, sorted, x);
    assert forall y :: y in Insert(le, sorted, x) <==> y in multiset(Insert(le, sorted, x));
    assert forall y :: y in sorted <==> y in multiset(sorted);
  }

  lemma {:induction false} InsertSorted<T(!new)>(le: (T, T) -> bool, sorted: seq<T>, x: T)
    requires TotalPreorder(le) && SortedBy(le, sorted)
    ensures SortedBy(le, Insert(le, sorted, x))
  {
    if sorted != [] {
      var n := |sorted| - 1;
      if le(sorted[n], x) {
        assert forall i :: 0 <= i < n ==> le(sorted[i], sorted[n]);
      } else {
        InsertSorted(le, sorted[..n], x);
        InsertMembers(le, sorted[..n], x);
        var front := Insert(le, sorted[..n], x);
        assert forall i :: 0 <= i < |front| ==> front[i] in front;
        assert forall y :: y in sorted[..n] ==> le(y, sorted[n]);
      }
    }
  }

  lemma {:induction false} SortKeepsAll<T>(le: (T, T) -> bool, s: seq<T>)
    ensures multiset(Sort(le, s)) == multiset(s)
  {
    if s != [] {
      var n := |s| - 1;
      assert s == s[..n] + [s[n]];
      SortKeepsAll(le, s[..n]);
      InsertKeepsAll(le, Sort(le, s[..n]), s[n]);
    }
  }

  lemma {:induction false} SortSorted<T(!new)>(le: (T, T) -> bool, s: seq<T>)
    requires TotalPreorder(le)
    ensures SortedBy(le, Sort(le, s))
  {
    if s != [] {
      SortSorted(le, s[..|s| - 1]);
      InsertSorted(le, Sort(le, s[..|s| - 1]), s[|s| - 1]);
    }
  }

  lemma SortCorrect<T(!new)>(le: (T, T) -> bool, s: seq<T>)
    requires TotalPreorder(le)
    ensures SortedBy(le, Sort(le, s)) && multiset(Sort(le, s)) == multiset(s) && |Sort(le, s)| == |s|
  {
    SortSorted(le, s);
    SortKeepsAll(le, s);
    assert |multiset(Sort(le, s))| == |Sort(le, s)| && |multiset(s)| == |s|;
  }

  lemma SortMembers<T>(le: (T, T) -> bool, s: seq<T>)
    ensures forall x :: x in Sort(le, s) <==> x in s
  {
    SortKeepsAll(le, s);
    assert forall x :: x in Sort(le, s) <==> x in multiset(Sort(le, s));
    assert forall x :: x in s <==> x in multiset(s);
  }

  // ---- stability ---------------------------------------------------------------------------------

  ghost predicate NoRepeats<T>(s: seq<T>) { forall i, j :: 0 <= i < j < |s| ==> s[i] != s[j] }

  ghost predicate Earlier<T>(s: seq<T>, x: T, y: T) { exists i, j :: 0 <= i < j < |s| && s[i] == x && s[j] == y }

  /** `x` is smaller, or as small and earlier in the list. */
  ghost predicate Precedes<T>(le: (T, T) -> bool, s: seq<T>, x: T, y: T) {
    le(x, y) && (le(y, x) ==> Earlier(s, x, y))
  }

  ghost predicate Stable<T>(le: (T, T) -> bool, s: seq<T>, sorted: seq<T>) {
    forall i, j :: 0 <= i < j < |sorted| ==> Precedes(le, s, sorted[i], sorted[j])
  }

  /** Where insertion puts the new element: behind the last one that is not greater. */
  lemma {:induction false} InsertSplits<T>(le: (T, T) -> bool, sorted: seq<T>, x: T) returns (k: nat)
    ensures k <= |sorted| && Insert(le, sorted, x) == sorted[..k] + [x] + sorted[k..]
    ensures k > 0 ==> le(sorted[k - 1], x)
    ensures forall i :: k <= i < |sorted| ==> !le(sorted[i], x)
  {
    var n := |sorted| - 1;
    if sorted == [] {
      k := 0;
    } else if le(sorted[n], x) {
      k := n + 1;
    } else {
      k := InsertSplits(le, sorted[..n], x);
      assert sorted[k..] == sorted[..n][k..] + [sorted[n]];
    }
  }

  lemma InsertStable<T(!new)>(le: (T, T) -> bool, s: seq<T>, sorted: seq<T>, x: T)
    requires TotalPreorder(le) && Stable(le, s, sorted) && SortedBy(le, sorted) && forall y :: y in sorted ==> y in s
    ensures Stable(le, s + [x], Insert(le, sorted, x))
  {
    var k := InsertSplits(le, sorted, x);
    var t := Insert(le, sorted, x);
    forall i, j | 0 <= i < j < |t|
      ensures Precedes(le, s + [x], t[i], t[j])
    {
      if j == k {
        assert t[i] == sorted[i] && le(sorted[i], sorted[k - 1]);
        EarlierThanLast(s, t[i], x);
      } else if i == k {
        assert t[j] == sorted[j - 1];
      } else {
        var i', j' := if i < k then i else i - 1, if j < k then j else j - 1;
        assert t[i] == sorted[i'] && t[j] == sorted[j'];
        PrecedesLonger(le, s, x, t[i], t[j]);
      }
    }
  }

  lemma EarlierThanLast<T>(s: seq<T>, y: T, x: T)
    requires y in s
    ensures Earlier(s + [x], y, x)
  {
    var i :| 0 <= i < |s| && s[i] == y;
    assert (s + [x])[i] == y && (s + [x])[|s|] == x;
  }

  lemma PrecedesLonger<T>(le: (T, T) -> bool, s: seq<T>, x: T, y: T, z: T)
    requires Precedes(le, s, y, z)
    ensures Precedes(le, s + [x], y, z)
  {
    if Earlier(s, y, z) {
      var i, j :| 0 <= i < j < |s| && s[i] == y && s[j] == z;
      assert (s + [x])[i] == y && (s + [x])[j] == z;
    }
  }

  /** Equal elements keep their order. */
  lemma {:induction false} SortStable<T(!new)>(le: (T, T) -> bool, s: seq<T>)
    requires TotalPreorder(le)
    ensures Stable(le, s, Sort(le, s))
  {
    if s != [] {
      var n := |s| - 1;
      SortStable(le, s[..n]);
      SortSorted(le, s[..n]);
      SortMembers(le, s[..n]);
      InsertStable(le, s[..n], Sort(le, s[..n]), s[n]);
      assert s == s[..n] + [s[n]];
    }
  }

  lemma PrecedesOneWay<T>(le: (T, T) -> bool, s: seq<T>, x: T, y: T)
    requires NoRepeats(s) && Precedes(le, s, x, y)
    ensures !Precedes(le, s, y, x)
  {
    if le(y, x) {
      var i, j :| 0 <= i < j < |s| && s[i] == x && s[j] == y;
    }
  }

  // ---- two orders of the same elements -----------------------------------------------------------

  ghost predicate OneWay<T(!new)>(p: (T, T) -> bool) { forall x, y :: p(x, y) ==> !p(y, x) }

  /** The first `n` elements of `a` stand to all elements under one order as under the other. */
  ghost predicate SameStanding<T(!new)>(p: (T, T) -> bool, q: (T, T) -> bool, a: seq<T>, n: nat)
    requires n <= |a|
  {
    forall i, y :: 0 <= i < n && y in a ==> (p(a[i], y) <==> q(a[i], y))
  }

  lemma DropSame<T>(a: seq<T>, b: seq<T>, k: nat)
    requires multiset(a) == multiset(b) && k <= |a| && |a| == |b| && a[..k] == b[..k]
    ensures multiset(a[k..]) == multiset(b[k..])
  {
    Dropped(a, k);
    Dropped(b, k);
  }

  lemma Dropped<T>(s: seq<T>, k: nat)
    requires k <= |s|
    ensures multiset(s[k..]) == multiset(s) - multiset(s[..k])
  {
    assert s == s[..k] + s[k..];
  }

  lemma HeadIsMember<T>(a: seq<T>, b: seq<T>, k: nat) returns (i: nat)
    requires |a| == |b| && k < |a| && multiset(a[k..]) == multiset(b[k..])
    ensures k <= i < |a| && a[i] == b[k]
  {
    assert b[k..][0] == b[k];
    assert b[k] in multiset(b[k..]);
    assert b[k] in a[k..];
    i :| 0 <= i < |a[k..]| && a[k..][i] == b[k];
    i := i + k;
  }

  lemma {:induction false} SameStandingSameFront<T(!new)>(p: (T, T) -> bool, q: (T, T) -> bool, a: seq<T>, b: seq<T>,
                                                          n: nat)
    requires SortedBy(p, a) && SortedBy(q, b) && OneWay(q) && multiset(a) == multiset(b) && n <= |a| == |b|
    requires SameStanding(p, q, a, n)
    ensures a[..n] == b[..n]
  {
    if n > 0 {
      var k := n - 1;
      SameStandingSameFront(p, q, a, b, k);
      DropSame(a, b, k);
      var i := HeadIsMember(a, b, k);
      var j := HeadIsMember(b, a, k);
      assert a[i] in a;
      assert p(a[k], a[i]) || i == k;
      assert q(a[k], a[i]) || i == k;
      assert q(b[k], b[j]) || j == k;
      assert a[..n] == a[..k] + [a[k]] && b[..n] == b[..k] + [b[k]];
    }
  }

  lemma SameFrontSameStanding<T(!new)>(p: (T, T) -> bool, q: (T, T) -> bool, a: seq<T>, b: seq<T>, n: nat)
    requires SortedBy(p, a) && SortedBy(q, b) && OneWay(p) && OneWay(q) && NoRepeats(a) && NoRepeats(b)
    requires multiset(a) == multiset(b) && n <= |a| == |b| && a[..n] == b[..n]
    ensures SameStanding(p, q, a, n)
  {
    SameMembers(a, b);
    forall i, y | 0 <= i < n && y in a
      ensures p(a[i], y) <==> q(a[i], y)
    {
      var j :| 0 <= j < |a| && a[j] == y;
      var k :| 0 <= k < |b| && b[k] == y;
      SamePlace(a, b, n, i, j, k);
      assert b[i] == b[..n][i] == a[..n][i] == a[i];
    }
  }

  /** An element is before, at or behind a place of the common front in both lists alike. */
  lemma SamePlace<T>(a: seq<T>, b: seq<T>, n: nat, i: nat, j: nat, k: nat)
    requires NoRepeats(a) && NoRepeats(b) && i < n <= |a| && n <= |b| && a[..n] == b[..n]
    requires j < |a| && k < |b| && a[j] == b[k]
    ensures (j < i <==> k < i) && (j == i <==> k == i)
  {
    if j < n { assert b[j] == b[..n][j] == a[..n][j] == a[j]; }
    if k < n { assert a[k] == a[..n][k] == b[..n][k] == b[k]; }
  }

  lemma LastIsGreatest<T(!new)>(le: (T, T) -> bool, s: seq<T>, x: T)
    requires SortedBy(le, s) && x in s
    ensures x == s[|s| - 1] || le(x, s[|s| - 1])
  {
    var i :| 0 <= i < |s| && s[i] == x;
  }

  lemma WithoutLast<T>(s: seq<T>)
    requires s != []
    ensures multiset(s[..|s| - 1]) == multiset(s) - multiset{s[|s| - 1]}
  {
    assert s == s[..|s| - 1] + [s[|s| - 1]];
  }

  lemma SameMembers<T>(a: seq<T>, b: seq<T>)
    requires multiset(a) == multiset(b)
    ensures |a| == |b| && forall x :: x in a <==> x in b
  {
    assert |multiset(a)| == |a| && |multiset(b)| == |b|;
    assert forall x :: x in a <==> x in multiset(a);
    assert forall x :: x in b <==> x in multiset(b);
  }
}
