/** Keeping the first element of each kind, in the order of the list. */
module FirstSeen {

  /** Drop every element whose key an earlier element already has. */
  function DistinctBy<T, K(==)>(key: T -> K, s: seq<T>): seq<T> {
    if s == [] then []
    else
      var earlier := DistinctBy(key, s[..|s| - 1]);
      var last := s[|s| - 1];
      if exists k :: 0 <= k < |earlier| && key(earlier[k]) == key(last) then earlier else earlier + [last]
  }

  function Keys<T, K(==)>(key: T -> K, s: seq<T>): set<K> { set k | 0 <= k < |s| :: key(s[k]) }

  lemma KeysSnoc<T, K>(key: T -> K, s: seq<T>, x: T)
    ensures Keys(key, s + [x]) == Keys(key, s) + {key(x)}
  {
    var t := s + [x];
    assert t[|s|] == x && forall k :: 0 <= k < |s| ==> t[k] == s[k];
    assert key(t[|s|]) in Keys(key, t);
    forall y | y in Keys(key, s)
      ensures y in Keys(key, t)
    {
      var k :| 0 <= k < |s| && key(s[k]) == y;
      assert key(t[k]) == y;
    }
  }

  lemma DistinctBySnoc<T, K>(key: T -> K, s: seq<T>, x: T)
    ensures DistinctBy(key, s + [x]) ==
            DistinctBy(key, s) + if key(x) in Keys(key, DistinctBy(key, s)) then [] else [x]
  {
    assert (s + [x])[..|s|] == s;
  }

  function Itself<T>(): T -> T { (x: T) => x }

  lemma OwnKeys<T>(s: seq<T>, x: T)
    ensures x in Keys(Itself(), s) <==> x in s
  {
    if x in s {
      var k :| 0 <= k < |s| && s[k] == x;
      assert Itself()(s[k]) in Keys(Itself(), s);
    }
  }

  /** No key is lost. */
  lemma {:induction false} DistinctByKeys<T, K>(key: T -> K, s: seq<T>)
    ensures Keys(key, DistinctBy(key, s)) == Keys(key, s)
  {
    if s != [] {
      var n := |s| - 1;
      assert s == s[..n] + [s[n]];
      DistinctByKeys(key, s[..n]);
      KeysSnoc(key, s[..n], s[n]);
      DistinctBySnoc(key, s[..n], s[n]);
      KeysSnoc(key, DistinctBy(key, s[..n]), s[n]);
    }
  }

  ghost predicate FirstOfItsKey<T, K>(key: T -> K, s: seq<T>, i: nat)
    requires i < |s|
  {
    forall j :: 0 <= j < i ==> key(s[j]) != key(s[i])
  }

  /** `at` lists, in increasing order, exactly the positions where a key shows up for the first time. */
  ghost predicate FirstPositions<T, K>(key: T -> K, s: seq<T>, at: seq<nat>) {
    && (forall i, j :: 0 <= i < j < |at| ==> at[i] < at[j])
    && (forall i :: i in at ==> i < |s|)
    && (forall i: nat :: i < |s| ==> (i in at <==> FirstOfItsKey(key, s, i)))
  }

  lemma FirstPositionsSnoc<T, K>(key: T -> K, s: seq<T>, x: T, at: seq<nat>)
    requires FirstPositions(key, s, at)
    ensures FirstPositions(key, s + [x], at + if key(x) in Keys(key, s) then [] else [|s|])
  {
    var t := s + [x];
    var more := at + if key(x) in Keys(key, s) then [] else [|s|];
    assert t[|s|] == x && forall j :: 0 <= j < |s| ==> t[j] == s[j];
    forall i: nat | i < |t|
      ensures i in more <==> FirstOfItsKey(key, t, i)
    {
      if i == |s| {
        assert |s| !in at;
        assert FirstOfItsKey(key, t, |s|) <==> key(x) !in Keys(key, s);
      } else {
        assert FirstOfItsKey(key, s, i) <==> FirstOfItsKey(key, t, i);
        assert i in more <==> i in at;
      }
    }
    assert forall i :: i in more ==> i < |t|;
    assert forall i :: 0 <= i < |at| ==> at[i] in at;
  }

  /** What is kept is what stands at the first positions. */
  lemma {:induction false} DistinctByIsFirsts<T, K>(key: T -> K, s: seq<T>) returns (at: seq<nat>)
    ensures FirstPositions(key, s, at)
    ensures |at| == |DistinctBy(key, s)|
    ensures forall k :: 0 <= k < |at| ==> at[k] < |s| && DistinctBy(key, s)[k] == s[at[k]]
  {
    if s == [] {
      at := [];
    } else {
      var n := |s| - 1;
      var before := DistinctByIsFirsts(key, s[..n]);
      assert s == s[..n] + [s[n]];
      FirstPositionsSnoc(key, s[..n], s[n], before);
      DistinctByKeys(key, s[..n]);
      DistinctBySnoc(key, s[..n], s[n]);
      at := before + if key(s[n]) in Keys(key, s[..n]) then [] else [n];
      assert forall k :: 0 <= k < |before| ==> at[k] == before[k];
    }
  }

  /** Hence no two kept elements share a key. */
  lemma KeptKeysDiffer<T, K>(key: T -> K, s: seq<T>)
    ensures forall i, j :: 0 <= i < j < |DistinctBy(key, s)| ==>
                             key(DistinctBy(key, s)[i]) != key(DistinctBy(key, s)[j])
  {
    var at := DistinctByIsFirsts(key, s);
    forall i, j | 0 <= i < j < |DistinctBy(key, s)|
      ensures key(DistinctBy(key, s)[i]) != key(DistinctBy(key, s)[j])
    {
      assert at[j] in at;
      assert FirstOfItsKey(key, s, at[j]);
    }
  }

  /** Dropping repetitions drops no member. */
  lemma DistinctMembers<T>(s: seq<T>, x: T)
    ensures x in DistinctBy(Itself(), s) <==> x in s
  {
    DistinctByKeys(Itself(), s);
    OwnKeys(s, x);
    OwnKeys(DistinctBy(Itself(), s), x);
  }
}
