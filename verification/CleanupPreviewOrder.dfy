/** What the cleanup preview promises: it adds up, it shows the largest groups, and when it depends on order. */
module CleanupPreviewOrder {
  import opened Text
  import opened Ordering
  import opened FirstSeen
  import opened CleanupPreview

  lemma BeforeIsAnOrder(collate: (string, string) -> bool)
    requires TotalPreorder(collate)
    ensures TotalPreorder(Before(collate))
  {
    var le := Before(collate);
    forall a, b
      ensures le(a, b) || le(b, a)
    {
      assert collate(a.sender, b.sender) || collate(b.sender, a.sender);
    }
    forall a, b, c | le(a, b) && le(b, c)
      ensures le(a, c)
    {
      if a.count == b.count == c.count { assert collate(a.sender, b.sender) && collate(b.sender, c.sender); }
    }
  }

  // ---- shown and remaining add up ----------------------------------------------------------------

  function CountSum(entries: seq<Entry>): nat {
    if entries == [] then 0 else CountSum(entries[..|entries| - 1]) + entries[|entries| - 1].count
  }

  function ShownCount(rows: seq<TargetRow>): int {
    if rows == [] then 0 else ShownCount(rows[..|rows| - 1]) + OrElse(rows[|rows| - 1].count, 0)
  }

  /** Messages, or threads, that the preview does not show. */
  function RemainingCount(t: Targets): int {
    AtLeastZero(t.total - if t.scope == Messages then ShownCount(t.rows) else |t.rows|)
  }

  lemma SumSnoc(entries: seq<Entry>, e: Entry)
    ensures CountSum(entries + [e]) == CountSum(entries) + e.count
  {
    assert (entries + [e])[..|entries|] == entries;
  }

  lemma {:induction false} SumAppend(a: seq<Entry>, b: seq<Entry>)
    ensures CountSum(a + b) == CountSum(a) + CountSum(b)
  {
    if b == [] {
      AppendNothing(a);
    } else {
      var n := |b| - 1;
      assert b == b[..n] + [b[n]];
      SumAppend(a, b[..n]);
      Regroup(a, b[..n], [b[n]]);
      SumSnoc(a + b[..n], b[n]);
    }
  }

  lemma {:induction false} SumInsert(le: (Entry, Entry) -> bool, sorted: seq<Entry>, e: Entry)
    ensures CountSum(Insert(le, sorted, e)) == CountSum(sorted) + e.count
  {
    if sorted == [] {
      assert CountSum([e]) == e.count;
    } else {
      var n := |sorted| - 1;
      SumSnoc(sorted, e);
      SumInsert(le, sorted[..n], e);
      SumSnoc(Insert(le, sorted[..n], e), sorted[n]);
    }
  }

  lemma {:induction false} SumSort(le: (Entry, Entry) -> bool, entries: seq<Entry>)
    ensures CountSum(Sort(le, entries)) == CountSum(entries)
  {
    if entries != [] {
      var n := |entries| - 1;
      SumSort(le, entries[..n]);
      SumInsert(le, Sort(le, entries[..n]), entries[n]);
    }
  }

  lemma {:induction false} OneMoreName(names: seq<string>, name: string, senders: seq<string>)
    requires forall i, j :: 0 <= i < j < |senders| ==> senders[i] != senders[j]
    ensures CountSum(EntriesFor(names + [name], senders)) ==
            CountSum(EntriesFor(names, senders)) + if name in senders then 1 else 0
  {
    if senders != [] {
      var n := |senders| - 1;
      OneMoreName(names, name, senders[..n]);
      assert senders == senders[..n] + [senders[n]];
      EntriesForSnoc(names, senders[..n], senders[n]);
      EntriesForSnoc(names + [name], senders[..n], senders[n]);
    }
  }

  lemma EntriesForSnoc(names: seq<string>, senders: seq<string>, sender: string)
    ensures CountSum(EntriesFor(names, senders + [sender])) ==
            CountSum(EntriesFor(names, senders)) + multiset(names)[sender]
  {
    assert EntriesFor(names, senders + [sender]) == EntriesFor(names, senders) + [EntryOf(names, sender)];
    SumSnoc(EntriesFor(names, senders), EntryOf(names, sender));
  }

  lemma SendersDiffer(names: seq<string>)
    ensures forall i, j :: 0 <= i < j < |Senders(names)| ==> Senders(names)[i] != Senders(names)[j]
  {
    KeptKeysDiffer(Itself(), names);
    assert forall i, j :: 0 <= i < j < |Senders(names)| ==> Itself()(Senders(names)[i]) != Itself()(Senders(names)[j]);
  }

  lemma {:induction false} GroupsHoldEverything(names: seq<string>)
    ensures CountSum(Entries(names)) == |names|
  {
    if names != [] {
      var n := |names| - 1;
      var front, name := names[..n], names[n];
      assert names == front + [name];
      GroupsHoldEverything(front);
      SendersSnoc(front, name);
      SendersDiffer(front);
      OneMoreName(front, name, Senders(front));
      if name !in front { EntriesForSnoc(names, Senders(front), name); }
    }
  }

  lemma {:induction false} ShownIsSum(entries: seq<Entry>)
    ensures ShownCount(RowsOf(entries)) == CountSum(entries)
  {
    if entries != [] {
      var n := |entries| - 1;
      ShownIsSum(entries[..n]);
      assert RowsOf(entries)[..n] == RowsOf(entries[..n]);
    }
  }

  lemma {:induction false} NonEmptyCounts(entries: seq<Entry>)
    requires forall e :: e in entries ==> e.count > 0
    ensures CountSum(entries) >= |entries|
  {
    if entries != [] { NonEmptyCounts(entries[..|entries| - 1]); }
  }

  lemma TopAndRest(p: Platform, names: seq<string>)
    ensures var all := Ranked(p, names);
            && CountSum(Top(p, names)) + CountSum(all[|Top(p, names)|..]) == |names|
            && CountSum(all[|Top(p, names)|..]) >= |all| - |Top(p, names)|
  {
    var all, k := Ranked(p, names), |Top(p, names)|;
    assert all == all[..k] + all[k..];
    SumAppend(all[..k], all[k..]);
    SumSort(Before(p.collate), Entries(names));
    GroupsHoldEverything(names);
    TopIsNamed(p, names);
    assert Top(p, names) == all[..k];
    assert forall e :: e in all[k..] ==> e in all;
    NonEmptyCounts(all[k..]);
  }

  /** When the plan's count is the length of its safe list, as every new plan's is, shown and remaining
      add up to the total, and the preview says "truncated" exactly when something remains. */
  lemma PreviewAddsUp(p: Platform, action: Option<string>, provider: Option<string>, plan: Plan)
    requires plan.safeCount == None || plan.safeCount == Some(|plan.safe|)
    ensures var t := BackendTargets(p, action, provider, Some(plan));
            && t.total == |plan.safe|
            && ShownCount(t.rows) + RemainingCount(t) == t.total
            && (t.truncated <==> RemainingCount(t) > 0)
  {
    var names := Names(p, plan.safe);
    TopAndRest(p, names);
    ShownIsSum(Top(p, names));
    if |Ranked(p, names)| == |Top(p, names)| {
      assert Ranked(p, names)[|Top(p, names)|..] == [];
    }
  }

  /** For any stored count the sum holds exactly when the count covers what is shown, and "truncated"
      tells the truth exactly when the count exceeds what is shown, or, with all senders shown, does not
      exceed the list. */
  lemma AnyCountAddsUpIff(p: Platform, plan: Plan)
    ensures var t := BackendTargets(p, None, None, Some(plan));
            && (ShownCount(t.rows) + RemainingCount(t) == t.total <==> t.total >= ShownCount(t.rows))
            && ((t.truncated <==> RemainingCount(t) > 0) <==>
                if |Senders(Names(p, plan.safe))| > MAX_TARGET_ROWS
                then t.total > ShownCount(t.rows) else t.total <= |plan.safe|)
  {
    var names := Names(p, plan.safe);
    TopAndRest(p, names);
    ShownIsSum(Top(p, names));
    RankedLength(p, names);
    if |Ranked(p, names)| == |Top(p, names)| {
      assert Ranked(p, names)[|Top(p, names)|..] == [];
    }
  }

  /** A stored count of zero, for instance, fails on both for a plan with many senders. */
  lemma StaleCountBreaksTheSum(p: Platform, plan: Plan)
    requires |Senders(Names(p, plan.safe))| > MAX_TARGET_ROWS && plan.safeCount == Some(0)
    ensures var t := BackendTargets(p, None, None, Some(plan));
            t.truncated && RemainingCount(t) == 0 && ShownCount(t.rows) > t.total
  {
    var names := Names(p, plan.safe);
    ShownIsSum(Top(p, names));
    TopIsNamed(p, names);
    RankedLength(p, names);
    assert forall e :: e in Top(p, names) ==> e in Ranked(p, names);
    NonEmptyCounts(Top(p, names));
  }

  // ---- the largest groups are shown --------------------------------------------------------------

  lemma EntriesMembers(names: seq<string>, e: Entry)
    ensures e in Entries(names) <==> e.sender in names && e.count == multiset(names)[e.sender]
  {
    SendersSnoc(names, e.sender);
    if e.sender in names && e.count == multiset(names)[e.sender] {
      var i :| 0 <= i < |Senders(names)| && Senders(names)[i] == e.sender;
      assert Entries(names)[i] == e;
    }
  }

  lemma RankedMembers(p: Platform, names: seq<string>, e: Entry)
    ensures e in Ranked(p, names) <==> e.sender in names && e.count == multiset(names)[e.sender]
  {
    SortMembers(Before(p.collate), Entries(names));
    EntriesMembers(names, e);
  }

  /** Every sender left out comes after every sender shown, and has at most as many messages. */
  lemma TopIsLargest(p: Platform, names: seq<string>, shown: Entry, hidden: Entry)
    requires TotalPreorder(p.collate)
    requires shown in Top(p, names) && hidden in Ranked(p, names) && hidden !in Top(p, names)
    ensures Before(p.collate)(shown, hidden) && shown.count >= hidden.count
    ensures |Top(p, names)| == MAX_TARGET_ROWS
  {
    BeforeIsAnOrder(p.collate);
    SortSorted(Before(p.collate), Entries(names));
    var all := Ranked(p, names);
    var i :| 0 <= i < |Top(p, names)| && Top(p, names)[i] == shown;
    var j :| 0 <= j < |all| && all[j] == hidden;
    assert all[i] == shown;
    assert forall k :: 0 <= k < |Top(p, names)| ==> Top(p, names)[k] == all[k] && Top(p, names)[k] in Top(p, names);
    assert i < |Top(p, names)| <= j;
  }

  // ---- dependence on the order of the safe list --------------------------------------------------

  lemma {:induction false} OnceEach<T>(s: seq<T>, x: T)
    requires NoRepeats(s)
    ensures multiset(s)[x] == if x in s then 1 else 0
  {
    if s != [] {
      var n := |s| - 1;
      assert s == s[..n] + [s[n]];
      OnceEach(s[..n], x);
      assert s[n] !in s[..n];
    }
  }

  lemma CountedTwice<T>(s: seq<T>, i: nat, j: nat)
    requires i < j < |s| && s[i] == s[j]
    ensures multiset(s)[s[i]] >= 2
  {
    assert s == s[..j] + s[j..];
    assert s[..j][i] in s[..j] && s[j..][0] in s[j..];
  }

  lemma NoRepeatsAfterSorting<T>(a: seq<T>, b: seq<T>)
    requires NoRepeats(a) && multiset(a) == multiset(b)
    ensures NoRepeats(b)
  {
    forall i, j | 0 <= i < j < |b|
      ensures b[i] != b[j]
    {
      OnceEach(a, b[i]);
      if b[i] == b[j] { CountedTwice(b, i, j); }
    }
  }

  lemma EntriesDiffer(names: seq<string>)
    ensures NoRepeats(Entries(names))
  {
    SendersDiffer(names);
  }

  /** Reordering the names reorders the groups. */
  lemma SameGroups(a: seq<string>, b: seq<string>)
    requires multiset(a) == multiset(b)
    ensures multiset(Entries(a)) == multiset(Entries(b))
  {
    SameMembers(a, b);
    EntriesDiffer(a);
    EntriesDiffer(b);
    forall e
      ensures multiset(Entries(a))[e] == multiset(Entries(b))[e]
    {
      OnceEach(Entries(a), e);
      OnceEach(Entries(b), e);
      EntriesMembers(a, e);
      EntriesMembers(b, e);
    }
  }

  /** Two senders that the ranking cannot tell apart. */
  predicate Tied(collate: (string, string) -> bool, a: Entry, b: Entry) {
    Before(collate)(a, b) && Before(collate)(b, a)
  }

  /** No shown sender ties with another sender. */
  ghost predicate NoVisibleTie(p: Platform, names: seq<string>) {
    forall shown, other :: shown in Top(p, names) && other in Ranked(p, names) && Tied(p.collate, shown, other) ==>
                             shown == other
  }

  lemma NextIsSame<T(!new)>(le: (T, T) -> bool, a: seq<T>, b: seq<T>, k: nat)
    requires TotalPreorder(le) && SortedBy(le, a) && SortedBy(le, b) && multiset(a) == multiset(b)
    requires |a| == |b| && k < |a| && a[..k] == b[..k]
    requires forall x :: x in a && le(a[k], x) && le(x, a[k]) ==> x == a[k]
    ensures a[k] == b[k]
  {
    DropSame(a, b, k);
    var i := HeadIsMember(a, b, k);
    var j := HeadIsMember(b, a, k);
    assert le(a[k], b[k]) && le(b[k], a[k]);
  }

  lemma {:induction false} SamePrefix<T(!new)>(le: (T, T) -> bool, a: seq<T>, b: seq<T>, n: nat)
    requires TotalPreorder(le) && SortedBy(le, a) && SortedBy(le, b) && multiset(a) == multiset(b)
    requires |a| == |b| && n <= |a|
    requires forall k, x :: 0 <= k < n && x in a && le(a[k], x) && le(x, a[k]) ==> x == a[k]
    ensures a[..n] == b[..n]
  {
    if n > 0 {
      SamePrefix(le, a, b, n - 1);
      NextIsSame(le, a, b, n - 1);
      assert a[..n] == a[..n - 1] + [a[n - 1]] && b[..n] == b[..n - 1] + [b[n - 1]];
    }
  }

  /** Without a visible tie the shown rows are the same for every order of the names. */
  lemma RowsIgnoreOrder(p: Platform, names: seq<string>, names': seq<string>)
    requires TotalPreorder(p.collate) && NoVisibleTie(p, names) && multiset(names) == multiset(names')
    ensures Top(p, names) == Top(p, names')
  {
    var le := Before(p.collate);
    BeforeIsAnOrder(p.collate);
    SameGroups(names, names');
    SortCorrect(le, Entries(names));
    SortCorrect(le, Entries(names'));
    var a, b := Ranked(p, names), Ranked(p, names');
    SameMembers(a, b);
    var n := |Top(p, names)|;
    assert Top(p, names) == a[..n];
    forall k, x | 0 <= k < n && x in a && le(a[k], x) && le(x, a[k])
      ensures x == a[k]
    {
      assert Top(p, names)[k] == a[k];
      assert Tied(p.collate, a[k], x);
    }
    SamePrefix(le, a, b, n);
  }

  // ---- a visible tie shows -----------------------------------------------------------------------

  /** The rows of one sender, or the others, in order. */
  function Pick(p: Platform, safe: seq<Option<string>>, name: string, want: bool): seq<Option<string>> {
    if safe == [] then []
    else
      var last := safe[|safe| - 1];
      Pick(p, safe[..|safe| - 1], name, want) + if (DisplaySender(p, last) == name) == want then [last] else []
  }

  function ToFront(p: Platform, safe: seq<Option<string>>, name: string): seq<Option<string>> {
    Pick(p, safe, name, true) + Pick(p, safe, name, false)
  }

  lemma {:induction false} ToFrontReorders(p: Platform, safe: seq<Option<string>>, name: string)
    ensures multiset(ToFront(p, safe, name)) == multiset(safe)
    ensures forall r :: r in Pick(p, safe, name, true) ==> DisplaySender(p, r) == name
  {
    if safe != [] {
      var n := |safe| - 1;
      assert safe == safe[..n] + [safe[n]];
      ToFrontReorders(p, safe[..n], name);
    }
  }

  lemma {:induction false} PickFinds(p: Platform, safe: seq<Option<string>>, name: string)
    requires name in Names(p, safe)
    ensures Pick(p, safe, name, true) != []
  {
    var n := |safe| - 1;
    NamesSnoc(p, safe[..n], safe[n]);
    assert safe == safe[..n] + [safe[n]];
    if name in Names(p, safe[..n]) { PickFinds(p, safe[..n], name); }
  }

  lemma FirstName(p: Platform, safe: seq<Option<string>>, name: string)
    requires name in Names(p, safe)
    ensures var names := Names(p, ToFront(p, safe, name)); names != [] && names[0] == name
  {
    PickFinds(p, safe, name);
    ToFrontReorders(p, safe, name);
    assert ToFront(p, safe, name)[0] in Pick(p, safe, name, true);
  }

  lemma {:induction false} FirstSenderStays(names: seq<string>)
    requires names != []
    ensures Senders(names) != [] && Senders(names)[0] == names[0]
  {
    var n := |names| - 1;
    assert names == names[..n] + [names[n]];
    SendersSnoc(names[..n], names[n]);
    if n > 0 { FirstSenderStays(names[..n]); } else { assert names[..n] == []; }
  }

  lemma NamesSnoc(p: Platform, safe: seq<Option<string>>, r: Option<string>)
    ensures Names(p, safe + [r]) == Names(p, safe) + [DisplaySender(p, r)]
  {
  }

  lemma NamesAppend(p: Platform, a: seq<Option<string>>, b: seq<Option<string>>)
    ensures Names(p, a + b) == Names(p, a) + Names(p, b)
  {
  }

  lemma WithoutOne<T>(b: seq<T>, i: nat)
    requires i < |b|
    ensures b == b[..i] + ([b[i]] + b[i + 1..])
    ensures multiset(b[..i] + b[i + 1..]) == multiset(b) - multiset{b[i]}
  {
    assert b == b[..i] + ([b[i]] + b[i + 1..]);
  }

  /** Reordering the safe rows reorders their names. */
  lemma {:induction false} NamesReorder(p: Platform, a: seq<Option<string>>, b: seq<Option<string>>)
    requires multiset(a) == multiset(b)
    ensures multiset(Names(p, a)) == multiset(Names(p, b))
  {
    SameMembers(a, b);
    if a != [] {
      var n := |a| - 1;
      assert a == a[..n] + [a[n]];
      assert a[n] in b;
      var i :| 0 <= i < |b| && b[i] == a[n];
      WithoutOne(b, i);
      WithoutLast(a);
      NamesReorder(p, a[..n], b[..i] + b[i + 1..]);
      NamesSnoc(p, a[..n], a[n]);
      NamesAppend(p, b[..i], b[i + 1..]);
      NamesAppend(p, b[..i], [b[i]] + b[i + 1..]);
      NamesAppend(p, [b[i]], b[i + 1..]);
      assert Names(p, [b[i]]) == [DisplaySender(p, b[i])];
    } else {
      assert b == [];
    }
  }

  /** With `e`'s messages moved to the front, `e` precedes everything it ties with. */
  lemma MovedToFront(p: Platform, safe: seq<Option<string>>, e: Entry) returns (at: nat)
    requires TotalPreorder(p.collate) && e in Ranked(p, Names(p, safe))
    ensures var b := Ranked(p, Names(p, ToFront(p, safe, e.sender)));
            at < |b| && b[at] == e && forall i :: 0 <= i < at ==> !Before(p.collate)(e, b[i])
  {
    var names := Names(p, safe);
    var moved := Names(p, ToFront(p, safe, e.sender));
    RankedMembers(p, names, e);
    FirstName(p, safe, e.sender);
    FirstSenderStays(moved);
    ToFrontReorders(p, safe, e.sender);
    NamesReorder(p, safe, ToFront(p, safe, e.sender));
    assert Entries(moved)[0] == e;
    BeforeIsAnOrder(p.collate);
    at := FirstStaysFirst(p, moved, e);
  }

  lemma FirstStaysFirst(p: Platform, names: seq<string>, e: Entry) returns (at: nat)
    requires TotalPreorder(Before(p.collate)) && Entries(names) != [] && Entries(names)[0] == e
    ensures var b := Ranked(p, names);
            at < |b| && b[at] == e && forall i :: 0 <= i < at ==> !Before(p.collate)(e, b[i])
  {
    var entries, b := Entries(names), Ranked(p, names);
    SortMembers(Before(p.collate), entries);
    assert entries[0] in b;
    at :| 0 <= at < |b| && b[at] == e;
    SortStable(Before(p.collate), entries);
    EntriesDiffer(names);
    forall i | 0 <= i < at
      ensures !Before(p.collate)(e, b[i])
    {
      assert Precedes(Before(p.collate), entries, b[i], b[at]);
    }
  }

  lemma RankedDiffer(p: Platform, names: seq<string>)
    ensures NoRepeats(Ranked(p, names))
  {
    EntriesDiffer(names);
    SortKeepsAll(Before(p.collate), Entries(names));
    NoRepeatsAfterSorting(Entries(names), Ranked(p, names));
  }

  lemma TieShows(p: Platform, safe: seq<Option<string>>, i: nat, j: nat)
    requires TotalPreorder(p.collate)
    requires var a := Ranked(p, Names(p, safe));
             i < j < |a| && i < MAX_TARGET_ROWS && Tied(p.collate, a[i], a[j])
    ensures var e := Ranked(p, Names(p, safe))[j];
            Top(p, Names(p, ToFront(p, safe, e.sender))) != Top(p, Names(p, safe))
  {
    var a := Ranked(p, Names(p, safe));
    var b := Ranked(p, Names(p, ToFront(p, safe, a[j].sender)));
    RankedDiffer(p, Names(p, safe));
    var at := MovedToFront(p, safe, a[j]);
    if at <= i {
      assert Take(b, MAX_TARGET_ROWS)[at] == a[j] != a[at] == Take(a, MAX_TARGET_ROWS)[at];
    } else {
      assert Take(b, MAX_TARGET_ROWS)[i] == b[i] != a[i] == Take(a, MAX_TARGET_ROWS)[i];
    }
  }

  lemma RowsTellApart(a: seq<Entry>, b: seq<Entry>)
    requires RowsOf(a) == RowsOf(b)
    ensures a == b
  {
    assert |a| == |RowsOf(a)| == |b|;
    forall i | 0 <= i < |a|
      ensures a[i] == b[i]
    {
      assert RowsOf(a)[i] == RowsOf(b)[i];
    }
  }

  /** The rows a human sees for a safe list. */
  function Preview(p: Platform, safe: seq<Option<string>>): seq<TargetRow> { RowsOf(Top(p, Names(p, safe))) }

  lemma SomeTieShows(p: Platform, safe: seq<Option<string>>) returns (other: seq<Option<string>>)
    requires TotalPreorder(p.collate) && !NoVisibleTie(p, Names(p, safe))
    ensures multiset(other) == multiset(safe) && Preview(p, other) != Preview(p, safe)
  {
    var a := Ranked(p, Names(p, safe));
    var shown, hidden :| shown in Top(p, Names(p, safe)) && hidden in a
                        && Tied(p.collate, shown, hidden) && shown != hidden;
    var i :| 0 <= i < |Top(p, Names(p, safe))| && Top(p, Names(p, safe))[i] == shown;
    var j :| 0 <= j < |a| && a[j] == hidden;
    var lo, hi := if i < j then i else j, if i < j then j else i;
    TieShows(p, safe, lo, hi);
    other := ToFront(p, safe, a[hi].sender);
    ToFrontReorders(p, safe, a[hi].sender);
    if Preview(p, other) == Preview(p, safe) { RowsTellApart(Top(p, Names(p, other)), Top(p, Names(p, safe))); }
  }

  /** The preview is the same for every order of the safe list exactly when no shown sender ties, in
      count and in the locale's order, with a different sender. */
  lemma PreviewIgnoresOrderIff(p: Platform, safe: seq<Option<string>>)
    requires TotalPreorder(p.collate)
    ensures NoVisibleTie(p, Names(p, safe)) <==>
            forall other :: multiset(other) == multiset(safe) ==> Preview(p, other) == Preview(p, safe)
  {
    if NoVisibleTie(p, Names(p, safe)) {
      forall other | multiset(other) == multiset(safe)
        ensures Preview(p, other) == Preview(p, safe)
      {
        NamesReorder(p, safe, other);
        RowsIgnoreOrder(p, Names(p, safe), Names(p, other));
      }
    } else {
      var other := SomeTieShows(p, safe);
    }
  }

  // ---- a plan whose preview depends on the order -------------------------------------------------

  /** A platform whose locale compares names by a weight of their first letter; no sender has the form
      `"Name" <address>`. */
  function ByFirstLetter(weight: char -> int): Platform {
    Platform((_: string) => "", (s: string) => s, (a: string, b: string) => Weigh(weight, a) <= Weigh(weight, b))
  }

  function Weigh(weight: char -> int, s: string): int { if s == "" then 0 else weight(s[0]) }

  lemma WeightsAreAnOrder(weight: char -> int)
    ensures TotalPreorder(ByFirstLetter(weight).collate)
  {
  }

  lemma DisplayedAsGiven(weight: char -> int, a: string, b: string)
    requires a != "" && b != "" && Trimmed(a) && Trimmed(b)
    ensures Names(ByFirstLetter(weight), [Some(a), Some(b)]) == [a, b]
  {
    TrimIsTrimmed(a);
    TrimIsTrimmed(b);
    TrimIsTrimmed("");
  }

  lemma TwoEntries(a: string, b: string)
    requires a != b
    ensures Entries([a, b]) == [Entry(a, 1), Entry(b, 1)]
  {
    SendersSnoc([], a);
    SendersSnoc([a], b);
    assert [] + [a] == [a] && [a] + [b] == [a, b];
    assert Senders([a, b]) == [a, b];
  }

  lemma TwoSorted<T>(le: (T, T) -> bool, x: T, y: T)
    ensures Sort(le, [x, y]) == if le(x, y) then [x, y] else [y, x]
  {
    assert [x, y][..1] == [x] && [x][..0] == [];
    assert Sort(le, [x]) == Insert(le, [], x) == [x];
    assert Insert(le, [], y) == [y];
  }

  lemma TwoOnTop(weight: char -> int, a: string, b: string)
    requires a != "" && b != "" && a != b
    ensures Top(ByFirstLetter(weight), [a, b])
            == if weight(a[0]) <= weight(b[0]) then [Entry(a, 1), Entry(b, 1)] else [Entry(b, 1), Entry(a, 1)]
  {
    TwoEntries(a, b);
    TwoSorted(Before(ByFirstLetter(weight).collate), Entry(a, 1), Entry(b, 1));
  }

  lemma SwappedRowsDiffer(a: string, b: string)
    requires a != b
    ensures RowsOf([Entry(a, 1), Entry(b, 1)]) != RowsOf([Entry(b, 1), Entry(a, 1)])
  {
    assert RowsOf([Entry(a, 1), Entry(b, 1)])[0].sender == Some(a);
    assert RowsOf([Entry(b, 1), Entry(a, 1)])[0].sender == Some(b);
  }

  lemma TiedPair(weight: char -> int, a: string, b: string)
    requires a != "" && b != "" && a != b && Trimmed(a) && Trimmed(b) && weight(a[0]) == weight(b[0])
    ensures Preview(ByFirstLetter(weight), [Some(b), Some(a)]) != Preview(ByFirstLetter(weight), [Some(a), Some(b)])
  {
    DisplayedAsGiven(weight, a, b);
    DisplayedAsGiven(weight, b, a);
    TwoOnTop(weight, a, b);
    TwoOnTop(weight, b, a);
    SwappedRowsDiffer(a, b);
  }

  /** The letter \U{00E9} like e. */
  function AccentIgnored(): char -> int { (c: char) => if c == '\U{00E9}' then 'e' as int else c as int }

  /** The failing case occurs: two spellings of one letter, in either order, under a locale that cannot
      tell them apart. */
  lemma SpellingsDependOnOrder()
    ensures var p := ByFirstLetter(AccentIgnored());
            var safe, other := [Some("\U{00E9}"), Some("e\U{0301}")], [Some("e\U{0301}"), Some("\U{00E9}")];
            TotalPreorder(p.collate) && multiset(other) == multiset(safe) && Preview(p, other) != Preview(p, safe)
  {
    WeightsAreAnOrder(AccentIgnored());
    TiedPair(AccentIgnored(), "\U{00E9}", "e\U{0301}");
  }

  // ---- two locales -------------------------------------------------------------------------------

  /** Among senders with as many messages: `a` ranks before `b`, by the locale or, where that cannot tell
      them apart, because its first message comes earlier. */
  ghost predicate Ahead(p: Platform, names: seq<string>, a: Entry, b: Entry) {
    && p.collate(a.sender, b.sender)
    && (p.collate(b.sender, a.sender) ==> Earlier(Entries(names), a, b))
  }

  /** Both locales put every shown sender before the same others with as many messages. */
  ghost predicate LocalesAgree(p: Platform, q: Platform, names: seq<string>) {
    forall shown, other :: shown in Top(p, names) && other in Entries(names) && other.count == shown.count ==>
                             (Ahead(p, names, shown, other) <==> Ahead(q, names, shown, other))
  }

  ghost function Rank(p: Platform, names: seq<string>): (Entry, Entry) -> bool {
    (a: Entry, b: Entry) => Precedes(Before(p.collate), Entries(names), a, b)
  }

  lemma RankedByRank(p: Platform, names: seq<string>)
    requires TotalPreorder(p.collate)
    ensures SortedBy(Rank(p, names), Ranked(p, names)) && OneWay(Rank(p, names))
  {
    BeforeIsAnOrder(p.collate);
    SortStable(Before(p.collate), Entries(names));
    EntriesDiffer(names);
    forall a, b | Rank(p, names)(a, b)
      ensures !Rank(p, names)(b, a)
    {
      PrecedesOneWay(Before(p.collate), Entries(names), a, b);
    }
  }

  lemma RankMeans(p: Platform, names: seq<string>, a: Entry, b: Entry)
    ensures Rank(p, names)(a, b) <==> a.count > b.count || (a.count == b.count && Ahead(p, names, a, b))
  {
    var le := Before(p.collate);
    assert Rank(p, names)(a, b) == Precedes(le, Entries(names), a, b);
    assert le(a, b) <==> a.count > b.count || (a.count == b.count && p.collate(a.sender, b.sender));
    assert le(b, a) <==> b.count > a.count || (b.count == a.count && p.collate(b.sender, a.sender));
  }

  lemma StandingMeans(p: Platform, q: Platform, names: seq<string>)
    requires |Top(p, names)| <= |Ranked(p, names)|
    ensures SameStanding(Rank(p, names), Rank(q, names), Ranked(p, names), |Top(p, names)|)
            <==> LocalesAgree(p, q, names)
  {
    var a, n := Ranked(p, names), |Top(p, names)|;
    SortMembers(Before(p.collate), Entries(names));
    if SameStanding(Rank(p, names), Rank(q, names), a, n) {
      forall shown, other | shown in Top(p, names) && other in Entries(names) && other.count == shown.count
        ensures Ahead(p, names, shown, other) <==> Ahead(q, names, shown, other)
      {
        var i :| 0 <= i < n && Top(p, names)[i] == shown;
        assert a[i] == shown && other in a;
        RankMeans(p, names, a[i], other);
        RankMeans(q, names, a[i], other);
      }
    }
    if LocalesAgree(p, q, names) {
      forall i, y | 0 <= i < n && y in a
        ensures Rank(p, names)(a[i], y) <==> Rank(q, names)(a[i], y)
      {
        assert Top(p, names)[i] == a[i] && a[i] in Top(p, names) && y in Entries(names);
        RankMeans(p, names, a[i], y);
        RankMeans(q, names, a[i], y);
      }
    }
  }

  /** The same names show the same rows under two locales exactly when the locales agree on the ties. */
  lemma RowsAgreeIff(p: Platform, q: Platform, names: seq<string>)
    requires TotalPreorder(p.collate) && TotalPreorder(q.collate)
    ensures Top(p, names) == Top(q, names) <==> LocalesAgree(p, q, names)
  {
    var a, b, n := Ranked(p, names), Ranked(q, names), |Top(p, names)|;
    RankedLength(p, names);
    RankedLength(q, names);
    RankedByRank(p, names);
    RankedByRank(q, names);
    RankedDiffer(p, names);
    RankedDiffer(q, names);
    SortKeepsAll(Before(p.collate), Entries(names));
    SortKeepsAll(Before(q.collate), Entries(names));
    StandingMeans(p, q, names);
    assert Top(p, names) == a[..n] && Top(q, names) == b[..n];
    if LocalesAgree(p, q, names) {
      SameStandingSameFront(Rank(p, names), Rank(q, names), a, b, n);
    }
    if a[..n] == b[..n] {
      SameFrontSameStanding(Rank(p, names), Rank(q, names), a, b, n);
    }
  }

  /** So the stored preview and the derived one show the same rows if and only if the server's locale and
      the browser's agree on the shown senders' ties in count; with one locale they always do. */
  lemma StoredAndDerivedRowsAgreeIff(server: Platform, browser: Platform, action: Option<string>,
                                     provider: Option<string>, plan: Plan)
    requires SameButCollation(server, browser) && TotalPreorder(server.collate) && TotalPreorder(browser.collate)
    ensures var stored := Payload(Some(BackendTargets(server, action, provider, Some(plan))), Some(plan),
                                  action, provider, None, false);
            var a, b := DerivedTargets(browser, stored), DerivedTargets(browser, stored.(targets := None));
            && a.Some? && b.Some?
            && (a.value.rows == b.value.rows <==> LocalesAgree(server, browser, Names(server, plan.safe)))
            && (server.collate == browser.collate ==> a.value.rows == b.value.rows)
  {
    var names := Names(server, plan.safe);
    StoredAndDerivedAgree(server, browser, action, provider, plan, None, false);
    RowsAgreeIff(server, browser, names);
    if RowsOf(Top(server, names)) == RowsOf(Top(browser, names)) {
      RowsTellApart(Top(server, names), Top(browser, names));
    }
  }

  lemma ApartPair(weight: char -> int, other: char -> int, a: string, b: string)
    requires a != "" && b != "" && a != b && Trimmed(a) && Trimmed(b)
    requires weight(a[0]) < weight(b[0]) && other(b[0]) < other(a[0])
    ensures var names := Names(ByFirstLetter(weight), [Some(a), Some(b)]);
            RowsOf(Top(ByFirstLetter(weight), names)) != RowsOf(Top(ByFirstLetter(other), names))
  {
    DisplayedAsGiven(weight, a, b);
    TwoOnTop(weight, a, b);
    TwoOnTop(other, a, b);
    SwappedRowsDiffer(a, b);
  }

  /** The letter \U{00E4} like a, or behind z. */
  function UmlautFirst(): char -> int { (c: char) => if c == '\U{00E4}' then 'a' as int else c as int }

  function UmlautLast(): char -> int { (c: char) => if c == '\U{00E4}' then 'z' as int + 1 else c as int }

  /** The failing case occurs: the server's locale has the letter like a, and the browser's behind z. */
  lemma LocalesShowDifferentRows(action: Option<string>, provider: Option<string>)
    ensures var server, browser := ByFirstLetter(UmlautFirst()), ByFirstLetter(UmlautLast());
            var plan := Plan([Some("\U{00E4}"), Some("z")], None, None, None);
            var stored := Payload(Some(BackendTargets(server, action, provider, Some(plan))), Some(plan),
                                  action, provider, None, false);
            var a, b := DerivedTargets(browser, stored), DerivedTargets(browser, stored.(targets := None));
            && TotalPreorder(server.collate) && TotalPreorder(browser.collate)
            && a.Some? && b.Some? && a.value.rows != b.value.rows
  {
    var plan := Plan([Some("\U{00E4}"), Some("z")], None, None, None);
    WeightsAreAnOrder(UmlautFirst());
    WeightsAreAnOrder(UmlautLast());
    ApartPair(UmlautFirst(), UmlautLast(), "\U{00E4}", "z");
    StoredAndDerivedAgree(ByFirstLetter(UmlautFirst()), ByFirstLetter(UmlautLast()), action, provider, plan, None,
                          false);
  }
}
