/** The bounded digest of a mail thread that is handed to the model. */
module ThreadDigest {
  import opened Ordering

  const MAX_CONTEXT_MESSAGES: nat := 5
  const MAX_MESSAGE_CHARS: nat := 1500
  const MAX_DIGEST_CHARS: nat := 6000

  /** A message of the thread: when it was sent, its sender label and subject, and its best body text. */
  datatype Message = Message(sentAt: int, from: string, subject: string, body: string)

  datatype Entry = Entry(from: string, subject: string, body: string)

  function EntryOf(m: Message): Entry {
    Entry(m.from, m.subject, if |m.body| > MAX_MESSAGE_CHARS then m.body[..MAX_MESSAGE_CHARS] else m.body)
  }

  function Size(e: Entry): nat { |e.from| + |e.subject| + |e.body| }

  function Earlier(): (Message, Message) -> bool { (a: Message, b: Message) => a.sentAt <= b.sentAt }

  function Chronological(detail: seq<Message>): seq<Message> { Sort(Earlier(), detail) }

  /** The last five messages, oldest first. */
  function Recent(detail: seq<Message>): seq<Message> {
    var all := Chronological(detail);
    if |all| > MAX_CONTEXT_MESSAGES then all[|all| - MAX_CONTEXT_MESSAGES..] else all
  }

  lemma ChronologicalIsSorted(detail: seq<Message>)
    ensures SortedBy(Earlier(), Chronological(detail)) && multiset(Chronological(detail)) == multiset(detail)
    ensures |Chronological(detail)| == |detail|
  {
    SortCorrect(Earlier(), detail);
  }

  function Entries(ms: seq<Message>): seq<Entry> { seq(|ms|, i requires 0 <= i < |ms| => EntryOf(ms[i])) }

  function Total(es: seq<Entry>): nat {
    if es == [] then 0 else Size(es[0]) + Total(es[1..])
  }

  /** The entries of the last `k` messages. */
  function LastEntries(recent: seq<Message>, k: nat): seq<Entry>
    requires k <= |recent|
  {
    Entries(recent[|recent| - k..])
  }

  /** The entries of the last `k` recent messages: at least the newest, within budget unless it is
      alone, and not one more would fit. */
  ghost predicate BestSuffix(recent: seq<Message>, k: nat, digest: seq<Entry>) {
    && 1 <= k <= |recent|
    && digest == LastEntries(recent, k)
    && (k == 1 || Total(digest) <= MAX_DIGEST_CHARS)
    && (k < |recent| ==> Size(EntryOf(recent[|recent| - k - 1])) + Total(digest) > MAX_DIGEST_CHARS)
  }

  lemma OneMore(recent: seq<Message>, k: nat)
    requires k < |recent|
    ensures var e := EntryOf(recent[|recent| - k - 1]);
            && LastEntries(recent, k + 1) == [e] + LastEntries(recent, k)
            && Total(LastEntries(recent, k + 1)) == Size(e) + Total(LastEntries(recent, k))
  {
    assert LastEntries(recent, k + 1)[1..] == LastEntries(recent, k);
  }

  predicate Bounded(digest: seq<Entry>) { forall i :: 0 <= i < |digest| ==> |digest[i].body| <= MAX_MESSAGE_CHARS }

  lemma BodiesBounded(recent: seq<Message>, k: nat)
    requires k <= |recent|
    ensures Bounded(LastEntries(recent, k))
  {
  }

  const UNAVAILABLE := "(message body unavailable — reply from the subject and sender alone)"

  /** The only entry for a thread that could not be read. */
  function Substitute(from: string, subject: string): (e: Entry)
    ensures Bounded([e])
  {
    Entry(from, subject, UNAVAILABLE)
  }

  lemma NothingRecentIff(detail: seq<Message>)
    ensures Recent(detail) == [] <==> detail == []
  {
    ChronologicalIsSorted(detail);
  }

  /** After walking over the last `k` messages. */
  ghost predicate Collected(recent: seq<Message>, k: nat, newestFirst: seq<Entry>, total: nat) {
    && k <= |recent|
    && newestFirst == Reversed(LastEntries(recent, k))
    && total == Total(LastEntries(recent, k))
    && (k <= 1 || total <= MAX_DIGEST_CHARS)
  }

  lemma CollectOne(recent: seq<Message>, k: nat, newestFirst: seq<Entry>, total: nat, entry: Entry)
    requires Collected(recent, k, newestFirst, total) && k < |recent|
    requires entry == EntryOf(recent[|recent| - k - 1]) && !Full(recent, k, total)
    ensures Collected(recent, k + 1, newestFirst + [entry], total + Size(entry))
  {
    OneMore(recent, k);
    ReversedCons(entry, LastEntries(recent, k));
  }

  /** Everything is collected, or the next entry does not fit. */
  predicate Full(recent: seq<Message>, k: nat, total: nat) {
    k >= |recent| || (k > 0 && total + Size(EntryOf(recent[|recent| - k - 1])) > MAX_DIGEST_CHARS)
  }

  lemma CollectedIsBest(recent: seq<Message>, k: nat, newestFirst: seq<Entry>, total: nat)
    requires Collected(recent, k, newestFirst, total)
    requires Full(recent, k, total)
    ensures |Reversed(newestFirst)| == k
    ensures recent != [] ==> BestSuffix(recent, k, Reversed(newestFirst))
    ensures Bounded(Reversed(newestFirst))
  {
    ReversedTwice(LastEntries(recent, k));
    BodiesBounded(recent, k);
  }

  /** Walk newest first and stop before the entry that would exceed the budget. */
  method CollectRecent(recent: seq<Message>) returns (newestFirst: seq<Entry>, ghost k: nat)
    ensures |newestFirst| == |Reversed(newestFirst)| == k
    ensures recent != [] ==> BestSuffix(recent, k, Reversed(newestFirst))
    ensures recent == [] ==> k == 0
    ensures Bounded(Reversed(newestFirst))
  {
    newestFirst := [];
    var total: nat := 0;
    k := 0;
    for i := |recent| downto 0
      invariant k == |recent| - i == |newestFirst|
      invariant Collected(recent, k, newestFirst, total)
    {
      var entry := EntryOf(recent[i]);
      assert i == |recent| - k - 1;
      if |newestFirst| > 0 && total + Size(entry) > MAX_DIGEST_CHARS { break; }
      assert !Full(recent, k, total);
      CollectOne(recent, k, newestFirst, total, entry);
      newestFirst := newestFirst + [entry];
      total := total + Size(entry);
      k := k + 1;
    }
    assert Full(recent, k, total);
    CollectedIsBest(recent, k, newestFirst, total);
  }

  /** Collect the most recent messages and restore their order; a thread that could not be read is stood
      in for by one entry. */
  method BuildThreadDigest(detail: seq<Message>, inboundFrom: string, inboundSubject: string)
    returns (digest: seq<Entry>, ghost k: nat)
    ensures detail != [] ==> BestSuffix(Recent(detail), k, digest)
    ensures detail == [] ==> digest == [Substitute(inboundFrom, inboundSubject)]
    ensures Bounded(digest)
  {
    NothingRecentIff(detail);
    var newestFirst;
    newestFirst, k := CollectRecent(Recent(detail));
    digest := Reversed(newestFirst);
    if |digest| == 0 {
      digest := [Substitute(inboundFrom, inboundSubject)];
    }
  }

  function Reversed<T>(s: seq<T>): (r: seq<T>)
    ensures |r| == |s|
  {
    seq(|s|, i requires 0 <= i < |s| => s[|s| - 1 - i])
  }

  lemma ReversedCons<T>(x: T, s: seq<T>)
    ensures Reversed([x] + s) == Reversed(s) + [x]
  {
  }

  lemma ReversedTwice<T>(s: seq<T>)
    ensures Reversed(Reversed(s)) == s
  {
  }

  /** The contract leaves no choice: for a given thread only one digest meets it. */
  lemma DigestIsDetermined(recent: seq<Message>, k: nat, a: seq<Entry>, l: nat, b: seq<Entry>)
    requires BestSuffix(recent, k, a) && BestSuffix(recent, l, b)
    ensures k == l && a == b
  {
    if k < l { LongerSuffixCostsMore(recent, k, l); }
    if l < k { LongerSuffixCostsMore(recent, l, k); }
  }

  lemma {:induction false} LongerSuffixCostsMore(recent: seq<Message>, k: nat, l: nat)
    requires k < l <= |recent|
    ensures Total(LastEntries(recent, l)) >= Size(EntryOf(recent[|recent| - k - 1])) + Total(LastEntries(recent, k))
  {
    OneMore(recent, l - 1);
    if l > k + 1 { LongerSuffixCostsMore(recent, k, l - 1); }
  }

  lemma NewestIsLast(detail: seq<Message>)
    requires detail != []
    ensures var all := Chronological(detail);
            all != [] && all[|all| - 1] in detail && forall x :: x in detail ==> x.sentAt <= all[|all| - 1].sentAt
  {
    ChronologicalIsSorted(detail);
    SortMembers(Earlier(), detail);
    var all := Chronological(detail);
    assert all[|all| - 1] in all;
    forall x | x in detail
      ensures x.sentAt <= all[|all| - 1].sentAt
    {
      LastIsGreatest(Earlier(), all, x);
    }
  }

  lemma RecentIsASuffix(detail: seq<Message>)
    ensures Recent(detail) == [] <==> detail == []
    ensures detail != [] ==>
      Recent(detail)[|Recent(detail)| - 1] == Chronological(detail)[|Chronological(detail)| - 1]
    ensures SortedBy(Earlier(), Recent(detail)) && |Recent(detail)| <= MAX_CONTEXT_MESSAGES
  {
    ChronologicalIsSorted(detail);
  }

  ghost predicate NoneLater(older: seq<Message>, recent: seq<Message>) {
    forall i, j :: 0 <= i < |older| && 0 <= j < |recent| ==> older[i].sentAt <= recent[j].sentAt
  }

  lemma SortedHalves(older: seq<Message>, recent: seq<Message>)
    requires SortedBy(Earlier(), older + recent)
    ensures NoneLater(older, recent)
  {
    var all := older + recent;
    forall i, j | 0 <= i < |older| && 0 <= j < |recent|
      ensures older[i].sentAt <= recent[j].sentAt
    {
      assert Earlier()(all[i], all[|older| + j]);
    }
  }

  /** The recent messages are the newest five, or all: none left out is later than one of them. */
  lemma RecentAreNewest(detail: seq<Message>) returns (older: seq<Message>)
    ensures |Recent(detail)| == if |detail| < 5 then |detail| else 5
    ensures multiset(older + Recent(detail)) == multiset(detail) && NoneLater(older, Recent(detail))
  {
    ChronologicalIsSorted(detail);
    var all := Chronological(detail);
    older := all[..|all| - |Recent(detail)|];
    assert all == older + Recent(detail);
    SortedHalves(older, Recent(detail));
  }

  /** An entry shows a message, its text cut at 1500 characters. */
  lemma EntryShows(m: Message)
    ensures EntryOf(m).from == m.from && EntryOf(m).subject == m.subject && EntryOf(m).body <= m.body
    ensures |EntryOf(m).body| == if |m.body| < 1500 then |m.body| else 1500
  {
  }

  lemma LastEntry(recent: seq<Message>, k: nat)
    requires 1 <= k <= |recent|
    ensures LastEntries(recent, k)[k - 1] == EntryOf(recent[|recent| - 1])
  {
  }

  /** In particular the digest ends with the newest message of the thread and keeps time order. */
  lemma DigestEndsWithNewest(detail: seq<Message>, k: nat, digest: seq<Entry>)
    requires BestSuffix(Recent(detail), k, digest)
    ensures exists newest :: newest in detail && digest[|digest| - 1] == EntryOf(newest)
                             && forall x :: x in detail ==> x.sentAt <= newest.sentAt
    ensures SortedBy(Earlier(), Recent(detail)) && |digest| <= MAX_CONTEXT_MESSAGES
  {
    RecentIsASuffix(detail);
    NewestIsLast(detail);
    LastEntry(Recent(detail), k);
    var newest := Chronological(detail)[|Chronological(detail)| - 1];
    assert digest[|digest| - 1] == EntryOf(newest);
  }
}
