/** The reply runtime's caps over windows that count both ends. */
module ReplyWindows {
  import opened Text
  import opened ReplyCaps
  import opened ReplyReferences

  function OfMailbox(mailbox: string): Row -> bool { (r: Row) => r.mailbox == mailbox }

  function SentIn(thread: string): Row -> bool { (r: Row) => r.mode == SEND && r.thread == thread }

  /** The 24 hours after `from`, without `from` itself. */
  function HalfOpen(test: Row -> bool, from: int): Row -> bool {
    (r: Row) => test(r) && from < r.createdAt <= from + WINDOW
  }

  /** The 24 hours from `from` on, with both ends. */
  function Closed(test: Row -> bool, from: int): Row -> bool {
    (r: Row) => test(r) && from <= r.createdAt <= from + WINDOW
  }

  function At(test: Row -> bool, at: int): Row -> bool { (r: Row) => test(r) && r.createdAt == at }

  function Since(test: Row -> bool, at: int): Row -> bool { (r: Row) => test(r) && r.createdAt >= at }

  ghost predicate HalfOpenKeep(rows: seq<Row>, test: Row -> bool, limit: nat) {
    forall from :: Count(rows, HalfOpen(test, from)) <= limit
  }

  ghost predicate ClosedKeep(rows: seq<Row>, test: Row -> bool, limit: nat) {
    forall from :: Count(rows, Closed(test, from)) <= limit
  }

  lemma MailboxHalfOpen(cap: nat, inbound: seq<Inbound>, mailbox: string)
    requires InSequence(inbound)
    ensures HalfOpenKeep(HandleAll(cap, inbound), OfMailbox(mailbox), cap)
  {
    var rows := HandleAll(cap, inbound);
    forall from
      ensures Count(rows, HalfOpen(OfMailbox(mailbox), from)) <= cap
    {
      MailboxCapHolds(cap, inbound, mailbox, from);
      CountWithin(rows, HalfOpen(OfMailbox(mailbox), from), InMailbox(mailbox, from, from + WINDOW));
    }
  }

  lemma ThreadHalfOpen(cap: nat, inbound: seq<Inbound>, thread: string)
    requires InSequence(inbound)
    ensures HalfOpenKeep(HandleAll(cap, inbound), SentIn(thread), THREAD_AUTO_SEND_CAP)
  {
    var rows := HandleAll(cap, inbound);
    forall from
      ensures Count(rows, HalfOpen(SentIn(thread), from)) <= THREAD_AUTO_SEND_CAP
    {
      ThreadCapHolds(cap, inbound, thread, from);
      CountWithin(rows, HalfOpen(SentIn(thread), from), SentInThread(thread, from, from + WINDOW));
    }
  }

  // ---- one end more ----------------------------------------------------------------------------

  lemma {:induction false} CountSplit(rows: seq<Row>, whole: Row -> bool, a: Row -> bool, b: Row -> bool)
    requires forall r :: (whole(r) <==> a(r) || b(r)) && !(a(r) && b(r))
    ensures Count(rows, whole) == Count(rows, a) + Count(rows, b)
  {
    if rows != [] { CountSplit(rows[..|rows| - 1], whole, a, b); }
  }

  /** A closed window holds what the half-open one does and the rows of its first moment, and
      equally the half-open one a millisecond earlier and the rows of its last moment. */
  lemma {:induction false} ClosedIsHalfOpenAndAnEnd(rows: seq<Row>, test: Row -> bool, from: int)
    ensures Count(rows, Closed(test, from)) == Count(rows, HalfOpen(test, from)) + Count(rows, At(test, from))
    ensures Count(rows, Closed(test, from))
            == Count(rows, HalfOpen(test, from - 1)) + Count(rows, At(test, from + WINDOW))
  {
    CountSplit(rows, Closed(test, from), HalfOpen(test, from), At(test, from));
    CountSplit(rows, Closed(test, from), HalfOpen(test, from - 1), At(test, from + WINDOW));
  }

  /** A closed window never holds more than twice the limit, and keeps it if an end moment has no row. */
  ghost predicate AtMostTwice(rows: seq<Row>, test: Row -> bool, limit: nat, from: int) {
    && Count(rows, Closed(test, from)) <= 2 * limit
    && (Count(rows, At(test, from)) == 0 || Count(rows, At(test, from + WINDOW)) == 0 ==>
          Count(rows, Closed(test, from)) <= limit)
  }

  lemma ClosedWindowBounds(rows: seq<Row>, test: Row -> bool, limit: nat, from: int)
    requires HalfOpenKeep(rows, test, limit)
    ensures AtMostTwice(rows, test, limit, from)
  {
    ClosedIsHalfOpenAndAnEnd(rows, test, from);
    CountWithin(rows, At(test, from + WINDOW), HalfOpen(test, from));
    assert Count(rows, HalfOpen(test, from)) <= limit && Count(rows, HalfOpen(test, from - 1)) <= limit;
  }

  /** So it is with both caps in every run. */
  lemma ClosedWindowsOfARun(cap: nat, inbound: seq<Inbound>, mailbox: string, thread: string, from: int)
    requires InSequence(inbound)
    ensures AtMostTwice(HandleAll(cap, inbound), OfMailbox(mailbox), cap, from)
    ensures AtMostTwice(HandleAll(cap, inbound), SentIn(thread), THREAD_AUTO_SEND_CAP, from)
  {
    MailboxHalfOpen(cap, inbound, mailbox);
    ThreadHalfOpen(cap, inbound, thread);
    ClosedWindowBounds(HandleAll(cap, inbound), OfMailbox(mailbox), cap, from);
    ClosedWindowBounds(HandleAll(cap, inbound), SentIn(thread), THREAD_AUTO_SEND_CAP, from);
  }

  // ---- when closed windows keep the cap --------------------------------------------------------

  /** If this handler writes a counted row, fewer than `limit` were written in the 24 hours before it,
      the moment exactly 24 hours earlier included. */
  ghost predicate HasRoom(rows: seq<Row>, cap: nat, m: Inbound, test: Row -> bool, limit: nat) {
    Writes(rows, cap, m) && test(RowOf(rows, m)) ==> Count(rows, Since(test, m.createdAt - WINDOW)) < limit
  }

  /** The handler of message `i` had room. */
  ghost predicate RoomAt(cap: nat, inbound: seq<Inbound>, i: nat, test: Row -> bool, limit: nat)
    requires i < |inbound|
  {
    HasRoom(HandleAll(cap, inbound[..i]), cap, inbound[i], test, limit)
  }

  ghost predicate EachHasRoom(cap: nat, inbound: seq<Inbound>, test: Row -> bool, limit: nat) {
    forall i: nat :: i < |inbound| ==> RoomAt(cap, inbound, i, test, limit)
  }

  lemma RoomInPrefix(cap: nat, inbound: seq<Inbound>, i: nat, test: Row -> bool, limit: nat)
    requires i < |inbound| - 1
    ensures RoomAt(cap, inbound[..|inbound| - 1], i, test, limit) <==> RoomAt(cap, inbound, i, test, limit)
  {
    assert inbound[..|inbound| - 1][..i] == inbound[..i];
  }

  lemma EachHasRoomStep(cap: nat, inbound: seq<Inbound>, test: Row -> bool, limit: nat)
    requires inbound != []
    ensures var n := |inbound| - 1;
            EachHasRoom(cap, inbound, test, limit) <==>
            EachHasRoom(cap, inbound[..n], test, limit) && RoomAt(cap, inbound, n, test, limit)
  {
    var n := |inbound| - 1;
    forall i: nat | i < n
      ensures RoomAt(cap, inbound[..n], i, test, limit) <==> RoomAt(cap, inbound, i, test, limit)
    {
      RoomInPrefix(cap, inbound, i, test, limit);
    }
  }

  lemma CountSnoc(rows: seq<Row>, r: Row, counts: Row -> bool)
    ensures Count(rows + [r], counts) == Count(rows, counts) + if counts(r) then 1 else 0
  {
    assert (rows + [r])[..|rows|] == rows;
  }

  /** One row more keeps all closed windows exactly when they were kept and it finds room. */
  lemma OneMoreRow(rows: seq<Row>, r: Row, test: Row -> bool, limit: nat)
    requires forall x :: x in rows ==> x.createdAt <= r.createdAt
    ensures ClosedKeep(rows + [r], test, limit) <==>
            ClosedKeep(rows, test, limit) && (test(r) ==> Count(rows, Since(test, r.createdAt - WINDOW)) < limit)
  {
    if ClosedKeep(rows + [r], test, limit) {
      forall from
        ensures Count(rows, Closed(test, from)) <= limit
      {
        CountSnoc(rows, r, Closed(test, from));
        assert Count(rows + [r], Closed(test, from)) <= limit;
      }
      var start := r.createdAt - WINDOW;
      CountSnoc(rows, r, Closed(test, start));
      assert Count(rows + [r], Closed(test, start)) <= limit;
      CountWithin(rows, Since(test, start), Closed(test, start));
    }
    if ClosedKeep(rows, test, limit) && (test(r) ==> Count(rows, Since(test, r.createdAt - WINDOW)) < limit) {
      forall from
        ensures Count(rows + [r], Closed(test, from)) <= limit
      {
        CountSnoc(rows, r, Closed(test, from));
        assert Count(rows, Closed(test, from)) <= limit;
        if Closed(test, from)(r) { CountWithin(rows, Closed(test, from), Since(test, r.createdAt - WINDOW)); }
      }
    }
  }

  /** One message more keeps all closed windows exactly when they were kept and it finds room. */
  lemma OneMoreMessage(rows: seq<Row>, cap: nat, m: Inbound, test: Row -> bool, limit: nat)
    requires RowsBy(rows, m.gateAt) && m.gateAt <= m.createdAt
    ensures ClosedKeep(Handle(rows, cap, m), test, limit) <==>
            ClosedKeep(rows, test, limit) && HasRoom(rows, cap, m, test, limit)
  {
    HandleMeans(rows, cap, m);
    if Writes(rows, cap, m) { OneMoreRow(rows, RowOf(rows, m), test, limit); }
  }

  lemma NoRowsKeep(cap: nat, test: Row -> bool, limit: nat)
    ensures ClosedKeep(HandleAll(cap, []), test, limit) && EachHasRoom(cap, [], test, limit)
  {
    assert forall from :: Count([], Closed(test, from)) == 0;
  }

  lemma {:induction false} ClosedKeepIff(cap: nat, inbound: seq<Inbound>, test: Row -> bool, limit: nat)
    requires InSequence(inbound)
    ensures ClosedKeep(HandleAll(cap, inbound), test, limit) <==> EachHasRoom(cap, inbound, test, limit)
  {
    if inbound == [] {
      NoRowsKeep(cap, test, limit);
    } else {
      var n := |inbound| - 1;
      var before := HandleAll(cap, inbound[..n]);
      assert HandleAll(cap, inbound) == Handle(before, cap, inbound[n]);
      ClosedKeepIff(cap, inbound[..n], test, limit);
      EachHasRoomStep(cap, inbound, test, limit);
      RowsAreEarlier(cap, inbound[..n], inbound[n].gateAt);
      OneMoreMessage(before, cap, inbound[n], test, limit);
    }
  }

  /** In a run, every closed 24-hour window keeps the mailbox cap if and only if every handler that
      composed for the mailbox would also have passed a gate that counts the row written exactly 24
      hours before its own. */
  lemma MailboxClosedWindowsIff(cap: nat, inbound: seq<Inbound>, mailbox: string)
    requires InSequence(inbound)
    ensures ClosedKeep(HandleAll(cap, inbound), OfMailbox(mailbox), cap) <==>
            EachHasRoom(cap, inbound, OfMailbox(mailbox), cap)
  {
    ClosedKeepIff(cap, inbound, OfMailbox(mailbox), cap);
  }

  /** The same for the thread cap and automatic sends. */
  lemma {:induction false} ThreadClosedWindowsIff(cap: nat, inbound: seq<Inbound>, thread: string)
    requires InSequence(inbound)
    ensures ClosedKeep(HandleAll(cap, inbound), SentIn(thread), THREAD_AUTO_SEND_CAP) <==>
            EachHasRoom(cap, inbound, SentIn(thread), THREAD_AUTO_SEND_CAP)
  {
    ClosedKeepIff(cap, inbound, SentIn(thread), THREAD_AUTO_SEND_CAP);
  }

  // ---- runs that reach twice the cap -----------------------------------------------------------

  function Firsts(family: nat -> Inbound, n: nat): seq<Inbound> { seq(n, i requires 0 <= i < n => family(i)) }

  /** `limit` messages at one moment and as many exactly 24 hours later, for one mailbox, with
      references of their own. */
  ghost predicate TwoBursts(family: nat -> Inbound, limit: nat, at: int, mailbox: string) {
    && (forall i: nat :: i < 2 * limit ==>
          && Answerable(family(i)) && family(i).mailbox == mailbox
          && family(i).gateAt == family(i).createdAt == (if i < limit then at else at + WINDOW))
    && (forall i: nat, j: nat :: i < j < 2 * limit ==> ExternalRef(family(i)) != ExternalRef(family(j)))
  }

  /** All in one thread, by a registered agent whose sends go through. */
  ghost predicate Sending(family: nat -> Inbound, limit: nat, thread: string) {
    limit <= THREAD_AUTO_SEND_CAP
    && forall i: nat :: i < 2 * limit ==>
         family(i).registered && family(i).compose == Recorded(SEND) && family(i).thread == thread
  }

  lemma {:induction false} CountTail(rows: seq<Row>, counts: Row -> bool, c: nat)
    requires c <= |rows| && forall j :: 0 <= j < c ==> !counts(rows[j])
    ensures Count(rows, counts) <= |rows| - c
  {
    if |rows| > c { CountTail(rows[..|rows| - 1], counts, c); }
    else if rows != [] { CountTail(rows[..|rows| - 1], counts, c - 1); }
  }

  lemma {:induction false} CountAll(rows: seq<Row>, counts: Row -> bool)
    requires forall j :: 0 <= j < |rows| ==> counts(rows[j])
    ensures Count(rows, counts) == |rows|
  {
    if rows != [] { CountAll(rows[..|rows| - 1], counts); }
  }

  /** The rows of the first `n` messages of two bursts. */
  ghost predicate BurstRows(rows: seq<Row>, family: nat -> Inbound, n: nat) {
    |rows| == n && forall j: nat :: j < n ==>
      && rows[j].ref == ExternalRef(family(j)) && rows[j].mailbox == family(j).mailbox
      && rows[j].thread == family(j).thread && rows[j].createdAt == family(j).createdAt
  }

  ghost predicate AllSent(rows: seq<Row>) { forall j :: 0 <= j < |rows| ==> rows[j].mode == SEND }

  /** Only rows of the same burst are counted, so there is always room for the next. */
  lemma BurstHasRoom(rows: seq<Row>, family: nat -> Inbound, limit: nat, at: int, mailbox: string, n: nat)
    requires TwoBursts(family, limit, at, mailbox) && n < 2 * limit && BurstRows(rows, family, n)
    ensures MailboxComposes(rows, mailbox, family(n).gateAt) < limit
    ensures ThreadSends(rows, family(n).thread, family(n).gateAt) < limit
  {
    var c := if n < limit then 0 else limit;
    CountTail(rows, RecentCompose(mailbox, family(n).gateAt), c);
    CountTail(rows, RecentSend(family(n).thread, family(n).gateAt), c);
  }

  lemma BurstGoesOn(rows: seq<Row>, family: nat -> Inbound, limit: nat, cap: nat, at: int, mailbox: string, n: nat)
    requires TwoBursts(family, limit, at, mailbox) && limit <= cap && n < 2 * limit && BurstRows(rows, family, n)
    ensures Writes(rows, cap, family(n))
    ensures BurstRows(Handle(rows, cap, family(n)), family, n + 1)
  {
    BurstHasRoom(rows, family, limit, at, mailbox, n);
    forall r | r in rows
      ensures r.ref != ExternalRef(family(n))
    {
      var j: nat :| j < |rows| && rows[j] == r;
      assert r.ref == ExternalRef(family(j));
    }
    HandleMeans(rows, cap, family(n));
  }

  lemma BurstGoesOnSending(rows: seq<Row>, family: nat -> Inbound, limit: nat, cap: nat, at: int, mailbox: string,
                           thread: string, n: nat)
    requires TwoBursts(family, limit, at, mailbox) && Sending(family, limit, thread) && n < 2 * limit
    requires BurstRows(rows, family, n) && AllSent(rows) && Writes(rows, cap, family(n))
    ensures AllSent(Handle(rows, cap, family(n)))
  {
    BurstHasRoom(rows, family, limit, at, mailbox, n);
    HandleMeans(rows, cap, family(n));
  }

  /** The first `n` messages of the bursts are all composed, and sent if they ask for it. */
  ghost predicate AllComposed(cap: nat, family: nat -> Inbound, limit: nat, thread: string, n: nat) {
    var rows := HandleAll(cap, Firsts(family, n));
    BurstRows(rows, family, n) && (Sending(family, limit, thread) ==> AllSent(rows))
  }

  lemma LastOfFirsts(cap: nat, family: nat -> Inbound, n: nat)
    ensures HandleAll(cap, Firsts(family, n + 1)) == Handle(HandleAll(cap, Firsts(family, n)), cap, family(n))
  {
    assert Firsts(family, n + 1)[..n] == Firsts(family, n);
  }

  lemma NextIsComposed(family: nat -> Inbound, limit: nat, cap: nat, at: int, mailbox: string, thread: string, n: nat)
    requires TwoBursts(family, limit, at, mailbox) && limit <= cap && n < 2 * limit
    requires AllComposed(cap, family, limit, thread, n)
    ensures AllComposed(cap, family, limit, thread, n + 1)
  {
    var rows := HandleAll(cap, Firsts(family, n));
    LastOfFirsts(cap, family, n);
    BurstGoesOn(rows, family, limit, cap, at, mailbox, n);
    if Sending(family, limit, thread) {
      BurstGoesOnSending(rows, family, limit, cap, at, mailbox, thread, n);
    }
  }

  lemma NoneIsComposed(cap: nat, family: nat -> Inbound, limit: nat, thread: string)
    ensures AllComposed(cap, family, limit, thread, 0)
  {
    assert Firsts(family, 0) == [] && HandleAll(cap, Firsts(family, 0)) == [];
  }

  lemma {:induction false} BurstsAreComposed(family: nat -> Inbound, limit: nat, cap: nat, at: int, mailbox: string,
                                             thread: string, n: nat)
    requires TwoBursts(family, limit, at, mailbox) && limit <= cap && n <= 2 * limit
    ensures AllComposed(cap, family, limit, thread, n)
  {
    if n == 0 {
      NoneIsComposed(cap, family, limit, thread);
    } else {
      BurstsAreComposed(family, limit, cap, at, mailbox, thread, n - 1);
      NextIsComposed(family, limit, cap, at, mailbox, thread, n - 1);
    }
  }

  lemma BurstsInSequence(family: nat -> Inbound, limit: nat, at: int, mailbox: string)
    requires TwoBursts(family, limit, at, mailbox)
    ensures InSequence(Firsts(family, 2 * limit))
  {
  }

  function Xs(n: nat): (s: string)
    ensures |s| == n
  {
    seq(n, _ => 'x')
  }

  function When(limit: nat, at: int, i: nat): int { if i < limit then at else at + WINDOW }

  /** Messages of different threads, otherwise like `base`. */
  function ThreadFamily(base: Inbound, limit: nat, at: int): nat -> Inbound {
    (i: nat) => base.(thread := Xs(i), gateAt := When(limit, at, i), createdAt := When(limit, at, i))
  }

  /** For every cap there is a run whose closed window holds twice the cap of composes for one mailbox. */
  lemma MailboxClosedWindowMayHoldTwice(cap: nat, base: Inbound, at: int) returns (inbound: seq<Inbound>)
    requires Answerable(base)
    ensures InSequence(inbound)
    ensures Count(HandleAll(cap, inbound), Closed(OfMailbox(base.mailbox), at)) == 2 * cap
  {
    var family := ThreadFamily(base, cap, at);
    forall i: nat | i < 2 * cap
      ensures Answerable(family(i)) && |ExternalRef(family(i))| == |ExternalRef(base)| - |base.thread| + i
    {
      assert Usable(base.answers(0)) || Usable(base.answers(1));
    }
    BurstsAreComposed(family, cap, cap, at, base.mailbox, "", 2 * cap);
    BurstsInSequence(family, cap, at, base.mailbox);
    inbound := Firsts(family, 2 * cap);
    CountAll(HandleAll(cap, inbound), Closed(OfMailbox(base.mailbox), at));
  }

  /** Messages of one thread received in different seconds, otherwise like `base`. */
  function StampFamily(base: Inbound, stamps: nat -> string, limit: nat, at: int): nat -> Inbound {
    (i: nat) => base.(receivedAt := Some(stamps(i)), registered := true, compose := Recorded(SEND),
                      gateAt := When(limit, at, i), createdAt := When(limit, at, i))
  }

  /** And there is one whose closed window holds ten automatic sends in one thread. */
  lemma ThreadClosedWindowMayHoldTwice(cap: nat, base: Inbound, stamps: nat -> string, at: int)
    returns (inbound: seq<Inbound>)
    requires Answerable(base) && cap >= THREAD_AUTO_SEND_CAP
    requires forall i: nat :: i < 10 ==> IsStamp(stamps(i))
    requires forall i: nat, j: nat :: i < j < 10 ==> stamps(i) != stamps(j)
    ensures InSequence(inbound) && forall m :: m in inbound ==> Stamped(m)
    ensures Count(HandleAll(cap, inbound), Closed(SentIn(base.thread), at)) == 2 * THREAD_AUTO_SEND_CAP
  {
    var family := StampFamily(base, stamps, THREAD_AUTO_SEND_CAP, at);
    forall i: nat | i < 10
      ensures Answerable(family(i)) && ExternalRef(family(i)) == base.mailbox + ":" + base.thread + ":" + stamps(i)
    {
      assert Usable(base.answers(0)) || Usable(base.answers(1));
    }
    forall i: nat, j: nat | i < j < 10
      ensures ExternalRef(family(i)) != ExternalRef(family(j))
    {
      SameStart(base.mailbox + ":" + base.thread + ":", stamps(i), stamps(j));
    }
    BurstsAreComposed(family, 5, cap, at, base.mailbox, base.thread, 10);
    BurstsInSequence(family, 5, at, base.mailbox);
    inbound := Firsts(family, 10);
    CountAll(HandleAll(cap, inbound), Closed(SentIn(base.thread), at));
  }

  lemma SameStart(a: string, x: string, y: string)
    requires x != y
    ensures a + x != a + y
  {
    assert (a + x)[|a|..] == x && (a + y)[|a|..] == y;
  }
}
