/** The external references that keep a reply to one per inbound message. */
module ReplyReferences {
  import opened Text
  import opened ReplyCaps

  lemma {:induction false} ColonSplits(a: string, b: string, x: string, y: string)
    requires ':' !in a && ':' !in b && a + ":" + x == b + ":" + y
    ensures a == b && x == y
  {
    if a == "" || b == "" {
      assert (a + ":" + x)[0] == (b + ":" + y)[0];
      assert a == "" && b == "";
      assert (":" + x)[1..] == x && (":" + y)[1..] == y;
      assert a + ":" + x == ":" + x && b + ":" + y == ":" + y;
    } else {
      assert a[0] == (a + ":" + x)[0] == (b + ":" + y)[0] == b[0];
      assert (a + ":" + x)[1..] == a[1..] + ":" + x;
      assert (b + ":" + y)[1..] == b[1..] + ":" + y;
      ColonSplits(a[1..], b[1..], x, y);
      assert a == [a[0]] + a[1..] && b == [b[0]] + b[1..];
    }
  }

  // ---- time stamps ----------------------------------------------------------------------------

  predicate IsDigit(c: char) { '0' <= c <= '9' }

  /** A UTC time stamp as the mail server gives it: `YYYY-MM-DDThh:mm:ssZ`, perhaps with a fraction of
      a second before the `Z`. */
  predicate IsStamp(s: string) {
    && |s| >= 20
    && s[4] == '-' && s[7] == '-' && s[10] == 'T' && s[13] == ':' && s[16] == ':' && s[|s| - 1] == 'Z'
    && (forall i :: 0 <= i < 19 && i !in {4, 7, 10, 13, 16} ==> IsDigit(s[i]))
    && (|s| > 20 ==> s[19] == '.' && forall i :: 20 <= i < |s| - 1 ==> IsDigit(s[i]))
  }

  /** A message as the watcher hands it over: always with its stamp. */
  predicate Stamped(m: Inbound) { m.receivedAt.Some? && IsStamp(m.receivedAt.value) }

  function Colons(s: string): nat {
    if s == "" then 0 else Colons(s[..|s| - 1]) + if s[|s| - 1] == ':' then 1 else 0
  }

  lemma {:induction false} ColonsAppend(a: string, b: string)
    ensures Colons(a + b) == Colons(a) + Colons(b)
  {
    if b == "" {
      AppendNothing(a);
    } else {
      var n := |b| - 1;
      ColonsAppend(a, b[..n]);
      assert (a + b)[..|a + b| - 1] == a + b[..n];
    }
  }

  lemma {:induction false} NoColons(s: string)
    requires ':' !in s
    ensures Colons(s) == 0
  {
    if s != "" { NoColons(s[..|s| - 1]); }
  }

  lemma OneColon(a: string, b: string)
    requires ':' !in a
    ensures Colons(a + (":" + b)) == 1 + Colons(b)
  {
    ColonsAppend(a, ":" + b);
    ColonsAppend(":", b);
    NoColons(a);
    assert Colons(":") == 1 by { assert ":"[..0] == ""; }
  }

  lemma StampParts(s: string)
    requires IsStamp(s)
    ensures ':' !in s[..13] && ':' !in s[14..16] && ':' !in s[17..]
  {
    assert forall i :: 0 <= i < 13 ==> s[..13][i] == s[i] && s[i] != ':';
    assert forall i :: 0 <= i < 2 ==> s[14..16][i] == s[14 + i] && s[14 + i] != ':';
    assert forall i :: 0 <= i < |s| - 17 ==> s[17..][i] == s[17 + i] && s[17 + i] != ':';
  }

  lemma CutAtColons(s: string, i: nat, j: nat)
    requires i < j < |s| && s[i] == ':' && s[j] == ':'
    ensures s == s[..i] + (":" + (s[i + 1..j] + (":" + s[j + 1..])))
  {
  }

  lemma StampHasTwoColons(s: string)
    requires IsStamp(s)
    ensures Colons(s) == 2
  {
    StampParts(s);
    CutAtColons(s, 13, 16);
    OneColon(s[..13], s[14..16] + (":" + s[17..]));
    OneColon(s[14..16], s[17..]);
    NoColons(s[17..]);
  }

  /** Endings with as many colons as each other tell where they begin. */
  lemma EndingsSplit(a: string, b: string, x: string, y: string)
    requires Colons(x) == Colons(y) && a + (":" + x) == b + (":" + y)
    ensures a == b && x == y
  {
    if |x| == |y| {
      SameLengthSplit(a, b, x, y);
    } else if |x| < |y| {
      LongerEnding(a, b, x, y);
    } else {
      LongerEnding(b, a, y, x);
    }
  }

  lemma SameLengthSplit(a: string, b: string, x: string, y: string)
    requires |x| == |y| && a + (":" + x) == b + (":" + y)
    ensures a == b && x == y
  {
    var s := a + (":" + x);
    assert |a| == |s| - |x| - 1 == |b|;
    assert s[..|a|] == a && s[..|b|] == b;
    assert s[|a| + 1..] == x && s[|b| + 1..] == y;
  }

  lemma {:induction false} LongerEnding(a: string, b: string, x: string, y: string)
    requires |x| < |y| && a + (":" + x) == b + (":" + y)
    ensures Colons(y) > Colons(x)
  {
    var s, k := a + (":" + x), |y| - |x| - 1;
    assert |a| == |b| + 1 + k;
    assert y == s[|b| + 1..];
    assert y[..k] + (":" + x) == y;
    ColonsAppend(y[..k], ":" + x);
    ColonsAppend(":", x);
    assert Colons(":") == 1 by { assert ":"[..0] == ""; }
  }

  function ReceivedAt(m: Inbound): string { match m.receivedAt case Some(t) => t case None => "na" }

  /** A missing stamp, or one in the server's format. */
  predicate StampedIfAtAll(m: Inbound) { m.receivedAt.Some? ==> Stamped(m) }

  lemma ReceivedAtColons(m: Inbound)
    requires StampedIfAtAll(m)
    ensures Colons(ReceivedAt(m)) == if m.receivedAt.Some? then 2 else 0
    ensures ReceivedAt(m) == "na" <==> m.receivedAt.None?
  {
    if m.receivedAt.Some? { StampHasTwoColons(m.receivedAt.value); } else { NoColons("na"); }
  }

  /** Two messages share a reference, so that only the first gets a reply, exactly when mailbox, thread
      and time of receipt agree. Mailbox ids hold no colon; thread ids may hold any number, unless one
      of the messages lacks its stamp. */
  lemma SameReferenceIff(m: Inbound, n: Inbound)
    requires ':' !in m.mailbox && ':' !in n.mailbox && StampedIfAtAll(m) && StampedIfAtAll(n)
    requires (m.receivedAt.Some? <==> n.receivedAt.Some?) || (':' !in m.thread && ':' !in n.thread)
    ensures ExternalRef(m) == ExternalRef(n) <==>
            m.mailbox == n.mailbox && m.thread == n.thread && m.receivedAt == n.receivedAt
  {
    var restM, restN := m.thread + (":" + ReceivedAt(m)), n.thread + (":" + ReceivedAt(n));
    assert ExternalRef(m) == m.mailbox + ":" + restM;
    assert ExternalRef(n) == n.mailbox + ":" + restN;
    ReceivedAtColons(m);
    ReceivedAtColons(n);
    if ExternalRef(m) == ExternalRef(n) {
      ColonSplits(m.mailbox, n.mailbox, restM, restN);
      if m.receivedAt.Some? <==> n.receivedAt.Some? {
        EndingsSplit(m.thread, n.thread, ReceivedAt(m), ReceivedAt(n));
      } else {
        assert restM == m.thread + ":" + ReceivedAt(m) && restN == n.thread + ":" + ReceivedAt(n);
        ColonSplits(m.thread, n.thread, ReceivedAt(m), ReceivedAt(n));
      }
    }
  }

  // ---- one reply per message, over every run --------------------------------------------------

  /** Two messages that the reference cannot tell apart. */
  predicate SameOrigin(m: Inbound, n: Inbound) {
    m.mailbox == n.mailbox && m.thread == n.thread && m.receivedAt == n.receivedAt
  }

  /** A message as the watcher hands it over, for a mailbox whose id holds no colon. */
  predicate Receivable(m: Inbound) { ':' !in m.mailbox && Stamped(m) }

  /** The handler of message `i` wrote a row. */
  predicate Wrote(cap: nat, inbound: seq<Inbound>, i: nat)
    requires i < |inbound|
  {
    Writes(HandleAll(cap, inbound[..i]), cap, inbound[i])
  }

  lemma LastHandled(cap: nat, inbound: seq<Inbound>, n: Inbound)
    ensures HandleAll(cap, inbound + [n]) == Handle(HandleAll(cap, inbound), cap, n)
  {
    assert (inbound + [n])[..|inbound|] == inbound;
  }

  /** Every row was written by the handler of one of the messages … */
  lemma {:induction false} RowsComeFrom(cap: nat, inbound: seq<Inbound>, r: Row) returns (i: nat)
    requires r in HandleAll(cap, inbound)
    ensures i < |inbound| && Wrote(cap, inbound, i) && r.ref == ExternalRef(inbound[i])
    ensures r == RowOf(HandleAll(cap, inbound[..i]), inbound[i])
  {
    var n := |inbound| - 1;
    var before := HandleAll(cap, inbound[..n]);
    HandleMeans(before, cap, inbound[n]);
    if r in before {
      i := RowsComeFrom(cap, inbound[..n], r);
      assert inbound[..n][..i] == inbound[..i];
    } else {
      i := n;
    }
  }

  /** … and stays. */
  lemma {:induction false} WrittenStays(cap: nat, inbound: seq<Inbound>, i: nat)
    requires i < |inbound| && Wrote(cap, inbound, i)
    ensures exists r :: r in HandleAll(cap, inbound) && r.ref == ExternalRef(inbound[i])
  {
    var n := |inbound| - 1;
    var before := HandleAll(cap, inbound[..n]);
    HandleMeans(before, cap, inbound[n]);
    if i < n {
      assert inbound[..n][..i] == inbound[..i];
      WrittenStays(cap, inbound[..n], i);
      var r :| r in before && r.ref == ExternalRef(inbound[i]);
      assert r in HandleAll(cap, inbound);
    } else {
      assert RowOf(before, inbound[n]) in HandleAll(cap, inbound);
    }
  }

  /** In every run a row sent without approval was written for a registered agent, in a thread that had
      fewer than five such rows in the 24 hours before, and was let go by its compose. */
  lemma SendsAreRegistered(cap: nat, inbound: seq<Inbound>, r: Row) returns (i: nat)
    requires r in HandleAll(cap, inbound) && r.mode == SEND
    ensures i < |inbound| && inbound[i].registered && inbound[i].compose == Recorded(SEND)
    ensures r.thread == inbound[i].thread && r.mailbox == inbound[i].mailbox
    ensures ThreadSends(HandleAll(cap, inbound[..i]), r.thread, inbound[i].gateAt) < 5
  {
    i := RowsComeFrom(cap, inbound, r);
    SendsIff(HandleAll(cap, inbound[..i]), inbound[i]);
  }

  /** In every run, a message that passes the gates, the mailbox cap and the model is composed exactly
      unless an earlier message of the same mailbox and thread, received at the same time, was. */
  lemma {:induction false} ComposedIffNoneBefore(cap: nat, inbound: seq<Inbound>, n: Inbound)
    requires Answerable(n) && MailboxComposes(HandleAll(cap, inbound), n.mailbox, n.gateAt) < cap
    requires Receivable(n) && forall i :: 0 <= i < |inbound| ==> Receivable(inbound[i])
    ensures HandleAll(cap, inbound + [n]) != HandleAll(cap, inbound) <==>
            forall i :: 0 <= i < |inbound| && Wrote(cap, inbound, i) ==> !SameOrigin(inbound[i], n)
  {
    var rows := HandleAll(cap, inbound);
    LastHandled(cap, inbound, n);
    HandleMeans(rows, cap, n);
    forall i | 0 <= i < |inbound|
      ensures ExternalRef(inbound[i]) == ExternalRef(n) <==> SameOrigin(inbound[i], n)
    {
      SameReferenceIff(inbound[i], n);
    }
    if forall i :: 0 <= i < |inbound| && Wrote(cap, inbound, i) ==> !SameOrigin(inbound[i], n) {
      forall r | r in rows
        ensures r.ref != ExternalRef(n)
      {
        var i := RowsComeFrom(cap, inbound, r);
      }
    } else {
      var i :| 0 <= i < |inbound| && Wrote(cap, inbound, i) && SameOrigin(inbound[i], n);
      WrittenStays(cap, inbound, i);
    }
  }

  /** In particular no message without such an earlier one is left out. */
  lemma NewMessagesAreComposed(cap: nat, inbound: seq<Inbound>, n: Inbound)
    requires Answerable(n) && MailboxComposes(HandleAll(cap, inbound), n.mailbox, n.gateAt) < cap
    requires Receivable(n) && forall i :: 0 <= i < |inbound| ==> Receivable(inbound[i]) && !SameOrigin(inbound[i], n)
    ensures Writes(HandleAll(cap, inbound), cap, n)
  {
    ComposedIffNoneBefore(cap, inbound, n);
    LastHandled(cap, inbound, n);
    HandleMeans(HandleAll(cap, inbound), cap, n);
  }

  lemma FirstIsComposed(cap: nat, m: Inbound)
    requires Answerable(m) && cap > 0
    ensures |HandleAll(cap, [m])| == 1 && Wrote(cap, [m], 0)
  {
    assert [m][..0] == [];
    HandleMeans([], cap, m);
  }

  lemma CountAtMost(rows: seq<Row>, counts: Row -> bool)
    ensures Count(rows, counts) <= |rows|
  {
  }

  /** Of two messages that would each be answered, the second is answered too exactly unless it came to
      the same mailbox and thread with the same stamp. */
  lemma SecondIsComposedIff(cap: nat, first: Inbound, second: Inbound)
    requires Receivable(first) && Receivable(second) && Answerable(first) && Answerable(second) && cap >= 2
    ensures |HandleAll(cap, [first, second])| == if SameOrigin(first, second) then 1 else 2
  {
    FirstIsComposed(cap, first);
    CountAtMost(HandleAll(cap, [first]), RecentCompose(second.mailbox, second.gateAt));
    ComposedIffNoneBefore(cap, [first], second);
    assert [first] + [second] == [first, second];
    LastHandled(cap, [first], second);
    HandleMeans(HandleAll(cap, [first]), cap, second);
  }

  /** So two different messages of one thread received in the same second get one reply between them. */
  lemma SameSecondSharesOneReply(cap: nat, first: Inbound, second: Inbound)
    requires Receivable(first) && Answerable(first) && Answerable(second) && cap >= 2
    requires SameOrigin(first, second) && first.sender != second.sender
    ensures |HandleAll(cap, [first, second])| == 1
  {
    SecondIsComposedIff(cap, first, second);
  }
}
