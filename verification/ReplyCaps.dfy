/** The agent-reply runtime's two rolling caps: composes per mailbox and automatic sends per thread,
    each counted over the 24 hours before a handler runs. Handlers run one after the other. */
module ReplyCaps {
  import opened Text

  const WINDOW: int := 24 * 60 * 60 * 1000
  const THREAD_AUTO_SEND_CAP: nat := 5

  datatype Mode = SEND | DRAFT

  /** A message row composed by the runtime. */
  datatype Row = Row(ref: string, mailbox: string, thread: string, mode: Mode, createdAt: int)

  /** What a compose did: the mode it recorded, or a refusal. */
  datatype Compose = Recorded(mode: Mode) | Refused

  /** One inbound message as the handler finds it: the message, the switches read with it, what the
      model would answer on each attempt, when the gate was read and when a row would be written,
      and what the compose did. */
  datatype Inbound = Inbound(
    mailbox: string, thread: string, receivedAt: Option<string>,
    sender: string, ownAddress: string, automatedSender: bool, autoreply: bool,
    enabled: bool, agentsPaused: bool, agentPaused: bool, senderIsAgent: bool, registered: bool,
    answers: nat -> Option<string>, gateAt: int, createdAt: int, compose: Compose)

  const LLM_MAX_ATTEMPTS: nat := 2

  /** The gates before any model call, other than the mailbox cap. */
  predicate GatesOpen(m: Inbound) {
    && m.enabled && m.sender != "" && m.sender != m.ownAddress && !m.automatedSender && !m.autoreply
    && !m.agentsPaused && !m.agentPaused && !m.senderIsAgent
  }

  /** An answer worth staging (already trimmed and lower-cased for the test). */
  predicate Usable(answer: Option<string>) {
    answer.Some? && answer.value != "" && !StartsWith(answer.value, "ai_unavailable")
  }

  /** Some attempt out of the allowed two gave a usable answer. */
  predicate Answered(m: Inbound) { exists k: nat :: k < LLM_MAX_ATTEMPTS && Usable(m.answers(k)) }

  function ExternalRef(m: Inbound): string {
    m.mailbox + ":" + m.thread + ":" + (match m.receivedAt case Some(t) => t case None => "na")
  }

  function Count(rows: seq<Row>, counts: Row -> bool): nat {
    if rows == [] then 0
    else Count(rows[..|rows| - 1], counts) + if counts(rows[|rows| - 1]) then 1 else 0
  }

  function RecentSend(thread: string, at: int): Row -> bool {
    (r: Row) => r.mode == SEND && r.thread == thread && r.createdAt > at - WINDOW
  }

  function RecentCompose(mailbox: string, at: int): Row -> bool {
    (r: Row) => StartsWith(r.ref, mailbox + ":") && r.createdAt > at - WINDOW
  }

  /** Rows of this thread sent automatically within the 24 hours before `at`. */
  function ThreadSends(rows: seq<Row>, thread: string, at: int): nat { Count(rows, RecentSend(thread, at)) }

  /** Rows whose reference starts with the mailbox id and a colon, within the 24 hours before `at`. */
  function MailboxComposes(rows: seq<Row>, mailbox: string, at: int): nat { Count(rows, RecentCompose(mailbox, at)) }

  function RequestedMode(rows: seq<Row>, m: Inbound): Mode {
    if m.registered && ThreadSends(rows, m.thread, m.gateAt) < THREAD_AUTO_SEND_CAP then SEND else DRAFT
  }

  /** The row a compose writes: in mode SEND only if a send was requested. */
  function RowOf(rows: seq<Row>, m: Inbound): Row
    requires m.compose.Recorded?
  {
    var mode := if RequestedMode(rows, m) == SEND then m.compose.mode else DRAFT;
    Row(ExternalRef(m), m.mailbox, m.thread, mode, m.createdAt)
  }

  /** composeEmail's contract: a repeated reference returns the existing row; otherwise at most one
      row is written. */
  function Composed(rows: seq<Row>, m: Inbound): seq<Row> {
    if m.compose.Refused? || (exists r :: r in rows && r.ref == ExternalRef(m)) then rows
    else rows + [RowOf(rows, m)]
  }

  function Handle(rows: seq<Row>, cap: nat, m: Inbound): seq<Row> {
    if !GatesOpen(m) || MailboxComposes(rows, m.mailbox, m.gateAt) >= cap || !Answered(m) then rows
    else Composed(rows, m)
  }

  /** All gates are open, the model answers and the compose goes through. */
  predicate Answerable(m: Inbound) { GatesOpen(m) && Answered(m) && m.compose.Recorded? }

  /** Handling the message writes a row. */
  predicate Writes(rows: seq<Row>, cap: nat, m: Inbound) {
    && Answerable(m) && MailboxComposes(rows, m.mailbox, m.gateAt) < cap
    && forall r :: r in rows ==> r.ref != ExternalRef(m)
  }

  lemma HandleMeans(rows: seq<Row>, cap: nat, m: Inbound)
    ensures Handle(rows, cap, m) == if Writes(rows, cap, m) then rows + [RowOf(rows, m)] else rows
  {
  }

  /** A row is written exactly when every switch allows it, the mailbox has room, one of two answers is
      usable, and the compose records a new reference; so each switch alone prevents it. */
  lemma RepliesIff(rows: seq<Row>, cap: nat, m: Inbound)
    ensures Handle(rows, cap, m) != rows <==>
            && m.enabled && !m.agentsPaused && !m.agentPaused
            && m.sender != "" && m.sender != m.ownAddress && !m.automatedSender && !m.autoreply && !m.senderIsAgent
            && MailboxComposes(rows, m.mailbox, m.gateAt) < cap
            && (exists k :: 0 <= k < 2 && WorthSending(m.answers(k)))
            && m.compose.Recorded?
            && forall r :: r in rows ==> r.ref != m.mailbox + ":" + m.thread + ":" + OrNa(m.receivedAt)
  {
    HandleMeans(rows, cap, m);
    if Answered(m) {
      var k: nat :| k < LLM_MAX_ATTEMPTS && Usable(m.answers(k));
      assert WorthSending(m.answers(k));
    }
    if exists k :: 0 <= k < 2 && WorthSending(m.answers(k)) {
      var k: nat :| k < 2 && WorthSending(m.answers(k));
      assert Usable(m.answers(k));
    }
  }

  /** A text, other than none at all and the notice that no model can be reached. */
  predicate WorthSending(answer: Option<string>) {
    answer.Some? && |answer.value| > 0 && !("ai_unavailable" <= answer.value)
  }

  function OrNa(stamp: Option<string>): string { if stamp.Some? then stamp.value else "na" }

  /** A row is sent without approval exactly when its agent is registered, the thread has had fewer than
      five such rows, and the compose let it go; anything else is a draft. */
  lemma SendsIff(rows: seq<Row>, m: Inbound)
    requires m.compose.Recorded?
    ensures RowOf(rows, m).mode == SEND <==>
            m.registered && ThreadSends(rows, m.thread, m.gateAt) < 5 && m.compose.mode == SEND
    ensures var r := RowOf(rows, m);
            r.mailbox == m.mailbox && r.thread == m.thread && r.createdAt == m.createdAt && r.ref == ExternalRef(m)
  {
  }

  function HandleAll(cap: nat, inbound: seq<Inbound>): seq<Row> {
    if inbound == [] then [] else Handle(HandleAll(cap, inbound[..|inbound| - 1]), cap, inbound[|inbound| - 1])
  }

  /** Handlers in sequence under a clock that never goes back. */
  predicate InSequence(inbound: seq<Inbound>) {
    && (forall i :: 0 <= i < |inbound| ==> inbound[i].gateAt <= inbound[i].createdAt)
    && (forall i, j :: 0 <= i < j < |inbound| ==> inbound[i].createdAt <= inbound[j].gateAt)
  }

  // ---- the caps over every window -----------------------------------------------------------

  lemma {:induction false} CountWithin(rows: seq<Row>, some: Row -> bool, more: Row -> bool)
    requires forall r :: r in rows && some(r) ==> more(r)
    ensures Count(rows, some) <= Count(rows, more)
  {
    if rows != [] {
      var n := |rows| - 1;
      assert forall r :: r in rows[..n] ==> r in rows;
      CountWithin(rows[..n], some, more);
      assert rows[n] in rows;
    }
  }

  /** Every row so far was written no later than `at`, and its reference begins with its mailbox. */
  predicate RowsBy(rows: seq<Row>, at: int) {
    forall r :: r in rows ==> r.createdAt <= at && StartsWith(r.ref, r.mailbox + ":")
  }

  lemma {:induction false} RowsAreEarlier(cap: nat, inbound: seq<Inbound>, at: int)
    requires InSequence(inbound)
    requires inbound != [] ==> inbound[|inbound| - 1].createdAt <= at
    ensures RowsBy(HandleAll(cap, inbound), at)
  {
    if inbound != [] {
      var n := |inbound| - 1;
      RowsAreEarlier(cap, inbound[..n], inbound[n].gateAt);
      var m := inbound[n];
      assert ExternalRef(m)[..|m.mailbox + ":"|] == m.mailbox + ":";
    }
  }

  function InMailbox(mailbox: string, from: int, to: int): Row -> bool {
    (r: Row) => r.mailbox == mailbox && from < r.createdAt <= to
  }

  function SentInThread(thread: string, from: int, to: int): Row -> bool {
    (r: Row) => r.mode == SEND && r.thread == thread && from < r.createdAt <= to
  }

  /** In every run, no half-open 24-hour window, wherever it lies, holds more than `cap` runtime
      composes for one mailbox. */
  lemma {:induction false} MailboxCapHolds(cap: nat, inbound: seq<Inbound>, mailbox: string, from: int)
    requires InSequence(inbound)
    ensures Count(HandleAll(cap, inbound), InMailbox(mailbox, from, from + WINDOW)) <= cap
  {
    if inbound != [] {
      var n := |inbound| - 1;
      var m, before := inbound[n], HandleAll(cap, inbound[..n]);
      MailboxCapHolds(cap, inbound[..n], mailbox, from);
      RowsAreEarlier(cap, inbound[..n], m.gateAt);
      var counted := InMailbox(mailbox, from, from + WINDOW);
      if HandleAll(cap, inbound) != before {
        var row := HandleAll(cap, inbound)[|before|];
        assert HandleAll(cap, inbound)[..|before|] == before;
        if counted(row) {
          CountWithin(before, counted, RecentCompose(m.mailbox, m.gateAt));
        }
      }
    }
  }

  /** In every run, no half-open 24-hour window holds more than five automatic sends in one thread. */
  lemma {:induction false} ThreadCapHolds(cap: nat, inbound: seq<Inbound>, thread: string, from: int)
    requires InSequence(inbound)
    ensures Count(HandleAll(cap, inbound), SentInThread(thread, from, from + WINDOW)) <= THREAD_AUTO_SEND_CAP
  {
    if inbound != [] {
      var n := |inbound| - 1;
      var m, before := inbound[n], HandleAll(cap, inbound[..n]);
      ThreadCapHolds(cap, inbound[..n], thread, from);
      RowsAreEarlier(cap, inbound[..n], m.gateAt);
      var counted := SentInThread(thread, from, from + WINDOW);
      if HandleAll(cap, inbound) != before {
        var row := HandleAll(cap, inbound)[|before|];
        assert HandleAll(cap, inbound)[..|before|] == before;
        if counted(row) {
          CountWithin(before, counted, RecentSend(thread, m.gateAt));
        }
      }
    }
  }

  // ---- the handler --------------------------------------------------------------------------

  class ReplyRuntime {
    var rows: seq<Row>
    const cap: nat

    constructor (cap: nat)
      ensures rows == HandleAll(cap, []) && this.cap == cap
    {
      rows, this.cap := [], cap;
    }

    /** Handle one inbound message. The model is not asked at all once a gate is shut or the mailbox
        cap is reached, and at most twice otherwise. */
    method DraftReplyForInbound(m: Inbound) returns (staged: bool, attempts: nat)
      modifies this`rows
      ensures rows == Handle(old(rows), cap, m)
      ensures attempts <= LLM_MAX_ATTEMPTS
      ensures attempts > 0 <==> GatesOpen(m) && MailboxComposes(old(rows), m.mailbox, m.gateAt) < cap
      ensures !staged ==> rows == old(rows)
    {
      attempts := 0;
      if !m.enabled || m.sender == "" || m.sender == m.ownAddress || m.automatedSender || m.autoreply {
        return false, attempts;
      }
      var threadAutoSends := ThreadSends(rows, m.thread, m.gateAt);
      var mailboxComposes := MailboxComposes(rows, m.mailbox, m.gateAt);
      if m.agentsPaused || m.agentPaused || m.senderIsAgent || mailboxComposes >= cap {
        return false, attempts;
      }
      var body: Option<string> := None;
      while attempts < LLM_MAX_ATTEMPTS
        invariant attempts <= LLM_MAX_ATTEMPTS
        invariant body == if attempts == 0 then None else m.answers(attempts - 1)
        invariant forall k: nat :: k < attempts ==> !Usable(m.answers(k))
      {
        body := m.answers(attempts);
        attempts := attempts + 1;
        if Usable(body) { break; }
      }
      if !Usable(body) { return false, attempts; }
      assert Answered(m) by { assert Usable(m.answers(attempts - 1)); }
      var overCap := threadAutoSends >= THREAD_AUTO_SEND_CAP;
      var requested := if m.registered && !overCap then SEND else DRAFT;
      if m.compose.Refused? { return false, attempts; }
      if exists r :: r in rows && r.ref == ExternalRef(m) { return true, attempts; }
      rows := rows + [Row(ExternalRef(m), m.mailbox, m.thread,
                      if requested == SEND then m.compose.mode else DRAFT, m.createdAt)];
      return true, attempts;
    }
  }

  // ---- one compose per message --------------------------------------------------------------

  ghost predicate UniqueRefs(rows: seq<Row>) {
    forall i, j :: 0 <= i < j < |rows| ==> rows[i].ref != rows[j].ref
  }

  lemma HandleKeepsUnique(rows: seq<Row>, cap: nat, m: Inbound)
    requires UniqueRefs(rows)
    ensures UniqueRefs(Handle(rows, cap, m))
  {
    assert forall i :: 0 <= i < |rows| ==> rows[i] in rows;
  }

  /** References never repeat: however often a message is handled, it is composed at most once. */
  lemma {:induction false} ReferencesAreUnique(cap: nat, inbound: seq<Inbound>)
    ensures UniqueRefs(HandleAll(cap, inbound))
  {
    if inbound != [] {
      var n := |inbound| - 1;
      ReferencesAreUnique(cap, inbound[..n]);
      HandleKeepsUnique(HandleAll(cap, inbound[..n]), cap, inbound[n]);
    }
  }
}
