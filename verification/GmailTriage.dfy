/** Thread triage on Gmail: archive, trash, spam and back to the inbox as label edits in chunks of 100. */
module GmailTriage {
  import opened Text

  const CHUNK: nat := 100

  /** A message of the mailbox, keyed by its id. */
  datatype Message = Message(thread: string, labels: set<string>)

  type Mailbox = map<string, Message>

  datatype Verb = Archive | Trash | Spam | Inbox | Read | Unread

  datatype Edit = Edit(add: set<string>, remove: set<string>)

  function EditOf(v: Verb): Edit {
    match v
    case Archive => Edit({}, {"INBOX"})
    case Trash => Edit({"TRASH"}, {})
    case Spam => Edit({"SPAM"}, {"INBOX"})
    case Inbox => Edit({"INBOX"}, {"SPAM", "TRASH"})
    case Read => Edit({}, {"UNREAD"})
    case Unread => Edit({"UNREAD"}, {})
  }

  function Relabel(m: Message, e: Edit): Message { m.(labels := (m.labels - e.remove) + e.add) }

  /** The edit applied to the listed messages and to nothing else. */
  function Modify(box: Mailbox, ids: seq<string>, e: Edit): Mailbox {
    map id | id in box :: if id in ids then Relabel(box[id], e) else box[id]
  }

  // ---- which messages a verb touches -------------------------------------------------------------

  datatype Direction = Draft | Sent | Received

  function DirectionOf(labels: set<string>): Direction {
    if "DRAFT" in labels then Draft else if "SENT" in labels then Sent else Received
  }

  /** A message as the thread listing reports it. */
  datatype Listed = Listed(id: string, direction: Direction)

  /** On Microsoft these verbs move messages between folders; marking as read does not. */
  predicate Moves(microsoft: bool, verb: Verb) { microsoft && verb != Read && verb != Unread }

  predicate Touches(moves: bool, m: Listed) { m.direction != Draft && (!moves || m.direction == Received) }

  /** Received messages are always touched, sent ones unless Microsoft would move them, drafts never. */
  lemma TouchesIff(microsoft: bool, verb: Verb, m: Listed)
    ensures Touches(Moves(microsoft, verb), m) <==>
            m.direction == Received || (m.direction == Sent && (!microsoft || verb == Read || verb == Unread))
  {
  }

  function IdIfTouched(moves: bool): Listed -> seq<string> { (m: Listed) => if Touches(moves, m) then [m.id] else [] }

  /** The ids are those of the touched messages. */
  ghost predicate TouchedIn(moves: bool, messages: seq<Listed>, ids: seq<string>) {
    forall id :: id in ids <==> exists m :: m in messages && m.id == id && Touches(moves, m)
  }

  lemma TouchedOneMore(moves: bool, messages: seq<Listed>, ids: seq<string>, m: Listed)
    requires TouchedIn(moves, messages, ids)
    ensures TouchedIn(moves, messages + [m], ids + IdIfTouched(moves)(m))
  {
    forall id
      ensures id in ids + IdIfTouched(moves)(m) <==>
              exists x :: x in messages + [m] && x.id == id && Touches(moves, x)
    {
      if id in ids {
        var x :| x in messages && x.id == id && Touches(moves, x);
        assert x in messages + [m];
      }
      if Touches(moves, m) && id == m.id { assert m in messages + [m]; }
    }
  }

  lemma {:induction false} TouchedAre(moves: bool, messages: seq<Listed>)
    ensures TouchedIn(moves, messages, FlatMap(IdIfTouched(moves), messages))
  {
    if messages != [] {
      var n := |messages| - 1;
      TouchedAre(moves, messages[..n]);
      TouchedOneMore(moves, messages[..n], FlatMap(IdIfTouched(moves), messages[..n]), messages[n]);
      assert messages == messages[..n] + [messages[n]];
    }
  }

  /** Drafts are never touched; where a verb moves messages between folders, only received ones are. */
  method ThreadTriageIds(microsoft: bool, messages: seq<Listed>, verb: Verb) returns (ids: seq<string>)
    ensures ids == FlatMap(IdIfTouched(Moves(microsoft, verb)), messages)
    ensures TouchedIn(Moves(microsoft, verb), messages, ids)
  {
    ids := [];
    ghost var touched := IdIfTouched(Moves(microsoft, verb));
    for i := 0 to |messages|
      invariant ids == FlatMap(touched, messages[..i])
    {
      assert messages[..i + 1] == messages[..i] + [messages[i]];
      FlatMapSnoc(touched, messages[..i], messages[i]);
      AppendNothing(ids);
      if messages[i].direction == Draft { continue; }
      if microsoft && verb != Read && verb != Unread && messages[i].direction != Received { continue; }
      ids := ids + [messages[i].id];
    }
    assert messages[..|messages|] == messages;
    TouchedAre(Moves(microsoft, verb), messages);
  }

  // ---- chunked calls -----------------------------------------------------------------------------

  /** How a remote call ends: it works, or it fails and has or has not taken effect. */
  datatype Call = Worked | FailedAfter | FailedBefore

  lemma ModifyTwice(box: Mailbox, a: seq<string>, b: seq<string>, e: Edit)
    requires e.add !! e.remove
    ensures Modify(Modify(box, a, e), b, e) == Modify(box, a + b, e)
  {
    forall id | id in box
      ensures Modify(Modify(box, a, e), b, e)[id] == Modify(box, a + b, e)[id]
    {
      assert Relabel(Relabel(box[id], e), e) == Relabel(box[id], e);
    }
  }

  /** Repeating a request that was cut short has the effect of the whole request. */
  lemma RetryCompletes(box: Mailbox, ids: seq<string>, done: nat, e: Edit)
    requires e.add !! e.remove && done <= |ids|
    ensures Modify(Modify(box, ids[..done], e), ids, e) == Modify(box, ids, e)
  {
    ModifyTwice(box, ids[..done], ids, e);
    assert forall id :: id in ids[..done] + ids <==> id in ids;
  }

  lemma ModifyNothing(box: Mailbox, e: Edit)
    ensures Modify(box, [], e) == box
  {
  }

  lemma NextChunk(ids: seq<string>, i: nat, j: nat)
    requires i <= j <= |ids|
    ensures ids[..j] == ids[..i] + ids[i..j]
  {
  }

  class Gmail {
    var box: Mailbox

    constructor (initial: Mailbox)
      ensures box == initial
    {
      box := initial;
    }

    /** One remote call, atomic on its side. */
    method BatchModify(ids: seq<string>, e: Edit, call: Call) returns (ok: bool)
      modifies this
      ensures ok <==> call == Worked
      ensures box == if call == FailedBefore then old(box) else Modify(old(box), ids, e)
    {
      if call != FailedBefore { box := Modify(box, ids, e); }
      ok := call == Worked;
    }

    /** The loop of every batch verb. A failed call ends it; the chunks before it stay applied. */
    method Batch(ids: seq<string>, e: Edit, calls: nat -> Call) returns (changed: Option<nat>, ghost done: nat)
      requires e.add !! e.remove
      modifies this
      ensures done <= |ids| && box == Modify(old(box), ids[..done], e)
      ensures changed.Some? ==> changed.value == |ids| && done == |ids|
      ensures changed.None? <==> exists k: nat :: k * CHUNK < |ids| && calls(k) != Worked
    {
      var count, i, k := 0, 0, 0;
      done := 0;
      ModifyNothing(box, e);
      while i < |ids|
        invariant 0 <= i && i == k * CHUNK && count == done == (if i < |ids| then i else |ids|)
        invariant box == Modify(old(box), ids[..done], e)
        invariant forall n: nat :: n < k ==> calls(n) == Worked
      {
        var end := if i + CHUNK < |ids| then i + CHUNK else |ids|;
        ModifyTwice(old(box), ids[..i], ids[i..end], e);
        NextChunk(ids, i, end);
        var ok := BatchModify(ids[i..end], e, calls(k));
        if !ok {
          if calls(k) == FailedAfter { done := end; }
          assert k * CHUNK < |ids| && calls(k) != Worked;
          return None, done;
        }
        count := count + |ids[i..end]|;
        i, k, done := i + CHUNK, k + 1, end;
      }
      assert forall n: nat :: n * CHUNK < |ids| ==> n < k;
      return Some(count), done;
    }

    /** A triage request on one thread: list it, pick the messages, edit their labels. */
    method TriageThread(thread: string, verb: Verb, listing: seq<string>, calls: nat -> Call)
      returns (moved: Option<nat>)
      requires Lists(box, thread, listing)
      modifies this
      ensures moved.Some? ==> box == Triaged(old(box), thread, verb)
      ensures Partly(old(box), box, thread, verb)
    {
      ghost var before := box;
      var ids := ThreadTriageIds(false, ListedOf(box, listing), verb);
      TouchedIds(box, thread, listing, ids);
      if ids == [] {
        TriagedIs(before, thread, verb, ids);
        ModifyNothing(before, EditOf(verb));
        return Some(0);
      }
      ghost var done;
      moved, done := Batch(ids, EditOf(verb), calls);
      TriagedIs(before, thread, verb, ids);
      assert ids[..|ids|] == ids;
      assert forall id :: id in ids[..done] ==> id in ids;
    }
  }

  // ---- one request -------------------------------------------------------------------------------

  /** The listing names every message of the thread and nothing else. */
  ghost predicate Lists(box: Mailbox, thread: string, listing: seq<string>) {
    forall id :: id in listing <==> id in box && box[id].thread == thread
  }

  function ListedOf(box: Mailbox, listing: seq<string>): seq<Listed>
    requires forall id :: id in listing ==> id in box
  {
    seq(|listing|, i requires 0 <= i < |listing| => (assert listing[i] in listing;
                                                     Listed(listing[i], DirectionOf(box[listing[i]].labels))))
  }

  predicate InTriage(m: Message, thread: string) { m.thread == thread && "DRAFT" !in m.labels }

  lemma TouchedIds(box: Mailbox, thread: string, listing: seq<string>, ids: seq<string>)
    requires Lists(box, thread, listing)
    requires TouchedIn(false, ListedOf(box, listing), ids)
    ensures forall id :: id in ids <==> id in box && InTriage(box[id], thread)
  {
    var ms := ListedOf(box, listing);
    forall id
      ensures id in ids <==> id in box && InTriage(box[id], thread)
    {
      if id in box && InTriage(box[id], thread) {
        var i :| 0 <= i < |listing| && listing[i] == id;
        assert ms[i].id == id && Touches(false, ms[i]) && ms[i] in ms;
      }
    }
  }

  /** What a successful request does: every message of the thread but its drafts is relabelled. */
  function Triaged(box: Mailbox, thread: string, verb: Verb): Mailbox {
    map id | id in box :: if InTriage(box[id], thread) then Relabel(box[id], EditOf(verb)) else box[id]
  }

  lemma TriagedIs(box: Mailbox, thread: string, verb: Verb, ids: seq<string>)
    requires forall id :: id in ids <==> id in box && InTriage(box[id], thread)
    ensures Triaged(box, thread, verb) == Modify(box, ids, EditOf(verb))
  {
  }

  /** Also when a request is cut short, a message is either as before or as requested. */
  ghost predicate Partly(before: Mailbox, after: Mailbox, thread: string, verb: Verb) {
    && after.Keys == before.Keys
    && forall id :: id in before ==>
         after[id] == before[id] || (InTriage(before[id], thread) && after[id] == Relabel(before[id], EditOf(verb)))
  }

  /** Which labels each verb leaves on a message of the thread that is no draft. */
  predicate LabelAfter(verb: Verb, name: string, before: bool) {
    match verb
    case Archive => before && name != "INBOX"
    case Trash => before || name == "TRASH"
    case Spam => name == "SPAM" || (before && name != "INBOX")
    case Inbox => name == "INBOX" || (before && name != "SPAM" && name != "TRASH")
    case Read => before && name != "UNREAD"
    case Unread => before || name == "UNREAD"
  }

  lemma VerbLeaves(box: Mailbox, thread: string, verb: Verb, id: string, name: string)
    requires id in box
    ensures id in Triaged(box, thread, verb)
    ensures name in Triaged(box, thread, verb)[id].labels <==>
            if box[id].thread == thread && "DRAFT" !in box[id].labels
            then LabelAfter(verb, name, name in box[id].labels) else name in box[id].labels
  {
    assert "INBOX"[0] != "SPAM"[0] && "INBOX"[0] != "TRASH"[0];
  }

  // ---- there and back ----------------------------------------------------------------------------

  /** The labels of a message brought back to the inbox. */
  function BackInInbox(labels: set<string>): set<string> { (labels + {"INBOX"}) - {"SPAM", "TRASH"} }

  lemma VerbsKeepDirection(m: Message, verb: Verb)
    ensures DirectionOf(Relabel(m, EditOf(verb)).labels) == DirectionOf(m.labels)
  {
  }

  /** Archiving, trashing or reporting a thread and then restoring it gives every non-draft message
      of the thread its old labels plus INBOX minus SPAM and TRASH; everything else is as it was. */
  lemma RestoreAfter(box: Mailbox, thread: string, verb: Verb)
    requires verb in {Archive, Trash, Spam}
    ensures var back := Triaged(Triaged(box, thread, verb), thread, Inbox);
            && back.Keys == box.Keys
            && forall id :: id in box ==>
                 && back[id].thread == box[id].thread
                 && back[id].labels == if InTriage(box[id], thread) then BackInInbox(box[id].labels) else box[id].labels
  {
    var back := Triaged(Triaged(box, thread, verb), thread, Inbox);
    forall id | id in box
      ensures back[id].labels == if InTriage(box[id], thread) then BackInInbox(box[id].labels) else box[id].labels
    {
      VerbsKeepDirection(box[id], verb);
    }
  }

  predicate WhollyInInbox(m: Message) { "INBOX" in m.labels && "SPAM" !in m.labels && "TRASH" !in m.labels }

  /** So the round trip changes nothing exactly when every non-draft of the thread was in the inbox. */
  lemma RoundTripIsIdentityIff(box: Mailbox, thread: string, verb: Verb)
    requires verb in {Archive, Trash, Spam}
    ensures Triaged(Triaged(box, thread, verb), thread, Inbox) == box <==>
            forall id :: id in box && InTriage(box[id], thread) ==> WhollyInInbox(box[id])
  {
    RestoreAfter(box, thread, verb);
    var back := Triaged(Triaged(box, thread, verb), thread, Inbox);
    forall id | id in box
      ensures back[id] == box[id] <==> InTriage(box[id], thread) ==> WhollyInInbox(box[id])
    {
      InboxLabels(box[id].labels);
    }
    assert back == box <==> forall id :: id in box ==> back[id] == box[id];
  }

  lemma InboxLabels(labels: set<string>)
    ensures BackInInbox(labels) == labels <==> "INBOX" in labels && "SPAM" !in labels && "TRASH" !in labels
  {
    assert "INBOX" != "SPAM" && "INBOX" != "TRASH" by {
      assert "INBOX"[0] != "SPAM"[0] && "INBOX"[0] != "TRASH"[0];
    }
    assert "INBOX" in BackInInbox(labels);
  }
}
