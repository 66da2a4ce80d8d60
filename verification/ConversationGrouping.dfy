/** Grouping a page of messages, newest first, into at most `limit` conversations. */
module ConversationGrouping {
  import opened Text
  import opened FirstSeen

  /** An empty address stands for a missing one. */
  datatype Address = Address(address: string, name: string)

  datatype Message = Message(
    id: string, conversationId: string, subject: string, receivedAt: string, snippet: string, isRead: bool,
    from: Address, recipients: seq<Address>)

  datatype Summary = Summary(
    id: string, subject: string, lastMessageAt: string, snippet: string,
    count: nat, unread: bool, participants: seq<Address>)

  function Conversation(m: Message): string { if m.conversationId != "" then m.conversationId else m.id }

  function ConversationKey(): Message -> string { (m: Message) => Conversation(m) }

  function LowerAddress(lower: string -> string): Address -> string { (a: Address) => lower(a.address) }

  // ---- the plain specification -------------------------------------------------------------------

  /** The messages of one conversation, in page order. */
  function Of(page: seq<Message>, conv: string): seq<Message> {
    if page == [] then []
    else
      var last := page[|page| - 1];
      Of(page[..|page| - 1], conv) + if Conversation(last) == conv then [last] else []
  }

  function Known(people: seq<Address>): seq<Address> {
    if people == [] then []
    else
      var last := people[|people| - 1];
      Known(people[..|people| - 1]) + if last.address != "" then [last] else []
  }

  function People(): Message -> seq<Address> { (m: Message) => Known([m.from] + m.recipients) }

  ghost predicate AnyUnread(mine: seq<Message>) { exists m :: m in mine && !m.isRead }

  function Participants(mine: seq<Message>, lower: string -> string): seq<Address> {
    DistinctBy(LowerAddress(lower), FlatMap(People(), mine))
  }

  /** What the conversation made up of exactly these messages looks like. */
  ghost function Summarize(mine: seq<Message>, lower: string -> string): Summary
    requires mine != []
  {
    Summary(Conversation(mine[0]), mine[0].subject, mine[0].receivedAt, mine[0].snippet,
            |mine|, AnyUnread(mine), Participants(mine, lower))
  }

  function ConversationsOf(heads: seq<Message>): seq<string> {
    seq(|heads|, i requires 0 <= i < |heads| => Conversation(heads[i]))
  }

  /** The conversations in order of first appearance. */
  function Order(page: seq<Message>): seq<string> { ConversationsOf(DistinctBy(ConversationKey(), page)) }

  /** The first `limit` conversations, each summed up over the whole page. */
  ghost predicate Grouped(page: seq<Message>, limit: nat, lower: string -> string, result: seq<Summary>) {
    var shown := Take(Order(page), limit);
    && |result| == |shown|
    && forall k :: 0 <= k < |shown| ==>
         Of(page, shown[k]) != [] && result[k] == Summarize(Of(page, shown[k]), lower)
  }

  // ---- one message more --------------------------------------------------------------------------

  lemma OfSnoc(page: seq<Message>, m: Message, conv: string)
    ensures Of(page + [m], conv) == Of(page, conv) + if Conversation(m) == conv then [m] else []
  {
    assert (page + [m])[..|page|] == page;
  }

  lemma ConversationsSnoc(heads: seq<Message>, m: Message)
    ensures ConversationsOf(heads + [m]) == ConversationsOf(heads) + [Conversation(m)]
  {
  }

  lemma ConversationsAreKeys(heads: seq<Message>, conv: string)
    ensures conv in ConversationsOf(heads) <==> conv in Keys(ConversationKey(), heads)
  {
    if conv in ConversationsOf(heads) {
      var i :| 0 <= i < |heads| && ConversationsOf(heads)[i] == conv;
      assert ConversationKey()(heads[i]) == conv;
    }
    if conv in Keys(ConversationKey(), heads) {
      var i :| 0 <= i < |heads| && ConversationKey()(heads[i]) == conv;
      assert ConversationsOf(heads)[i] == conv;
    }
  }

  lemma OrderSnoc(page: seq<Message>, m: Message)
    ensures Order(page + [m]) == Order(page) + if Conversation(m) in Order(page) then [] else [Conversation(m)]
  {
    var heads := DistinctBy(ConversationKey(), page);
    DistinctBySnoc(ConversationKey(), page, m);
    ConversationsSnoc(heads, m);
    ConversationsAreKeys(heads, Conversation(m));
    AppendNothing(heads);
    AppendNothing(Order(page));
  }

  lemma TakeSnoc<T>(s: seq<T>, x: T, n: nat)
    ensures Take(s + [x], n) == Take(s, n) + if |s| < n then [x] else []
  {
  }

  /** A conversation has messages exactly when it is in the order. */
  lemma {:induction false} OrderHasAll(page: seq<Message>, conv: string)
    ensures conv in Order(page) <==> Of(page, conv) != []
  {
    if page != [] {
      var n := |page| - 1;
      OrderHasAll(page[..n], conv);
      assert page == page[..n] + [page[n]];
      OrderSnoc(page[..n], page[n]);
      OfSnoc(page[..n], page[n], conv);
    }
  }

  lemma SummarizeFirst(m: Message, lower: string -> string)
    ensures Summarize([m], lower) ==
            Summary(Conversation(m), m.subject, m.receivedAt, m.snippet, 1, !m.isRead,
                    DistinctBy(LowerAddress(lower), People()(m)))
  {
    FlatMapSnoc(People(), [], m);
    AppendNothing([m]);
    AppendNothing(People()(m));
    assert AnyUnread([m]) <==> !m.isRead by { assert m in [m]; }
  }

  lemma SummarizeSnoc(mine: seq<Message>, m: Message, lower: string -> string)
    requires mine != []
    ensures var s := Summarize(mine, lower);
            Summarize(mine + [m], lower) ==
            s.(count := s.count + 1, unread := s.unread || !m.isRead,
               participants := DistinctBy(LowerAddress(lower), FlatMap(People(), mine) + People()(m)))
  {
    FlatMapSnoc(People(), mine, m);
    assert (mine + [m])[0] == mine[0];
    assert AnyUnread(mine + [m]) <==> AnyUnread(mine) || !m.isRead by {
      assert m in mine + [m];
      assert forall x :: x in mine + [m] <==> x in mine || x == m;
    }
  }

  // ---- the grouping loop -------------------------------------------------------------------------

  /** Add the candidates that have an address not yet seen, comparing addresses in lower case. */
  method AddParticipants(participants: seq<Address>, seen: set<string>, candidates: seq<Address>,
                         lower: string -> string, ghost before: seq<Address>)
    returns (participants': seq<Address>, seen': set<string>)
    requires participants == DistinctBy(LowerAddress(lower), before)
    requires seen == Keys(LowerAddress(lower), participants)
    ensures participants' == DistinctBy(LowerAddress(lower), before + Known(candidates))
    ensures seen' == Keys(LowerAddress(lower), participants')
  {
    participants', seen' := participants, seen;
    AppendNothing(before);
    for j := 0 to |candidates|
      invariant participants' == DistinctBy(LowerAddress(lower), before + Known(candidates[..j]))
      invariant seen' == Keys(LowerAddress(lower), participants')
    {
      var addr := candidates[j];
      KnownStep(candidates, j);
      if addr.address != "" {
        Regroup(before, Known(candidates[..j]), [addr]);
        DistinctBySnoc(LowerAddress(lower), before + Known(candidates[..j]), addr);
        AppendNothing(participants');
        if lower(addr.address) !in seen' {
          KeysSnoc(LowerAddress(lower), participants', addr);
          seen' := seen' + {lower(addr.address)};
          participants' := participants' + [addr];
        }
      }
    }
    assert candidates[..|candidates|] == candidates;
  }

  lemma KnownStep(candidates: seq<Address>, j: nat)
    requires j < |candidates|
    ensures Known(candidates[..j + 1]) ==
            if candidates[j].address != "" then Known(candidates[..j]) + [candidates[j]] else Known(candidates[..j])
  {
    assert candidates[..j + 1][..j] == candidates[..j];
    AppendNothing(Known(candidates[..j]));
  }

  ghost predicate Row(page: seq<Message>, lower: string -> string, conv: string, summary: Summary, seen: set<string>) {
    && Of(page, conv) != []
    && summary == Summarize(Of(page, conv), lower)
    && seen == Keys(LowerAddress(lower), summary.participants)
  }

  /** Both tables hold exactly the conversations of `order`, each summed up over `page`. */
  ghost predicate Rows(page: seq<Message>, lower: string -> string, order: seq<string>,
                       threads: map<string, Summary>, seen: map<string, set<string>>) {
    && (forall c :: c in threads <==> c in order)
    && (forall c :: c in seen <==> c in order)
    && (forall c :: c in order ==> Row(page, lower, c, threads[c], seen[c]))
  }

  lemma RowStays(page: seq<Message>, m: Message, lower: string -> string, conv: string, summary: Summary,
                 seen: set<string>)
    requires Row(page, lower, conv, summary, seen) && Conversation(m) != conv
    ensures Row(page + [m], lower, conv, summary, seen)
  {
    OfSnoc(page, m, conv);
    AppendNothing(Of(page, conv));
  }

  lemma RowGrows(page: seq<Message>, m: Message, lower: string -> string, summary: Summary, seen: set<string>)
    requires summary == Summarize(Of(page, Conversation(m)) + [m], lower)
    requires seen == Keys(LowerAddress(lower), summary.participants)
    ensures Row(page + [m], lower, Conversation(m), summary, seen)
  {
    OfSnoc(page, m, Conversation(m));
  }

  lemma OthersStay(page: seq<Message>, m: Message, lower: string -> string, order: seq<string>,
                   threads: map<string, Summary>, seen: map<string, set<string>>)
    requires Rows(page, lower, order, threads, seen)
    ensures forall c :: c in order && c != Conversation(m) ==> Row(page + [m], lower, c, threads[c], seen[c])
  {
    forall c | c in order && c != Conversation(m)
      ensures Row(page + [m], lower, c, threads[c], seen[c])
    {
      RowStays(page, m, lower, c, threads[c], seen[c]);
    }
  }

  lemma RowsSkip(page: seq<Message>, m: Message, lower: string -> string, order: seq<string>,
                 threads: map<string, Summary>, seen: map<string, set<string>>)
    requires Rows(page, lower, order, threads, seen) && Conversation(m) !in order
    ensures Rows(page + [m], lower, order, threads, seen)
  {
    OthersStay(page, m, lower, order, threads, seen);
  }

  lemma UpdateTables<A, B>(order: seq<string>, threads: map<string, A>, seen: map<string, B>,
                           order': seq<string>, conv: string, a: A, b: B)
    requires forall c :: (c in threads <==> c in order) && (c in seen <==> c in order)
    requires order' == order + [conv] || (order' == order && conv in order)
    ensures forall c :: (c in threads[conv := a] <==> c in order') && (c in seen[conv := b] <==> c in order')
    ensures forall c :: c in order' <==> c in order || c == conv
  {
    assert forall c :: c in order' <==> c in order || c == conv;
  }

  lemma RowsUpdate(page: seq<Message>, lower: string -> string, order: seq<string>,
                   threads: map<string, Summary>, seen: map<string, set<string>>,
                   order': seq<string>, conv: string, summary: Summary, keys: set<string>)
    requires forall c :: (c in threads <==> c in order) && (c in seen <==> c in order)
    requires forall c :: c in order && c != conv ==> Row(page, lower, c, threads[c], seen[c])
    requires Row(page, lower, conv, summary, keys)
    requires order' == order + [conv] || (order' == order && conv in order)
    ensures Rows(page, lower, order', threads[conv := summary], seen[conv := keys])
  {
    UpdateTables(order, threads, seen, order', conv, summary, keys);
  }

  lemma OrderAfter(page: seq<Message>, m: Message, limit: nat)
    ensures var order := Take(Order(page), limit);
            var conv := Conversation(m);
            Take(Order(page + [m]), limit) == if conv in order || |order| >= limit then order else order + [conv]
  {
    OrderSnoc(page, m);
    AppendNothing(Order(page));
    TakeSnoc(Order(page), Conversation(m), limit);
    AppendNothing(Take(Order(page), limit));
  }

  lemma NotShownIsNew(page: seq<Message>, limit: nat, conv: string)
    requires conv !in Take(Order(page), limit) && |Take(Order(page), limit)| < limit
    ensures Of(page, conv) == []
  {
    OrderHasAll(page, conv);
  }

  lemma RowsGroup(page: seq<Message>, limit: nat, lower: string -> string, order: seq<string>,
                  threads: map<string, Summary>, seen: map<string, set<string>>, result: seq<Summary>)
    requires Rows(page, lower, order, threads, seen) && order == Take(Order(page), limit)
    requires |result| == |order| && forall k :: 0 <= k < |order| ==> result[k] == threads[order[k]]
    ensures Grouped(page, limit, lower, result)
  {
    forall k | 0 <= k < |order|
      ensures Of(page, order[k]) != [] && result[k] == Summarize(Of(page, order[k]), lower)
    {
      assert Row(page, lower, order[k], threads[order[k]], seen[order[k]]);
    }
  }

  /** The loop's tables after these messages. */
  ghost predicate Tabled(page: seq<Message>, limit: nat, lower: string -> string, order: seq<string>,
                         threads: map<string, Summary>, seen: map<string, set<string>>)
  {
    order == Take(Order(page), limit) && Rows(page, lower, order, threads, seen)
  }

  /** A message whose conversation is shown, or now gets its place, is counted in it. */
  lemma TabledMore(page: seq<Message>, m: Message, limit: nat, lower: string -> string, order: seq<string>,
                   threads: map<string, Summary>, seen: map<string, set<string>>,
                   order': seq<string>, summary: Summary, people: set<string>)
    requires Tabled(page, limit, lower, order, threads, seen)
    requires order' == (if Conversation(m) in order then order else order + [Conversation(m)])
    requires Conversation(m) in order || |order| < limit
    requires summary == Summarize(Of(page, Conversation(m)) + [m], lower)
    requires people == Keys(LowerAddress(lower), summary.participants)
    ensures Tabled(page + [m], limit, lower, order',
                   threads[Conversation(m) := summary], seen[Conversation(m) := people])
  {
    OrderAfter(page, m, limit);
    RowGrows(page, m, lower, summary, people);
    OthersStay(page, m, lower, order, threads, seen);
    RowsUpdate(page + [m], lower, order, threads, seen, order', Conversation(m), summary, people);
  }

  /** Past the limit, a message of another conversation changes nothing. */
  lemma TabledSame(page: seq<Message>, m: Message, limit: nat, lower: string -> string, order: seq<string>,
                   threads: map<string, Summary>, seen: map<string, set<string>>)
    requires Tabled(page, limit, lower, order, threads, seen)
    requires Conversation(m) !in order && |order| >= limit
    ensures Tabled(page + [m], limit, lower, order, threads, seen)
  {
    OrderAfter(page, m, limit);
    RowsSkip(page, m, lower, order, threads, seen);
  }

  /** Count one more message of a conversation whose earlier messages are `mine`. */
  method Absorb(summary: Summary, people: set<string>, msg: Message, lower: string -> string, ghost mine: seq<Message>)
    returns (summary': Summary, people': set<string>)
    requires mine == [] ==>
      summary == Summary(Conversation(msg), msg.subject, msg.receivedAt, msg.snippet, 0, false, []) && people == {}
    requires mine != [] ==>
      summary == Summarize(mine, lower) && people == Keys(LowerAddress(lower), summary.participants)
    ensures summary' == Summarize(mine + [msg], lower)
    ensures people' == Keys(LowerAddress(lower), summary'.participants)
  {
    summary' := summary.(count := summary.count + 1);
    if !msg.isRead { summary' := summary'.(unread := true); }
    var participants;
    participants, people' :=
      AddParticipants(summary.participants, people, [msg.from] + msg.recipients, lower, FlatMap(People(), mine));
    summary' := summary'.(participants := participants);
    if mine == [] {
      SummarizeFirst(msg, lower);
      AppendNothing([msg]);
      AppendNothing(People()(msg));
    } else {
      SummarizeSnoc(mine, msg, lower);
    }
  }

  /** The grouping loop keeps a table of summaries and a list of their ids, and stops adding
      conversations, but not counting messages, once the limit is reached. */
  method ListThreads(page: seq<Message>, limit: nat, lower: string -> string) returns (result: seq<Summary>)
    ensures Grouped(page, limit, lower, result)
  {
    var order: seq<string> := [];
    var threads: map<string, Summary> := map[];
    var seen: map<string, set<string>> := map[];
    for i := 0 to |page|
      invariant Tabled(page[..i], limit, lower, order, threads, seen)
    {
      var msg := page[i];
      ghost var front := page[..i];
      assert page[..i + 1] == front + [msg];
      var conv := Conversation(msg);
      var order', summary, people := order, Summary("", "", "", "", 0, false, []), {};
      if conv in threads {
        assert Row(front, lower, conv, threads[conv], seen[conv]);
        summary, people := threads[conv], seen[conv];
      } else if |order| >= limit {
        TabledSame(front, msg, limit, lower, order, threads, seen);
        continue;
      } else {
        NotShownIsNew(front, limit, conv);
        order' := order + [conv];
        summary := Summary(conv, msg.subject, msg.receivedAt, msg.snippet, 0, false, []);
      }
      summary, people := Absorb(summary, people, msg, lower, Of(front, conv));
      TabledMore(front, msg, limit, lower, order, threads, seen, order', summary, people);
      order, threads, seen := order', threads[conv := summary], seen[conv := people];
    }
    assert page[..|page|] == page;
    result := seq(|order|, k requires 0 <= k < |order| && order[k] in threads => threads[order[k]]);
    RowsGroup(page, limit, lower, order, threads, seen, result);
  }

  // ---- what the specification says ---------------------------------------------------------------

  /** The order lists every conversation of the page once, by first appearance. */
  lemma OrderIsFirstAppearance(page: seq<Message>) returns (at: seq<nat>)
    ensures FirstPositions(ConversationKey(), page, at) && |at| == |Order(page)|
    ensures forall k :: 0 <= k < |at| ==> at[k] < |page| && Order(page)[k] == Conversation(page[at[k]])
    ensures forall i, j :: 0 <= i < j < |Order(page)| ==> Order(page)[i] != Order(page)[j]
  {
    at := DistinctByIsFirsts(ConversationKey(), page);
    KeptKeysDiffer(ConversationKey(), page);
    var heads := DistinctBy(ConversationKey(), page);
    assert forall k :: 0 <= k < |heads| ==> ConversationKey()(heads[k]) == Order(page)[k];
  }

  /** A message belongs to the conversation it names, or stands alone under its own id. */
  lemma {:induction false} OfMeans(page: seq<Message>, conv: string, m: Message)
    ensures m in Of(page, conv) <==> m in page && conv == if m.conversationId == "" then m.id else m.conversationId
  {
    if page != [] {
      var n := |page| - 1;
      OfMeans(page[..n], conv, m);
      assert page == page[..n] + [page[n]];
    }
  }

  /** A conversation is shown by its newest message, the first of the page, and unread if any of it is. */
  lemma SummaryMeans(mine: seq<Message>, lower: string -> string)
    requires mine != []
    ensures var s := Summarize(mine, lower);
            && s.subject == mine[0].subject && s.lastMessageAt == mine[0].receivedAt && s.snippet == mine[0].snippet
            && s.id == (if mine[0].conversationId == "" then mine[0].id else mine[0].conversationId)
            && s.count == |mine| && (s.unread <==> exists i :: 0 <= i < |mine| && !mine[i].isRead)
  {
    if exists i :: 0 <= i < |mine| && !mine[i].isRead {
      var i :| 0 <= i < |mine| && !mine[i].isRead;
      assert mine[i] in mine;
    }
  }

  function MessagesIn(page: seq<Message>, order: seq<string>): nat {
    if order == [] then 0 else MessagesIn(page, order[..|order| - 1]) + |Of(page, order[|order| - 1])|
  }

  lemma {:induction false} OneMoreMessage(page: seq<Message>, m: Message, order: seq<string>)
    requires forall i, j :: 0 <= i < j < |order| ==> order[i] != order[j]
    ensures MessagesIn(page + [m], order) == MessagesIn(page, order) + if Conversation(m) in order then 1 else 0
  {
    if order != [] {
      var n := |order| - 1;
      OneMoreMessage(page, m, order[..n]);
      OfSnoc(page, m, order[n]);
      assert order == order[..n] + [order[n]];
    }
  }

  lemma NewConversationIsEmpty(page: seq<Message>, conv: string)
    requires conv !in Order(page)
    ensures Of(page, conv) == []
  {
    OrderHasAll(page, conv);
  }

  /** Every message of the page is counted in exactly one conversation. */
  lemma {:induction false} EveryMessageIsCountedOnce(page: seq<Message>)
    ensures MessagesIn(page, Order(page)) == |page|
  {
    if page != [] {
      var n := |page| - 1;
      var front, m := page[..n], page[n];
      assert page == front + [m];
      EveryMessageIsCountedOnce(front);
      var at := OrderIsFirstAppearance(front);
      OneMoreMessage(front, m, Order(front));
      OrderSnoc(front, m);
      var conv := Conversation(m);
      AppendNothing(Order(front));
      if conv !in Order(front) {
        NewConversationIsEmpty(front, conv);
        OfSnoc(front, m, conv);
        assert (Order(front) + [conv])[..|Order(front)|] == Order(front);
      }
    }
  }

  lemma {:induction false} KnownMeans(people: seq<Address>, a: Address)
    ensures a in Known(people) <==> a in people && a.address != ""
  {
    if people != [] {
      var n := |people| - 1;
      KnownMeans(people[..n], a);
      assert people == people[..n] + [people[n]];
    }
  }

  lemma {:induction false} PersonIsOnAMessage(mine: seq<Message>, a: Address)
    requires a in FlatMap(People(), mine)
    ensures exists m :: m in mine && a in People()(m)
  {
    var n := |mine| - 1;
    if a in FlatMap(People(), mine[..n]) {
      PersonIsOnAMessage(mine[..n], a);
      var m :| m in mine[..n] && a in People()(m);
      assert m in mine;
    } else {
      assert mine[n] in mine && a in People()(mine[n]);
    }
  }

  /** The sender or a recipient of a message, with an address. */
  predicate On(m: Message, a: Address) { a.address != "" && (a == m.from || a in m.recipients) }

  ghost predicate OnSome(mine: seq<Message>, a: Address) { exists m :: m in mine && On(m, a) }

  lemma PeopleMeans(m: Message, a: Address)
    ensures a in People()(m) <==> On(m, a)
  {
    KnownMeans([m.from] + m.recipients, a);
  }

  lemma {:induction false} PersonOfSomeMessage(mine: seq<Message>, m: Message, a: Address)
    requires m in mine && a in People()(m)
    ensures a in FlatMap(People(), mine)
  {
    var n := |mine| - 1;
    if m in mine[..n] { PersonOfSomeMessage(mine[..n], m, a); }
  }

  lemma ShownIsOnAMessage(mine: seq<Message>, lower: string -> string, i: nat)
    requires i < |Participants(mine, lower)|
    ensures OnSome(mine, Participants(mine, lower)[i])
  {
    var people := FlatMap(People(), mine);
    var at := DistinctByIsFirsts(LowerAddress(lower), people);
    var a := Participants(mine, lower)[i];
    assert a in people;
    PersonIsOnAMessage(mine, a);
    var m :| m in mine && a in People()(m);
    PeopleMeans(m, a);
  }

  /** Participants differ in lower case, each is on a message, and everyone on a message is among them. */
  lemma ParticipantsAreEveryoneOnce(mine: seq<Message>, lower: string -> string)
    ensures var shown := Participants(mine, lower);
            && (forall i, j :: 0 <= i < j < |shown| ==> lower(shown[i].address) != lower(shown[j].address))
            && (forall i :: 0 <= i < |shown| ==> OnSome(mine, shown[i]))
            && forall m, a :: m in mine && On(m, a) ==>
                 exists i :: 0 <= i < |shown| && lower(shown[i].address) == lower(a.address)
  {
    var key, people := LowerAddress(lower), FlatMap(People(), mine);
    var shown := Participants(mine, lower);
    KeptKeysDiffer(key, people);
    assert forall i :: 0 <= i < |shown| ==> key(shown[i]) == lower(shown[i].address);
    DistinctByKeys(key, people);
    forall i | 0 <= i < |shown|
      ensures OnSome(mine, shown[i])
    {
      ShownIsOnAMessage(mine, lower, i);
    }
    forall m, a | m in mine && On(m, a)
      ensures exists i :: 0 <= i < |shown| && lower(shown[i].address) == lower(a.address)
    {
      PeopleMeans(m, a);
      PersonOfSomeMessage(mine, m, a);
      var k :| 0 <= k < |people| && people[k] == a;
      assert key(people[k]) in Keys(key, people);
      var i :| 0 <= i < |shown| && key(shown[i]) == key(a);
    }
  }
}
