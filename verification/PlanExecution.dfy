/** The engine's own cleanup: planning which messages are safe, and executing the plan in batches of 50. */
module PlanExecution {
  import opened Text

  const BATCH_SIZE: nat := 50

  datatype Message = Message(id: string, sender: string, starred: bool, labels: seq<string>, size: nat,
                             category: string)

  /** The protection lists, and the platform's case mapping and white-space stripping. */
  datatype Planner = Planner(domains: seq<string>, suffixes: seq<string>, lower: string -> string,
                             strip: string -> string)

  // ---- protection --------------------------------------------------------------------------------

  function ExtractDomain(p: Planner, sender: string): string {
    var inside := Bracketed(sender, 0);
    var email := if inside.Some? then inside.value else sender;
    var at := IndexOf(email, '@', 0);
    if at >= 0 then p.lower(p.strip(email[at + 1..])) else ""
  }

  /** A sender whose domain cannot be told counts as protected. */
  predicate IsProtected(p: Planner, sender: string) {
    var domain := ExtractDomain(p, sender);
    || domain == ""
    || p.lower(domain) in p.domains
    || exists i :: 0 <= i < |p.suffixes| && EndsWith(p.lower(domain), p.suffixes[i])
  }

  method CheckProtected(p: Planner, sender: string) returns (protected: bool)
    ensures protected == IsProtected(p, sender)
  {
    var domain := ExtractDomain(p, sender);
    if domain == "" { return true; }
    var lower := p.lower(domain);
    if lower in p.domains { return true; }
    for i := 0 to |p.suffixes|
      invariant forall j :: 0 <= j < i ==> !EndsWith(lower, p.suffixes[j])
    {
      if EndsWith(lower, p.suffixes[i]) { return true; }
    }
    return false;
  }

  /** The sender is written as an address alone, or behind a name and in angle brackets. */
  ghost predicate SentFrom(sender: string, local: string, domain: string) {
    && '@' !in local
    && (|| (sender == local + "@" + domain && '<' !in sender)
        || ('>' !in local && '>' !in domain
            && exists name, rest :: '<' !in name && sender == InBrackets(name, local + "@" + domain, rest)))
  }

  lemma DomainIs(p: Planner, sender: string, local: string, domain: string)
    requires SentFrom(sender, local, domain)
    ensures ExtractDomain(p, sender) == p.lower(p.strip(domain))
  {
    var address := local + "@" + domain;
    if sender == address && '<' !in sender {
      NoBracket(sender, 0);
    } else {
      var name, rest :| '<' !in name && sender == InBrackets(name, address, rest);
      BracketedInside(name, address, rest);
    }
    assert forall i :: 0 <= i < |local| ==> address[i] == local[i] && local[i] in local;
    assert address[|local|] == '@' && address[|local| + 1..] == domain;
    assert IndexOf(address, '@', 0) == |local|;
  }

  /** A domain nobody may be cleaned from: unreadable, listed, or with a listed ending. */
  predicate KeptDomain(p: Planner, domain: string) {
    domain == "" || p.lower(domain) in p.domains || exists s :: s in p.suffixes && EndsWith(p.lower(domain), s)
  }

  /** However the sender is written, it is protected exactly when the domain of the address is to be kept. */
  lemma ProtectedByAddressIff(p: Planner, sender: string, local: string, domain: string)
    requires SentFrom(sender, local, domain)
    ensures IsProtected(p, sender) <==> KeptDomain(p, p.lower(p.strip(domain)))
  {
    DomainIs(p, sender, local, domain);
    var d := p.lower(p.strip(domain));
    if exists s :: s in p.suffixes && EndsWith(p.lower(d), s) {
      var s :| s in p.suffixes && EndsWith(p.lower(d), s);
      var i :| 0 <= i < |p.suffixes| && p.suffixes[i] == s;
    }
  }

  // ---- the plan ----------------------------------------------------------------------------------

  predicate Protected(p: Planner, m: Message) { m.starred || IsProtected(p, m.sender) }

  /** The label without its `category_` part, as the code compares it. */
  function PlainLabel(p: Planner, name: string): string { RemoveAll(p.lower(name), "category_") }

  /** `s.replace(part, "")`. */
  function RemoveAll(s: string, part: string): string
    requires part != ""
    decreases |s|
  {
    var at := Find(s, part);
    if at < 0 then s else s[..at] + RemoveAll(s[at + |part|..], part)
  }

  predicate Targeted(p: Planner, m: Message, categories: seq<string>) {
    || m.category == "" || m.category in categories
    || exists i :: 0 <= i < |m.labels| && PlainLabel(p, m.labels[i]) in categories
  }

  predicate Safe(p: Planner, m: Message, categories: seq<string>) {
    m.id != "" && !Protected(p, m) && Targeted(p, m, categories)
  }

  datatype Plan = Plan(safe: seq<string>, protected: seq<string>, bytes: nat)

  /** The plan message by message, in order. */
  function PlanOf(p: Planner, messages: seq<Message>, categories: seq<string>): Plan {
    if messages == [] then Plan([], [], 0)
    else
      var m := messages[|messages| - 1];
      var before := PlanOf(p, messages[..|messages| - 1], categories);
      if Safe(p, m, categories) then before.(safe := before.safe + [m.id], bytes := before.bytes + m.size)
      else if m.id != "" && Protected(p, m) then before.(protected := before.protected + [m.id])
      else before
  }

  method CreatePlan(p: Planner, messages: seq<Message>, categories: seq<string>) returns (plan: Plan)
    ensures plan == PlanOf(p, messages, categories)
  {
    var safe: seq<string>, protected: seq<string>, bytes: nat := [], [], 0;
    for i := 0 to |messages|
      invariant Plan(safe, protected, bytes) == PlanOf(p, messages[..i], categories)
    {
      var msg := messages[i];
      assert messages[..i + 1][..i] == messages[..i];
      if msg.id == "" { continue; }
      if msg.starred {
        protected := protected + [msg.id];
        continue;
      }
      var shielded := CheckProtected(p, msg.sender);
      if shielded {
        protected := protected + [msg.id];
        continue;
      }
      if msg.category != "" && msg.category !in categories {
        var labelMatch := exists k :: 0 <= k < |msg.labels| && PlainLabel(p, msg.labels[k]) in categories;
        if !labelMatch { continue; }
      }
      safe := safe + [msg.id];
      bytes := bytes + msg.size;
    }
    assert messages[..|messages|] == messages;
    plan := Plan(safe, protected, bytes);
  }

  /** An id is planned exactly when some message with that id is safe. */
  lemma {:induction false} PlannedIffSafe(p: Planner, messages: seq<Message>, categories: seq<string>, id: string)
    ensures id in PlanOf(p, messages, categories).safe <==>
            exists m :: m in messages && m.id == id && Safe(p, m, categories)
  {
    if messages != [] {
      var n := |messages| - 1;
      PlannedIffSafe(p, messages[..n], categories, id);
      assert messages == messages[..n] + [messages[n]];
    }
  }

  ghost predicate DistinctIds(messages: seq<Message>) {
    forall m, n :: m in messages && n in messages && m.id == n.id ==> m == n
  }

  /** When ids are distinct, no starred message and none from a protected sender is planned. */
  lemma ProtectedIsNotPlanned(p: Planner, messages: seq<Message>, categories: seq<string>, m: Message)
    requires DistinctIds(messages) && m in messages && Protected(p, m)
    ensures m.id !in PlanOf(p, messages, categories).safe
  {
    PlannedIffSafe(p, messages, categories, m.id);
  }

  lemma {:induction false} SetApartIff(p: Planner, messages: seq<Message>, categories: seq<string>, id: string)
    ensures id in PlanOf(p, messages, categories).protected <==>
            id != "" && exists m :: m in messages && m.id == id && Protected(p, m)
  {
    if messages != [] {
      var n := |messages| - 1;
      SetApartIff(p, messages[..n], categories, id);
      assert messages == messages[..n] + [messages[n]];
    }
  }

  /** A starred message, and one from a domain to be kept, is set apart and not planned. */
  lemma KeptAddressesAreSetApart(p: Planner, messages: seq<Message>, categories: seq<string>, m: Message,
                                 local: string, domain: string)
    requires m in messages && m.id != "" && SentFrom(m.sender, local, domain)
    requires m.starred || KeptDomain(p, p.lower(p.strip(domain)))
    ensures m.id in PlanOf(p, messages, categories).protected
    ensures DistinctIds(messages) ==> m.id !in PlanOf(p, messages, categories).safe
  {
    ProtectedByAddressIff(p, m.sender, local, domain);
    SetApartIff(p, messages, categories, m.id);
    if DistinctIds(messages) { ProtectedIsNotPlanned(p, messages, categories, m); }
  }

  lemma RemoveAllAbsent(s: string, part: string)
    requires part != "" && Find(s, part) < 0
    ensures RemoveAll(s, part) == s && RemoveAll(part + s, part) == s
  {
    assert (part + s)[..|part|] == part && (part + s)[|part|..] == s;
    assert OccursAt(part + s, part, 0);
    FindIs(part + s, part, 0);
    assert (part + s)[..0] == "";
  }

  /** A label is a plain name, perhaps behind one `category_`. */
  ghost predicate Labelled(p: Planner, name: string, plain: string) {
    Find(plain, "category_") < 0 && (p.lower(name) == plain || p.lower(name) == "category_" + plain)
  }

  /** Without a category of its own a message is always targeted, with one if that or one of its labels
      is chosen. */
  lemma TargetedIff(p: Planner, m: Message, categories: seq<string>, plain: seq<string>)
    requires |plain| == |m.labels| && forall i :: 0 <= i < |plain| ==> Labelled(p, m.labels[i], plain[i])
    ensures Targeted(p, m, categories) <==>
            m.category == "" || m.category in categories || exists i :: 0 <= i < |plain| && plain[i] in categories
  {
    forall i | 0 <= i < |plain|
      ensures PlainLabel(p, m.labels[i]) == plain[i]
    {
      assert Labelled(p, m.labels[i], plain[i]);
      RemoveAllAbsent(plain[i], "category_");
    }
  }

  function SafeMessages(p: Planner, messages: seq<Message>, categories: seq<string>): seq<Message> {
    FlatMap((m: Message) => if Safe(p, m, categories) then [m] else [], messages)
  }

  function SizeOf(messages: seq<Message>): nat {
    if messages == [] then 0 else SizeOf(messages[..|messages| - 1]) + messages[|messages| - 1].size
  }

  /** The planned ids and bytes are those of the safe messages, in order. */
  lemma {:induction false} PlanAddsUp(p: Planner, messages: seq<Message>, categories: seq<string>)
    ensures var plan, safe := PlanOf(p, messages, categories), SafeMessages(p, messages, categories);
            && |plan.safe| == |safe| && (forall i :: 0 <= i < |safe| ==> plan.safe[i] == safe[i].id)
            && plan.bytes == SizeOf(safe)
  {
    if messages != [] {
      var n := |messages| - 1;
      PlanAddsUp(p, messages[..n], categories);
      var before := SafeMessages(p, messages[..n], categories);
      if Safe(p, messages[n], categories) {
        assert (before + [messages[n]])[..|before|] == before;
      } else {
        AppendNothing(before);
      }
    }
  }

  // ---- execution ---------------------------------------------------------------------------------

  /** What the provider's batch call does: it reports a count, any count, or it raises. */
  datatype Answer = Counted(n: int) | Raised

  datatype Result = Done(completed: int, failed: int, bytesFreed: int) | InvalidAction

  class Provider {
    /** Every batch handed over, in order. */
    var submitted: seq<seq<string>>

    constructor ()
      ensures submitted == []
    {
      submitted := [];
    }

    method Submit(batch: seq<string>, answer: Answer) returns (r: Answer)
      modifies this
      ensures submitted == old(submitted) + [batch] && r == answer
    {
      submitted := submitted + [batch];
      r := answer;
    }
  }

  function Whole(): seq<string> -> seq<string> { (batch: seq<string>) => batch }

  /** The batches one after the other. */
  function Flat(batches: seq<seq<string>>): seq<string> { FlatMap(Whole(), batches) }

  function Credit(a: Answer): int { if a.Counted? then a.n else 0 }

  function Credits(answers: nat -> Answer, k: nat): int {
    if k == 0 then 0 else Credits(answers, k - 1) + Credit(answers(k - 1))
  }

  /** Truncation toward zero of `a * b / c`. */
  function Share(a: nat, b: int, c: nat): int
    requires c > 0
  {
    if b >= 0 then a * b / c else -(a * -b / c)
  }

  lemma ShareBounds(a: nat, b: int, c: nat)
    requires 0 <= b <= c && c > 0
    ensures 0 <= Share(a, b, c) <= a
  {
    MultiplyMonotone(a, b, c);
    DivideBounded(a * b, a, c);
  }

  lemma MultiplyMonotone(a: nat, b: nat, c: nat)
    requires b <= c
    ensures 0 <= a * b <= a * c
  {
  }

  lemma DivideBounded(x: nat, a: nat, c: nat)
    requires c > 0 && x <= a * c
    ensures 0 <= x / c <= a
  {
    if x / c > a { MultiplyMonotone(c, a + 1, x / c); }
  }

  /** The share is the proportion, rounded toward zero; all of it for all. */
  lemma ShareIs(a: nat, b: int, c: nat)
    requires c > 0
    ensures b >= 0 ==> c * Share(a, b, c) <= a * b < c * (Share(a, b, c) + 1)
    ensures b < 0 ==> c * (Share(a, b, c) - 1) < a * b <= c * Share(a, b, c)
    ensures Share(a, c, c) == a
  {
    Quotient(a * (if b >= 0 then b else -b), c);
    Quotient(a * c, c);
    if Share(a, c, c) < a { MultiplyMonotone(c, Share(a, c, c) + 1, a); }
    if Share(a, c, c) > a { MultiplyMonotone(c, a + 1, Share(a, c, c)); }
  }

  lemma Quotient(x: nat, c: nat)
    requires c > 0
    ensures c * (x / c) <= x < c * (x / c + 1)
  {
  }

  lemma FlatSnoc(batches: seq<seq<string>>, batch: seq<string>)
    ensures Flat(batches + [batch]) == Flat(batches) + batch
  {
    FlatMapSnoc(Whole(), batches, batch);
  }

  /** How many ids the first `k` batches hold. */
  function Upto(ids: seq<string>, k: nat): (n: nat)
    ensures n <= |ids|
  {
    if k * BATCH_SIZE < |ids| then k * BATCH_SIZE else |ids|
  }

  function Batches(ids: seq<string>, k: nat): seq<seq<string>> {
    if k == 0 then [] else Batches(ids, k - 1) + [ids[Upto(ids, k - 1)..Upto(ids, k)]]
  }

  lemma {:induction false} BatchesAreThePrefix(ids: seq<string>, k: nat)
    ensures Flat(Batches(ids, k)) == ids[..Upto(ids, k)] && |Batches(ids, k)| == k
  {
    if k > 0 {
      BatchesAreThePrefix(ids, k - 1);
      FlatSnoc(Batches(ids, k - 1), ids[Upto(ids, k - 1)..Upto(ids, k)]);
    }
  }

  lemma {:induction false} BatchSizes(ids: seq<string>, k: nat)
    requires k == 0 || (k - 1) * BATCH_SIZE < |ids|
    ensures forall b :: b in Batches(ids, k) ==> 0 < |b| <= BATCH_SIZE
  {
    if k > 0 { BatchSizes(ids, k - 1); }
  }

  ghost predicate HonestCounts(batches: seq<seq<string>>, answers: nat -> Answer) {
    forall k :: 0 <= k < |batches| ==> 0 <= Credit(answers(k)) <= |batches[k]|
  }

  lemma LastBatch(ids: seq<string>, k: nat)
    requires k > 0
    ensures |Batches(ids, k)| == k && Batches(ids, k)[..k - 1] == Batches(ids, k - 1)
    ensures |Batches(ids, k)[k - 1]| == Upto(ids, k) - Upto(ids, k - 1)
  {
    BatchesAreThePrefix(ids, k);
    BatchesAreThePrefix(ids, k - 1);
  }

  lemma HonestFront(batches: seq<seq<string>>, answers: nat -> Answer)
    requires batches != [] && HonestCounts(batches, answers)
    ensures HonestCounts(batches[..|batches| - 1], answers)
    ensures 0 <= Credit(answers(|batches| - 1)) <= |batches[|batches| - 1]|
  {
  }

  lemma {:induction false} HonestTotal(ids: seq<string>, k: nat, answers: nat -> Answer)
    requires HonestCounts(Batches(ids, k), answers)
    ensures 0 <= Credits(answers, k) <= Upto(ids, k)
  {
    if k > 0 {
      LastBatch(ids, k);
      HonestFront(Batches(ids, k), answers);
      HonestTotal(ids, k - 1, answers);
    }
  }

  lemma HonestResult(ids: seq<string>, k: nat, answers: nat -> Answer, estimated: nat)
    requires ids != [] && HonestCounts(Batches(ids, k), answers)
    ensures 0 <= Credits(answers, k) <= |ids| && 0 <= Share(estimated, Credits(answers, k), |ids|) <= estimated
  {
    HonestTotal(ids, k, answers);
    ShareBounds(estimated, Credits(answers, k), |ids|);
  }

  /** The loop: batches of at most 50 are submitted until the list is used up, whatever the provider answers. */
  method RunBatches(provider: Provider, ids: seq<string>, answers: nat -> Answer)
    returns (completed: int, failed: int, ghost k: nat)
    requires ids != []
    modifies provider
    ensures |ids| <= k * BATCH_SIZE < |ids| + BATCH_SIZE
    ensures provider.submitted == old(provider.submitted) + Batches(ids, k)
    ensures completed == Credits(answers, k) && completed + failed == |ids|
  {
    completed, failed := 0, 0;
    var total, i, batchNum := |ids|, 0, 0;
    while i < total
      invariant i == batchNum * BATCH_SIZE < total + BATCH_SIZE
      invariant provider.submitted == old(provider.submitted) + Batches(ids, batchNum)
      invariant completed == Credits(answers, batchNum)
      invariant completed + failed == Upto(ids, batchNum)
    {
      var end := if i + BATCH_SIZE < total then i + BATCH_SIZE else total;
      var batch := ids[i..end];
      var answer := provider.Submit(batch, answers(batchNum));
      match answer {
        case Counted(count) =>
          completed := completed + count;
          failed := failed + |batch| - count;
        case Raised =>
          failed := failed + |batch|;
      }
      Regroup(old(provider.submitted), Batches(ids, batchNum), [batch]);
      i, batchNum := i + BATCH_SIZE, batchNum + 1;
    }
    k := batchNum;
  }

  /** Every id is submitted once, in order; completed and failed always add up to the number of ids. */
  method ExecutePlan(provider: Provider, ids: seq<string>, estimated: nat, action: string, answers: nat -> Answer)
    returns (result: Result, ghost batches: seq<seq<string>>)
    modifies provider
    ensures provider.submitted == old(provider.submitted) + batches
    ensures result == InvalidAction <==> ids != [] && action !in {"trash", "delete"}
    ensures Flat(batches) == if result == InvalidAction then [] else ids
    ensures forall b :: b in batches ==> 0 < |b| <= BATCH_SIZE
    ensures result.Done? ==> result.completed + result.failed == |ids|
    ensures result.Done? ==> result.completed == Credits(answers, |batches|)
    ensures result.Done? ==> result.bytesFreed == if ids == [] then 0 else Share(estimated, result.completed, |ids|)
    ensures result.Done? && HonestCounts(batches, answers) ==>
              0 <= result.completed <= |ids| && 0 <= result.bytesFreed <= estimated
  {
    batches := [];
    AppendNothing(provider.submitted);
    if ids == [] { return Done(0, 0, 0), batches; }
    if action != "trash" && action != "delete" { return InvalidAction, batches; }
    var completed, failed;
    ghost var k;
    completed, failed, k := RunBatches(provider, ids, answers);
    batches := Batches(ids, k);
    BatchesAreThePrefix(ids, k);
    BatchSizes(ids, k);
    if HonestCounts(batches, answers) { HonestResult(ids, k, answers, estimated); }
    result := Done(completed, failed, Share(estimated, completed, |ids|));
  }

  /** Planning and executing together never hand a protected message over, when ids are distinct. */
  method CleanUp(p: Planner, messages: seq<Message>, categories: seq<string>, provider: Provider, action: string,
                 answers: nat -> Answer)
    returns (result: Result, ghost batches: seq<seq<string>>)
    modifies provider
    ensures provider.submitted == old(provider.submitted) + batches
    ensures Flat(batches) == if result == InvalidAction then [] else PlanOf(p, messages, categories).safe
    ensures DistinctIds(messages) ==>
              forall m :: m in messages && Protected(p, m) ==> m.id !in Flat(batches)
  {
    var plan := CreatePlan(p, messages, categories);
    result, batches := ExecutePlan(provider, plan.safe, plan.bytes, action, answers);
    if DistinctIds(messages) {
      forall m | m in messages && Protected(p, m)
        ensures m.id !in plan.safe
      {
        ProtectedIsNotPlanned(p, messages, categories, m);
      }
    }
  }
}
