/** Planning a cleanup: which of the fetched messages are protected, and which of the others were
    actually targeted by the user's query or categories. */
module CleanupPlan {
  import opened Text

  /** A message as the engine lists it; a field the listing lacks is None. */
  datatype Summary = Summary(id: string, sender: Option<string>, size: Option<int>, starred: Option<bool>,
                             labels: Option<seq<string>>)

  datatype Reason = Starred | UnparseableSender | ProtectedDomain(domain: string) | ProtectedSuffix(suffix: string)

  /** A reviewed message; it is protected exactly when there is a reason. */
  datatype Row = Row(id: string, sender: Option<string>, size: int, starred: bool, labels: seq<string>,
                     reason: Option<Reason>)

  /** The configured protection lists, and the platform's letter case. */
  datatype Rules = Rules(domains: seq<string>, suffixes: seq<string>, lower: string -> string, upper: string -> string)

  datatype Criteria = Criteria(query: Option<string>, categories: Option<seq<string>>)

  datatype Plan = Plan(criteria: Criteria, safe: seq<Row>, protectedRows: seq<Row>, reviewed: nat)

  // ---- protection ---------------------------------------------------------------------------

  function AfterLastAt(s: string): Option<string> {
    if s == "" then None
    else if s[|s| - 1] == '@' then Some("")
    else match AfterLastAt(s[..|s| - 1])
         case None => None
         case Some(domain) => Some(domain + [s[|s| - 1]])
  }

  function Domain(rules: Rules, sender: string): string {
    var address := match Bracketed(sender, 0) case Some(inner) => inner case None => sender;
    match AfterLastAt(address) case Some(domain) => rules.lower(Trim(domain)) case None => ""
  }

  function FirstSuffix(suffixes: seq<string>, domain: string): Option<string> {
    if suffixes == [] then None
    else if EndsWith(domain, suffixes[0]) then Some(suffixes[0])
    else FirstSuffix(suffixes[1..], domain)
  }

  function ProtectionReason(rules: Rules, sender: Option<string>, starred: bool): Option<Reason> {
    if starred then Some(Starred)
    else
      var domain := match sender case Some(s) => Domain(rules, s) case None => "";
      if domain == "" then Some(UnparseableSender)
      else if domain in rules.domains then Some(ProtectedDomain(domain))
      else match FirstSuffix(rules.suffixes, domain)
           case Some(suffix) => Some(ProtectedSuffix(suffix))
           case None => None
  }

  function Classify(rules: Rules, m: Summary): Row {
    var starred := m.starred == Some(true);
    Row(m.id, m.sender, match m.size case Some(n) => n case None => 0, starred,
        match m.labels case Some(ls) => ls case None => [],
        ProtectionReason(rules, m.sender, starred))
  }

  lemma {:induction false} FirstSuffixFinds(suffixes: seq<string>, domain: string)
    ensures FirstSuffix(suffixes, domain).None? <==> forall s :: s in suffixes ==> !EndsWith(domain, s)
  {
    if suffixes != [] { FirstSuffixFinds(suffixes[1..], domain); }
  }

  /** Not starred, and sent from a readable domain that is on no list. */
  predicate Unlisted(rules: Rules, sender: Option<string>, starred: bool) {
    && !starred
    && sender.Some?
    && var domain := Domain(rules, sender.value);
    && domain != "" && domain !in rules.domains
    && forall s :: s in rules.suffixes ==> !EndsWith(domain, s)
  }

  lemma ReasonMeans(rules: Rules, sender: Option<string>, starred: bool)
    ensures ProtectionReason(rules, sender, starred).None? <==> Unlisted(rules, sender, starred)
  {
    if sender.Some? { FirstSuffixFinds(rules.suffixes, Domain(rules, sender.value)); }
  }

  /** A message escapes protection only if it is not starred and its sender has a readable domain
      that is on no list: an unreadable sender is always protected. */
  lemma UnprotectedMeans(rules: Rules, m: Summary)
    ensures Classify(rules, m).reason.None? <==> Unlisted(rules, m.sender, m.starred == Some(true))
  {
    ReasonMeans(rules, m.sender, m.starred == Some(true));
  }

  // ---- what a sender's domain is -------------------------------------------------------------

  lemma {:induction false} AfterAt(local: string, domain: string)
    requires '@' !in domain
    ensures AfterLastAt(local + "@" + domain) == Some(domain)
  {
    var s := local + "@" + domain;
    if domain != "" {
      var n := |domain| - 1;
      AfterAt(local, domain[..n]);
      assert s[..|s| - 1] == local + "@" + domain[..n];
      assert domain[..n] + [domain[n]] == domain;
    }
  }

  lemma {:induction false} NoAt(s: string)
    requires '@' !in s
    ensures AfterLastAt(s).None?
  {
    if s != "" { NoAt(s[..|s| - 1]); }
  }

  /** `name <local@domain> rest`. */
  function Named(name: string, local: string, domain: string, rest: string): string {
    InBrackets(name, local + "@" + domain, rest)
  }

  lemma DomainOfNamed(rules: Rules, name: string, local: string, domain: string, rest: string)
    requires '<' !in name && '>' !in local && '>' !in domain && '@' !in domain
    ensures Domain(rules, Named(name, local, domain, rest)) == rules.lower(Trim(domain))
  {
    BracketedInside(name, local + "@" + domain, rest);
    AfterAt(local, domain);
  }

  lemma DomainOfBare(rules: Rules, local: string, domain: string)
    requires '<' !in local && '<' !in domain && '@' !in domain
    ensures Domain(rules, local + "@" + domain) == rules.lower(Trim(domain))
  {
    NoBracket(local + "@" + domain, 0);
    AfterAt(local, domain);
  }

  /** The sender is written as an address alone, or behind a name and in angle brackets. */
  ghost predicate SentFrom(sender: string, local: string, domain: string) {
    && '@' !in domain
    && (|| (sender == local + "@" + domain && '<' !in sender)
        || ('>' !in local && '>' !in domain
            && exists name, rest :: '<' !in name && sender == Named(name, local, domain, rest)))
  }

  /** A domain nobody may be cleaned from: unreadable, listed, or with a listed ending. */
  predicate KeptDomain(rules: Rules, domain: string) {
    domain == "" || domain in rules.domains || exists s :: s in rules.suffixes && EndsWith(domain, s)
  }

  /** However the sender is written, the message is unprotected exactly when it is not starred and the
      domain of the address is not to be kept. */
  lemma ProtectedByAddressIff(rules: Rules, m: Summary, local: string, domain: string)
    requires m.sender.Some? && SentFrom(m.sender.value, local, domain)
    ensures Classify(rules, m).reason.None? <==>
            m.starred != Some(true) && !KeptDomain(rules, rules.lower(Trim(domain)))
  {
    var sender := m.sender.value;
    if sender == local + "@" + domain && '<' !in sender {
      assert forall c :: c in local || c in domain ==> c in sender;
      DomainOfBare(rules, local, domain);
    } else {
      var name, rest :| '<' !in name && sender == Named(name, local, domain, rest);
      DomainOfNamed(rules, name, local, domain, rest);
    }
    UnprotectedMeans(rules, m);
  }

  /** A sender without any `@`, or none at all, is protected. */
  lemma UnreadableIsProtected(rules: Rules, m: Summary)
    requires m.sender.Some? ==> '@' !in m.sender.value
    ensures Classify(rules, m).reason.Some?
  {
    if m.sender.Some? {
      BracketedIsPart(m.sender.value, 0);
      NoAt(match Bracketed(m.sender.value, 0) case Some(inner) => inner case None => m.sender.value);
    }
  }

  // ---- targeting ----------------------------------------------------------------------------

  function CategoryLabels(category: string): set<string> {
    match category
    case "promotional" => {"CATEGORY_PROMOTIONS"}
    case "promotions" => {"CATEGORY_PROMOTIONS"}
    case "social" => {"CATEGORY_SOCIAL"}
    case "newsletter" => {"CATEGORY_UPDATES", "CATEGORY_FORUMS"}
    case "updates" => {"CATEGORY_UPDATES"}
    case "forums" => {"CATEGORY_FORUMS"}
    case _ => {}
  }

  predicate HasQuery(c: Criteria) { c.query.Some? && Trim(c.query.value) != "" }

  /** Targeted: there was an explicit query, or the message carries a label of a chosen category. */
  predicate Targeted(rules: Rules, c: Criteria, row: Row) {
    || HasQuery(c)
    || (c.categories.Some? &&
        exists l, k :: l in row.labels && k in c.categories.value
                       && rules.upper(l) in CategoryLabels(rules.lower(k)))
  }

  /** Which label a category stands for. */
  const CATEGORY_TABLE: set<(string, string)> := {
    ("promotional", "CATEGORY_PROMOTIONS"), ("promotions", "CATEGORY_PROMOTIONS"), ("social", "CATEGORY_SOCIAL"),
    ("newsletter", "CATEGORY_UPDATES"), ("newsletter", "CATEGORY_FORUMS"), ("updates", "CATEGORY_UPDATES"),
    ("forums", "CATEGORY_FORUMS")
  }

  /** Without a query, a message is targeted exactly when it carries the label of a chosen category. */
  lemma TargetedIff(rules: Rules, c: Criteria, row: Row)
    ensures Targeted(rules, c, row) <==>
            || (c.query.Some? && Trim(c.query.value) != "")
            || (c.categories.Some? && exists l, k :: l in row.labels && k in c.categories.value
                                                     && (rules.lower(k), rules.upper(l)) in CATEGORY_TABLE)
  {
    forall l, k
      ensures rules.upper(l) in CategoryLabels(rules.lower(k)) <==> (rules.lower(k), rules.upper(l)) in CATEGORY_TABLE
    {
      CategoryIff(rules.lower(k), rules.upper(l));
    }
  }

  lemma CategoryIff(category: string, tag: string)
    ensures tag in CategoryLabels(category) <==> (category, tag) in CATEGORY_TABLE
  {
  }

  // ---- the plan -----------------------------------------------------------------------------

  function Classified(rules: Rules, fetched: seq<Summary>): seq<Row> {
    seq(|fetched|, i requires 0 <= i < |fetched| => Classify(rules, fetched[i]))
  }

  function PlanOf(rules: Rules, c: Criteria, fetched: seq<Summary>): Plan {
    var rows := Classified(rules, fetched);
    Plan(c, Filter((row: Row) => row.reason.None? && Targeted(rules, c, row), rows),
         Filter((row: Row) => row.reason.Some?, rows), |rows|)
  }

  function Filter<T>(keep: T -> bool, items: seq<T>): seq<T> {
    if items == [] then []
    else Filter(keep, items[..|items| - 1])
         + (if keep(items[|items| - 1]) then [items[|items| - 1]] else [])
  }

  lemma {:induction false} FilterKeeps<T>(keep: T -> bool, items: seq<T>)
    ensures forall x :: x in Filter(keep, items) <==> x in items && keep(x)
    ensures |Filter(keep, items)| <= |items|
  {
    if items != [] {
      FilterKeeps(keep, items[..|items| - 1]);
      assert items == items[..|items| - 1] + [items[|items| - 1]];
    }
  }

  lemma FilterOne<T>(keep: T -> bool, x: T)
    ensures Filter(keep, [x]) == if keep(x) then [x] else []
  {
    assert [x][..0] == [];
  }

  /** Every row of the safe list is as classified: unprotected, and targeted. */
  ghost predicate SafePlan(rules: Rules, plan: Plan) {
    forall row :: row in plan.safe ==>
      && row.reason.None?
      && row.reason == ProtectionReason(rules, row.sender, row.starred)
      && Targeted(rules, plan.criteria, row)
  }

  /** Exactly the unprotected, targeted messages are marked safe and exactly the protected ones are
      set apart; a plan without query or categories finds nothing safe. */
  lemma PlansAreSafe(rules: Rules, c: Criteria, fetched: seq<Summary>)
    ensures var plan := PlanOf(rules, c, fetched);
            && plan.criteria == c
            && SafePlan(rules, plan)
            && (forall row :: row in plan.safe <==>
                  row in Classified(rules, fetched) && row.reason.None? && Targeted(rules, c, row))
            && (forall row :: row in plan.protectedRows <==> row in Classified(rules, fetched) && row.reason.Some?)
            && |plan.safe| <= |fetched|
            && (!HasQuery(c) && (c.categories.None? || c.categories.value == []) ==> plan.safe == [])
  {
    var rows := Classified(rules, fetched);
    FilterKeeps((row: Row) => row.reason.None? && Targeted(rules, c, row), rows);
    FilterKeeps((row: Row) => row.reason.Some?, rows);
    assert forall row :: row in rows ==> row.reason == ProtectionReason(rules, row.sender, row.starred);
    if PlanOf(rules, c, fetched).safe != [] {
      assert PlanOf(rules, c, fetched).safe[0] in PlanOf(rules, c, fetched).safe;
    }
  }

  /** The items are kept in order: `at` lists exactly their places. */
  ghost predicate Selects<T>(keep: T -> bool, items: seq<T>, kept: seq<T>, at: seq<nat>) {
    && |at| == |kept|
    && (forall k :: 0 <= k < |at| ==> at[k] < |items| && kept[k] == items[at[k]])
    && (forall j, k :: 0 <= j < k < |at| ==> at[j] < at[k])
    && (forall i: nat :: i < |items| ==> (keep(items[i]) <==> i in at))
  }

  lemma OneMoreItem<T>(keep: T -> bool, items: seq<T>, x: T, kept: seq<T>, at: seq<nat>)
    requires Selects(keep, items, kept, at)
    ensures keep(x) ==> Selects(keep, items + [x], kept + [x], at + [|items|])
    ensures !keep(x) ==> Selects(keep, items + [x], kept, at)
  {
    var all := items + [x];
    assert forall i: nat :: i < |items| ==> all[i] == items[i];
    assert forall k :: 0 <= k < |at| ==> at[k] in at && at[k] < |items|;
    if keep(x) {
      assert forall i: nat :: i in at + [|items|] <==> i in at || i == |items|;
    } else {
      assert |items| !in at;
    }
  }

  lemma {:induction false} FilterSelects<T>(keep: T -> bool, items: seq<T>) returns (at: seq<nat>)
    ensures Selects(keep, items, Filter(keep, items), at)
  {
    if items == [] {
      at := [];
    } else {
      var n := |items| - 1;
      at := FilterSelects(keep, items[..n]);
      OneMoreItem(keep, items[..n], items[n], Filter(keep, items[..n]), at);
      assert items == items[..n] + [items[n]];
      AppendNothing(Filter(keep, items[..n]));
      if keep(items[n]) { at := at + [n]; }
    }
  }

  /** Safe and protected list keep the order of what was fetched, row for row, and everything was reviewed. */
  lemma PlanKeepsOrder(rules: Rules, c: Criteria, fetched: seq<Summary>) returns (safe: seq<nat>, kept: seq<nat>)
    ensures var plan, rows := PlanOf(rules, c, fetched), Classified(rules, fetched);
            && plan.reviewed == |fetched|
            && Selects((row: Row) => row.reason.None? && Targeted(rules, c, row), rows, plan.safe, safe)
            && Selects((row: Row) => row.reason.Some?, rows, plan.protectedRows, kept)
  {
    var rows := Classified(rules, fetched);
    safe := FilterSelects((row: Row) => row.reason.None? && Targeted(rules, c, row), rows);
    kept := FilterSelects((row: Row) => row.reason.Some?, rows);
  }

  function Ids(rows: seq<Row>): seq<string> {
    seq(|rows|, i requires 0 <= i < |rows| => rows[i].id)
  }

  /** The client's selection, cut down to what the fresh plan still considers safe. */
  function Requested(plan: Plan, selected: seq<string>): seq<string> {
    Filter((id: string) => id in Ids(plan.safe), selected)
  }

  /** A selection can only shrink, and an empty one stays empty. */
  lemma RequestedIsSelectedAndSafe(plan: Plan, selected: seq<string>)
    ensures forall id :: id in Requested(plan, selected) <==> id in selected && id in Ids(plan.safe)
    ensures selected == [] ==> Requested(plan, selected) == []
  {
    FilterKeeps((id: string) => id in Ids(plan.safe), selected);
  }

  predicate DistinctIds(fetched: seq<Summary>) {
    forall i, j :: 0 <= i < j < |fetched| ==> fetched[i].id != fetched[j].id
  }

  /** When no message was fetched twice, no requested id belongs to a protected message. */
  lemma NothingProtectedIsRequested(rules: Rules, c: Criteria, fetched: seq<Summary>, selected: seq<string>)
    requires DistinctIds(fetched)
    ensures forall m :: m in fetched && m.id in Requested(PlanOf(rules, c, fetched), selected)
                        ==> Classify(rules, m).reason.None?
  {
    var plan := PlanOf(rules, c, fetched);
    var rows := Classified(rules, fetched);
    FilterKeeps((row: Row) => row.reason.None? && Targeted(rules, c, row), rows);
    RequestedIsSelectedAndSafe(plan, selected);
    forall m | m in fetched && m.id in Requested(plan, selected)
      ensures Classify(rules, m).reason.None?
    {
      var k :| 0 <= k < |plan.safe| && plan.safe[k].id == m.id;
      assert plan.safe[k] in plan.safe;
      var i :| 0 <= i < |fetched| && Classify(rules, fetched[i]) == plan.safe[k];
      var j :| 0 <= j < |fetched| && fetched[j] == m;
      assert i == j;
    }
  }

  /** A starred message, and one from a domain to be kept, is set apart and never safe. */
  lemma KeptAddressesAreSetApart(rules: Rules, c: Criteria, fetched: seq<Summary>, m: Summary, local: string,
                                 domain: string)
    requires m in fetched && m.sender.Some? && SentFrom(m.sender.value, local, domain)
    requires m.starred == Some(true) || KeptDomain(rules, rules.lower(Trim(domain)))
    ensures var plan := PlanOf(rules, c, fetched);
            && Classify(rules, m) in plan.protectedRows && Classify(rules, m) !in plan.safe
            && (DistinctIds(fetched) ==> m.id !in Ids(plan.safe))
  {
    var plan := PlanOf(rules, c, fetched);
    var i :| 0 <= i < |fetched| && fetched[i] == m;
    assert Classified(rules, fetched)[i] == Classify(rules, m);
    ProtectedByAddressIff(rules, m, local, domain);
    PlansAreSafe(rules, c, fetched);
    if DistinctIds(fetched) {
      RequestedIsSelectedAndSafe(plan, [m.id]);
      NothingProtectedIsRequested(rules, c, fetched, [m.id]);
    }
  }

  // ---- collecting ---------------------------------------------------------------------------

  datatype Page = Page(messages: seq<Summary>, more: bool)

  const REVIEW_CAP: nat := 500
  const ENRICH_CONCURRENCY: nat := 8

  predicate NeedsEnrichment(m: Summary) {
    m.sender.None? || m.sender.value == "" || m.size.None? || m.starred.None? || m.labels.None?
  }

  /** A summary completed by the engine's full view of it, when that can be had. */
  function Enriched(m: Summary, full: string -> Option<Summary>): Summary {
    if NeedsEnrichment(m) && full(m.id).Some? then full(m.id).value else m
  }

  /** Nothing that decides about a message is left out of it. */
  predicate Complete(m: Summary) {
    m.sender.Some? && m.sender.value != "" && m.size.Some? && m.starred.Some? && m.labels.Some?
  }

  /** Enriching completes a message whenever the engine's view of it is complete, and leaves complete
      messages, and those the engine cannot show, as they were. */
  lemma EnrichedIsComplete(m: Summary, full: string -> Option<Summary>)
    ensures full(m.id).Some? && Complete(full(m.id).value) ==> Complete(Enriched(m, full))
    ensures Complete(m) || full(m.id).None? ==> Enriched(m, full) == m
    ensures !Complete(m) && full(m.id).Some? ==> Enriched(m, full) == full(m.id).value
  {
  }

  const MAX_PAGES: nat := 10

  /** The messages of the first `k` pages, one page after the other. */
  function FirstPages(pages: nat -> Option<Page>, k: nat): seq<Summary> {
    if k == 0 then []
    else FirstPages(pages, k - 1) + match pages(k - 1) case Some(p) => p.messages case None => []
  }

  /** Page `j` is fetched: there is room below the cap, and the listing goes on to it. */
  predicate Fetched(pages: nat -> Option<Page>, cap: nat, j: nat) {
    j < MAX_PAGES && |FirstPages(pages, j)| < cap && (j == 0 || (pages(j - 1).Some? && pages(j - 1).value.more))
  }

  /** The first `k` pages were fetched and answered, and the next must not be or does not answer. */
  predicate StopsAt(pages: nat -> Option<Page>, cap: nat, k: nat) {
    AllFetched(pages, cap, k) && (Fetched(pages, cap, k) ==> pages(k).None?)
  }

  predicate AllFetched(pages: nat -> Option<Page>, cap: nat, k: nat) {
    k > 0 ==> AllFetched(pages, cap, k - 1) && Fetched(pages, cap, k - 1) && pages(k - 1).Some?
  }

  lemma OneMorePage(pages: nat -> Option<Page>, cap: nat, k: nat)
    requires AllFetched(pages, cap, k) && Fetched(pages, cap, k) && pages(k).Some?
    ensures AllFetched(pages, cap, k + 1) && FirstPages(pages, k + 1) == FirstPages(pages, k) + pages(k).value.messages
    ensures !pages(k).value.more ==> StopsAt(pages, cap, k + 1)
  {
  }

  /** The listing is exactly the pages up to where it must stop: at most ten, one after the other. */
  method ListMessages(pages: nat -> Option<Page>, cap: nat) returns (messages: seq<Summary>, ghost k: nat)
    ensures k <= MAX_PAGES && StopsAt(pages, cap, k) && messages == FirstPages(pages, k)
  {
    messages := [];
    var page, more := 0, true;
    while page < MAX_PAGES && |messages| < cap && more
      invariant page <= MAX_PAGES && messages == FirstPages(pages, page) && AllFetched(pages, cap, page)
      invariant more ==> page == 0 || (pages(page - 1).Some? && pages(page - 1).value.more)
      invariant !more ==> StopsAt(pages, cap, page)
      decreases MAX_PAGES - page
    {
      var res := pages(page);
      if res.None? { return messages, page; }
      OneMorePage(pages, cap, page);
      messages := messages + res.value.messages;
      more := res.value.more;
      page := page + 1;
    }
    k := page;
  }

  /** There is only one such place. */
  lemma ListingIsDetermined(pages: nat -> Option<Page>, cap: nat, k: nat, l: nat)
    requires StopsAt(pages, cap, k) && StopsAt(pages, cap, l)
    ensures k == l
  {
    if k < l { EarlierFetched(pages, cap, k, l); }
    if l < k { EarlierFetched(pages, cap, l, k); }
  }

  lemma {:induction false} EarlierFetched(pages: nat -> Option<Page>, cap: nat, j: nat, k: nat)
    requires j < k && AllFetched(pages, cap, k)
    ensures Fetched(pages, cap, j) && pages(j).Some?
  {
    if j < k - 1 { EarlierFetched(pages, cap, j, k - 1); }
  }

  /** Enrich in slices of eight: the same as enriching every message. */
  method EnrichInBatches(capped: seq<Summary>, full: string -> Option<Summary>) returns (enriched: seq<Summary>)
    ensures |enriched| == |capped|
    ensures forall i :: 0 <= i < |capped| ==> enriched[i] == Enriched(capped[i], full)
  {
    enriched := [];
    var i := 0;
    while i < |capped|
      invariant |enriched| == (if i < |capped| then i else |capped|)
      invariant forall j :: 0 <= j < |enriched| ==> enriched[j] == Enriched(capped[j], full)
    {
      var batch := capped[i..if i + ENRICH_CONCURRENCY < |capped| then i + ENRICH_CONCURRENCY else |capped|];
      enriched := enriched + seq(|batch|, j requires 0 <= j < |batch| => Enriched(batch[j], full));
      i := i + ENRICH_CONCURRENCY;
    }
  }

  function Cap(maxResults: Option<int>): nat {
    match maxResults
    case None => REVIEW_CAP
    case Some(n) => if n < 1 then 1 else if n > REVIEW_CAP then REVIEW_CAP else n
  }

  /** A wanted number counts as given from 1 to 500; without one, 500. */
  lemma CapIs(maxResults: Option<int>)
    ensures 1 <= Cap(maxResults) <= 500
    ensures maxResults.Some? && 1 <= maxResults.value <= 500 ==> Cap(maxResults) == maxResults.value
    ensures maxResults.None? || maxResults.value > 500 ==> Cap(maxResults) == 500
  {
  }

  /** Page through the listing, cap it, and enrich what is left. */
  method CollectMessages(pages: nat -> Option<Page>, maxResults: Option<int>, full: string -> Option<Summary>)
    returns (enriched: seq<Summary>, ghost k: nat)
    ensures k <= MAX_PAGES && StopsAt(pages, Cap(maxResults), k)
    ensures var listed := FirstPages(pages, k);
            && |enriched| == (if |listed| < Cap(maxResults) then |listed| else Cap(maxResults)) <= REVIEW_CAP
            && forall i :: 0 <= i < |enriched| ==> enriched[i] == Enriched(listed[i], full)
  {
    var cap := Cap(maxResults);
    var messages;
    messages, k := ListMessages(pages, cap);
    enriched := EnrichInBatches(if |messages| > cap then messages[..cap] else messages, full);
  }
}
