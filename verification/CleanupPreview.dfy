/** The bounded preview of a cleanup that a human approves: the top senders and how much is not shown. */
module CleanupPreview {
  import opened Text
  import opened Ordering
  import opened FirstSeen

  const MAX_TARGET_ROWS: nat := 8
  const UNKNOWN_SENDER := "(unknown sender)"

  /** A plan as the cleaner makes it or as it was stored; the counts may be missing. */
  datatype Plan = Plan(safe: seq<Option<string>>, safeCount: Option<int>, protectedCount: Option<int>,
                       freesBytes: Option<int>)

  datatype Scope = Messages | Threads

  datatype TargetRow = TargetRow(subject: Option<string>, sender: Option<string>, count: Option<int>)

  datatype Targets = Targets(verb: string, scope: Scope, provider: Option<string>, total: int, rows: seq<TargetRow>,
                             protectedCount: Option<int>, freesBytes: Option<int>, truncated: bool)

  /** What the code takes from its platform: the name inside `"Name" <address>`, upper-casing, and
      the locale's order. */
  datatype Platform = Platform(nameIn: string -> string, upper: string -> string, collate: (string, string) -> bool)

  function DisplaySender(p: Platform, raw: Option<string>): string {
    var s := Trim(if raw.Some? then raw.value else "");
    if s == "" then UNKNOWN_SENDER
    else if Trim(p.nameIn(s)) != "" then Trim(p.nameIn(s))
    else s
  }

  function CleanupVerb(p: Platform, action: Option<string>): string {
    var a := p.upper(Trim(if action.Some? then action.value else ""));
    if a == "DELETE" || a == "ARCHIVE_PURGE" then "Permanently delete"
    else if a == "ARCHIVE" || a == "ORGANIZE" || a == "LABEL" then "Archive"
    else "Move to Trash"
  }

  /** Exactly the permanent deletions are called so, and exactly the three kinds of filing away "Archive". */
  lemma VerbIff(p: Platform, action: Option<string>)
    ensures var name := p.upper(Trim(if action.Some? then action.value else ""));
            && (CleanupVerb(p, action) == "Permanently delete" <==> name in {"DELETE", "ARCHIVE_PURGE"})
            && (CleanupVerb(p, action) == "Archive" <==> name in {"ARCHIVE", "ORGANIZE", "LABEL"})
            && CleanupVerb(p, action) in {"Permanently delete", "Archive", "Move to Trash"}
  {
    assert "Permanently delete"[0] == 'P' && "Archive"[0] == 'A' && "Move to Trash"[0] == 'M';
    assert "DELETE"[0] == 'D' && "ARCHIVE_PURGE"[0] == 'A' && "ARCHIVE"[0] == 'A' && "ORGANIZE"[0] == 'O'
        && "LABEL"[0] == 'L' && |"ARCHIVE"| != |"ARCHIVE_PURGE"|;
  }

  /** A sender is shown by the name before its address, by the whole text if it has none, and a missing or
      blank one by a placeholder. */
  lemma DisplayIs(p: Platform, raw: Option<string>, s: string)
    requires s == Trim(if raw.Some? then raw.value else "")
    ensures s == "" ==> DisplaySender(p, raw) == "(unknown sender)"
    ensures s != "" && Trim(p.nameIn(s)) == "" ==> DisplaySender(p, raw) == s
    ensures s != "" && Trim(p.nameIn(s)) != "" ==> DisplaySender(p, raw) == Trim(p.nameIn(s))
  {
  }

  function CleanStr(s: Option<string>): Option<string> {
    if s.Some? && Trim(s.value) != "" then Some(Trim(s.value)) else None
  }

  function OrElse<T>(o: Option<T>, d: T): T { if o.Some? then o.value else d }

  // ---- grouping by sender ------------------------------------------------------------------------

  datatype Entry = Entry(sender: string, count: nat)

  function Names(p: Platform, safe: seq<Option<string>>): seq<string> {
    seq(|safe|, i requires 0 <= i < |safe| => DisplaySender(p, safe[i]))
  }

  /** The senders in the order they first appear. */
  function Senders(names: seq<string>): seq<string> { DistinctBy(Itself(), names) }

  function EntryOf(names: seq<string>, sender: string): Entry { Entry(sender, multiset(names)[sender]) }

  function EntriesFor(names: seq<string>, senders: seq<string>): seq<Entry> {
    seq(|senders|, i requires 0 <= i < |senders| => EntryOf(names, senders[i]))
  }

  function Entries(names: seq<string>): seq<Entry> { EntriesFor(names, Senders(names)) }

  /** More messages first, then the locale's order of the names. */
  function Before(collate: (string, string) -> bool): (Entry, Entry) -> bool {
    (a: Entry, b: Entry) => a.count > b.count || (a.count == b.count && collate(a.sender, b.sender))
  }

  function Ranked(p: Platform, names: seq<string>): seq<Entry> { Sort(Before(p.collate), Entries(names)) }

  function Top(p: Platform, names: seq<string>): seq<Entry> { Take(Ranked(p, names), MAX_TARGET_ROWS) }

  function RowsOf(entries: seq<Entry>): seq<TargetRow> {
    seq(|entries|, i requires 0 <= i < |entries| => TargetRow(None, Some(entries[i].sender), Some(entries[i].count)))
  }

  lemma SendersSnoc(names: seq<string>, name: string)
    ensures Senders(names + [name]) == if name in names then Senders(names) else Senders(names) + [name]
    ensures name in Senders(names) <==> name in names
  {
    DistinctBySnoc(Itself(), names, name);
    DistinctMembers(names, name);
    OwnKeys(Senders(names), name);
    AppendNothing(Senders(names));
  }

  ghost predicate Counts(names: seq<string>, order: seq<string>, bySender: map<string, nat>) {
    && order == Senders(names)
    && (forall s :: s in bySender <==> s in names)
    && (forall s :: s in bySender ==> bySender[s] == multiset(names)[s])
  }

  function OneMore(bySender: map<string, nat>, key: string): map<string, nat> {
    bySender[key := (if key in bySender then bySender[key] else 0) + 1]
  }

  lemma NextName(p: Platform, safe: seq<Option<string>>, i: nat)
    requires i < |safe|
    ensures Names(p, safe)[..i + 1] == Names(p, safe)[..i] + [DisplaySender(p, safe[i])]
  {
  }

  lemma NothingCounted()
    ensures Counts([], [], map[])
  {
  }

  lemma CountsMean(names: seq<string>, order: seq<string>, bySender: map<string, nat>)
    requires Counts(names, order, bySender)
    ensures order == Senders(names)
    ensures forall s :: s in bySender <==> s in order
    ensures forall s :: s in order ==> bySender[s] == multiset(names)[s]
  {
    forall s
      ensures s in order <==> s in names
    {
      SendersSnoc(names, s);
    }
  }

  lemma CountsMore(names: seq<string>, order: seq<string>, bySender: map<string, nat>, key: string)
    requires Counts(names, order, bySender)
    ensures Counts(names + [key], if key in bySender then order else order + [key], OneMore(bySender, key))
  {
    SendersSnoc(names, key);
    assert multiset(names + [key]) == multiset(names) + multiset{key};
    assert key !in names ==> multiset(names)[key] == 0;
  }

  /** Fill a table of counts that remembers the order of insertion. */
  method GroupBySender(p: Platform, safe: seq<Option<string>>) returns (order: seq<string>, bySender: map<string, nat>)
    ensures order == Senders(Names(p, safe))
    ensures forall s :: s in bySender <==> s in order
    ensures forall s :: s in order ==> bySender[s] == multiset(Names(p, safe))[s]
  {
    order, bySender := [], map[];
    ghost var names := Names(p, safe);
    NothingCounted();
    assert names[..0] == [];
    for i := 0 to |safe|
      invariant Counts(names[..i], order, bySender)
    {
      var key := DisplaySender(p, safe[i]);
      NextName(p, safe, i);
      CountsMore(names[..i], order, bySender, key);
      if key !in bySender { order := order + [key]; }
      bySender := OneMore(bySender, key);
    }
    assert names[..|safe|] == names;
    CountsMean(names, order, bySender);
  }

  method TopRows(p: Platform, safe: seq<Option<string>>) returns (rows: seq<TargetRow>, truncated: bool)
    ensures rows == RowsOf(Top(p, Names(p, safe)))
    ensures truncated == (|Ranked(p, Names(p, safe))| > |rows|)
    ensures |Ranked(p, Names(p, safe))| == |Senders(Names(p, safe))|
  {
    var order, bySender := GroupBySender(p, safe);
    var entries := seq(|order|, i requires 0 <= i < |order| && order[i] in bySender =>
                       Entry(order[i], bySender[order[i]]));
    assert entries == Entries(Names(p, safe));
    SortLength(Before(p.collate), entries);
    rows := RowsOf(Take(Sort(Before(p.collate), entries), MAX_TARGET_ROWS));
    truncated := |order| > |rows|;
  }

  lemma {:induction false} InsertLength<T>(le: (T, T) -> bool, s: seq<T>, x: T)
    ensures |Insert(le, s, x)| == |s| + 1
  {
    if s != [] { InsertLength(le, s[..|s| - 1], x); }
  }

  lemma {:induction false} SortLength<T>(le: (T, T) -> bool, s: seq<T>)
    ensures |Sort(le, s)| == |s|
  {
    if s != [] {
      SortLength(le, s[..|s| - 1]);
      InsertLength(le, Sort(le, s[..|s| - 1]), s[|s| - 1]);
    }
  }

  // ---- the backend's preview and the browser's ---------------------------------------------------

  const NO_PLAN: Plan := Plan([], None, None, None)

  function BackendTargets(p: Platform, action: Option<string>, provider: Option<string>, plan: Option<Plan>): Targets {
    var plan := OrElse(plan, NO_PLAN);
    var names := Names(p, plan.safe);
    Targets(CleanupVerb(p, action), Messages, provider, OrElse(plan.safeCount, |plan.safe|), RowsOf(Top(p, names)),
            Some(OrElse(plan.protectedCount, 0)), Some(OrElse(plan.freesBytes, 0)),
            |Ranked(p, names)| > |Top(p, names)|)
  }

  method CleanupTargetsFromPlan(p: Platform, action: Option<string>, provider: Option<string>, plan: Option<Plan>)
    returns (targets: Targets)
    ensures targets == BackendTargets(p, action, provider, plan)
  {
    var safe := OrElse(plan, NO_PLAN).safe;
    var total := OrElse(OrElse(plan, NO_PLAN).safeCount, |safe|);
    var rows, truncated := TopRows(p, safe);
    targets := Targets(CleanupVerb(p, action), Messages, provider, total, rows,
                       Some(OrElse(OrElse(plan, NO_PLAN).protectedCount, 0)),
                       Some(OrElse(OrElse(plan, NO_PLAN).freesBytes, 0)), truncated);
  }

  function AtLeastZero(n: int): int { if n < 0 then 0 else n }

  function CoerceRow(r: TargetRow): TargetRow { TargetRow(CleanStr(r.subject), CleanStr(r.sender), r.count) }

  /** The browser's check of a preview stored on the item. */
  function Coerce(t: Targets): Targets {
    var rows := Take(t.rows, MAX_TARGET_ROWS);
    Targets(OrElse(CleanStr(Some(t.verb)), "Clean up"), t.scope, CleanStr(t.provider), AtLeastZero(t.total),
            seq(|rows|, i requires 0 <= i < |rows| => CoerceRow(rows[i])),
            t.protectedCount, t.freesBytes, t.truncated)
  }

  /** What an inbox item carries: the stored preview on newer items, the raw plan, or native thread ids. */
  datatype Payload = Payload(targets: Option<Targets>, plan: Option<Plan>, action: Option<string>,
                             provider: Option<string>, threadCount: Option<nat>, native: bool)

  function PlanTargets(p: Platform, payload: Payload, plan: Plan): Targets {
    var names := Names(p, plan.safe);
    Targets(CleanupVerb(p, payload.action), Messages, CleanStr(payload.provider),
            AtLeastZero(OrElse(plan.safeCount, |plan.safe|)), RowsOf(Top(p, names)),
            plan.protectedCount, plan.freesBytes, |Ranked(p, names)| > |Top(p, names)|)
  }

  /** Stored preview, else one derived from the plan, else a bare count of threads. */
  function DerivedTargets(p: Platform, payload: Payload): Option<Targets> {
    if payload.targets.Some? then Some(Coerce(payload.targets.value))
    else if payload.plan.Some? then Some(PlanTargets(p, payload, payload.plan.value))
    else if payload.threadCount.Some? && payload.threadCount.value > 0 then
      Some(Targets(CleanupVerb(p, payload.action), Threads,
                   if payload.native then Some("this inbox") else CleanStr(payload.provider),
                   payload.threadCount.value, [], None, None, false))
    else None
  }

  method DeriveCleanupTargets(p: Platform, payload: Payload) returns (targets: Option<Targets>)
    ensures targets == DerivedTargets(p, payload)
  {
    if payload.targets.Some? { return Some(Coerce(payload.targets.value)); }
    if payload.plan.Some? {
      var plan := payload.plan.value;
      var rows, truncated := TopRows(p, plan.safe);
      return Some(Targets(CleanupVerb(p, payload.action), Messages, CleanStr(payload.provider),
                          AtLeastZero(OrElse(plan.safeCount, |plan.safe|)), rows,
                          plan.protectedCount, plan.freesBytes, truncated));
    }
    if payload.threadCount.Some? {
      if payload.threadCount.value == 0 { return None; }
      return Some(Targets(CleanupVerb(p, payload.action), Threads,
                          if payload.native then Some("this inbox") else CleanStr(payload.provider),
                          payload.threadCount.value, [], None, None, false));
    }
    return None;
  }

  lemma DisplayIsClean(p: Platform, raw: Option<string>)
    ensures CleanStr(Some(DisplaySender(p, raw))) == Some(DisplaySender(p, raw))
  {
    var s := Trim(if raw.Some? then raw.value else "");
    TrimIsTrimmed(if raw.Some? then raw.value else "");
    TrimIsTrimmed(p.nameIn(s));
    TrimIsTrimmed(s);
    TrimIsTrimmed(Trim(p.nameIn(s)));
    assert Trimmed(UNKNOWN_SENDER);
    TrimIsTrimmed(UNKNOWN_SENDER);
  }

  lemma TopIsNamed(p: Platform, names: seq<string>)
    ensures |Top(p, names)| <= MAX_TARGET_ROWS
    ensures forall e :: e in Ranked(p, names) ==> e.sender in names && e.count == multiset(names)[e.sender]
  {
    SortMembers(Before(p.collate), Entries(names));
    forall e | e in Entries(names)
      ensures e.sender in names && e.count == multiset(names)[e.sender]
    {
      SendersSnoc(names, e.sender);
    }
  }

  lemma VerbIsClean(p: Platform, action: Option<string>)
    ensures CleanStr(Some(CleanupVerb(p, action))) == Some(CleanupVerb(p, action))
  {
    var verb := CleanupVerb(p, action);
    assert verb != "" && !IsSpace(verb[0]) && !IsSpace(verb[|verb| - 1]);
    TrimIsTrimmed(verb);
  }

  lemma CleanRows(p: Platform, safe: seq<Option<string>>, e: Entry)
    requires e in Ranked(p, Names(p, safe))
    ensures CleanStr(Some(e.sender)) == Some(e.sender)
  {
    TopIsNamed(p, Names(p, safe));
    var i :| 0 <= i < |safe| && Names(p, safe)[i] == e.sender;
    DisplayIsClean(p, safe[i]);
  }

  /** Two hosts that differ at most in the order their locale gives to names. */
  ghost predicate SameButCollation(p: Platform, q: Platform) { q == p.(collate := q.collate) }

  lemma RankedLength(p: Platform, names: seq<string>)
    ensures |Ranked(p, names)| == |Senders(names)|
  {
    SortLength(Before(p.collate), Entries(names));
  }

  /** The preview stored by the backend and the one the browser derives from the same plan agree on verb,
      scope, provider, total and truncation, whatever the two locales; each shows its own host's rows. */
  lemma StoredAndDerivedAgree(server: Platform, browser: Platform, action: Option<string>, provider: Option<string>,
                              plan: Plan, threads: Option<nat>, native: bool)
    requires SameButCollation(server, browser)
    ensures var stored := Payload(Some(BackendTargets(server, action, provider, Some(plan))), Some(plan),
                                  action, provider, threads, native);
            var a, b := DerivedTargets(browser, stored), DerivedTargets(browser, stored.(targets := None));
            && a.Some? && b.Some?
            && a.value.verb == b.value.verb && a.value.scope == b.value.scope && a.value.provider == b.value.provider
            && a.value.total == b.value.total && a.value.truncated == b.value.truncated
            && a.value.rows == RowsOf(Top(server, Names(server, plan.safe)))
            && b.value.rows == RowsOf(Top(browser, Names(server, plan.safe)))
  {
    var names := Names(server, plan.safe);
    SameNames(server, browser, plan.safe);
    VerbIsClean(server, action);
    RankedLength(server, names);
    RankedLength(browser, names);
    CoercedRows(server, plan.safe);
  }

  /** The stored preview states the plan's counts, zero where the plan has none; the derived one states what
      the plan has. So the two agree on them exactly when the plan has both. */
  lemma CountsAgreeIff(server: Platform, browser: Platform, action: Option<string>, provider: Option<string>,
                       plan: Plan)
    ensures var stored := Payload(Some(BackendTargets(server, action, provider, Some(plan))), Some(plan),
                                  action, provider, None, false);
            var a, b := DerivedTargets(browser, stored).value, DerivedTargets(browser, stored.(targets := None)).value;
            && a.protectedCount == Some(OrElse(plan.protectedCount, 0))
            && a.freesBytes == Some(OrElse(plan.freesBytes, 0))
            && b.protectedCount == plan.protectedCount && b.freesBytes == plan.freesBytes
            && (a.protectedCount == b.protectedCount && a.freesBytes == b.freesBytes <==>
                  plan.protectedCount.Some? && plan.freesBytes.Some?)
  {
  }

  /** Without a stored preview or a plan, only a positive number of threads is shown, and nothing else. */
  lemma ThreadsAlone(p: Platform, payload: Payload)
    requires payload.targets.None? && payload.plan.None?
    ensures DerivedTargets(p, payload).Some? <==> payload.threadCount.Some? && payload.threadCount.value > 0
    ensures DerivedTargets(p, payload).Some? ==>
              var t := DerivedTargets(p, payload).value;
              t.scope == Threads && t.rows == [] && t.total == payload.threadCount.value && !t.truncated
  {
  }

  /** Whatever was stored, at most eight rows are shown, and no negative total. */
  lemma StoredIsBounded(p: Platform, payload: Payload)
    requires payload.targets.Some?
    ensures DerivedTargets(p, payload).Some?
    ensures var t := DerivedTargets(p, payload).value;
            && |t.rows| <= 8 && t.total >= 0 && t.verb != ""
            && forall i :: 0 <= i < |t.rows| ==> t.rows[i].count == payload.targets.value.rows[i].count
  {
  }

  lemma SameNames(p: Platform, q: Platform, safe: seq<Option<string>>)
    requires SameButCollation(p, q)
    ensures Names(q, safe) == Names(p, safe)
  {
  }

  lemma CoercedRows(p: Platform, safe: seq<Option<string>>)
    ensures var rows := RowsOf(Top(p, Names(p, safe)));
            && Take(rows, MAX_TARGET_ROWS) == rows
            && seq(|rows|, i requires 0 <= i < |rows| => CoerceRow(rows[i])) == rows
  {
    var names := Names(p, safe);
    var top := Top(p, names);
    TopIsNamed(p, names);
    forall i | 0 <= i < |top|
      ensures CoerceRow(RowsOf(top)[i]) == RowsOf(top)[i]
    {
      assert top[i] in Ranked(p, names);
      CleanRows(p, safe, top[i]);
    }
  }
}
