/** What cleanup steps are sure to do: what a confirmed batch handed to the provider and removed, what an
    approval carries out, how long an archive lives, and what a sweep clears. */
module CleanupEffects {
  import opened Text
  import opened MailArchive
  import opened CleanupPlan
  import opened CleanupBatches

  predicate Deletes(mode: Mode) { mode == Delete || mode == ArchivePurge }

  /** The provider is asked to carry the verb out: always, but for deleting only behind a confirmed archive. */
  predicate Asked(env: Env, w: World, ids: seq<string>, mode: Mode, e: Engine) {
    mode == Trash || mode == ArchiveMode || (Deletes(mode) && ArchiveConfirmed(env, w, ids, e))
  }

  /** The call that stands for a verb. */
  function CallFor(mode: Mode): ProviderCall {
    if mode == Trash then BatchTrash else if mode == ArchiveMode then BatchArchive else BatchDelete
  }

  /** If the provider was asked, it was handed exactly these ids, by the verb's own call, and of the
      mailbox exactly those of them are gone that it removed for a deletion; if not, nothing happened. */
  ghost predicate Did(w: World, after: World, plan: Plan, ids: seq<string>, mode: Mode, asked: bool, e: Engine) {
    && after.handed == w.handed + (if asked then [Handed(plan, ids, CallFor(mode))] else [])
    && (forall id :: id in after.mailbox <==>
          id in w.mailbox && !(asked && Deletes(mode) && id in ids && id in e.apply.removed))
    && (forall id :: id in after.mailbox ==> after.mailbox[id] == w.mailbox[id])
  }

  /** Running a verb: a count comes back exactly when the provider was asked and answered. */
  lemma VerbDoes(env: Env, w: World, batch: nat, plan: Plan, ids: seq<string>, mode: Mode, e: Engine)
    ensures var (after, count) := Apply(env, w, batch, plan, ids, mode, e);
            && count == (if Asked(env, w, ids, mode, e) then e.apply.count else None)
            && Did(w, after, plan, ids, mode, Asked(env, w, ids, mode, e), e)
            && after.rows == w.rows && after.now == w.now
  {
    AppendNothing(w.handed);
  }

  /** Direct execution: what is done for the requested ids, and a row exactly when it was confirmed. */
  lemma ExecutionDoes(env: Env, w: World, fetched: seq<Summary>, c: Criteria, selected: seq<string>, mode: Mode,
                      vault: bool, e: Engine)
    ensures var plan, after := PlanOf(env.rules, c, fetched), Execute(env, w, fetched, c, selected, mode, vault, e);
            var ids := Requested(plan, selected);
            var asked := mode != ArchiveMode && Asked(env, w, ids, mode, e);
            && Did(w, after, plan, ids, mode, asked, e)
            && after.rows == (if asked && e.apply.count.Some?
                              then w.rows[w.nextId := Completed(w.now, w.nextId, mode, plan, vault)] else w.rows)
  {
    var plan := PlanOf(env.rules, c, fetched);
    AppendNothing(w.handed);
    if mode != ArchiveMode { FreshDoes(env, w, plan, Requested(plan, selected), mode, vault, e); }
  }

  lemma FreshDoes(env: Env, w: World, plan: Plan, ids: seq<string>, mode: Mode, vault: bool, e: Engine)
    ensures var after, asked := ExecuteFresh(env, w, plan, ids, mode, vault, e), Asked(env, w, ids, mode, e);
            && Did(w, after, plan, ids, mode, asked, e)
            && after.rows == (if asked && e.apply.count.Some?
                              then w.rows[w.nextId := Completed(w.now, w.nextId, mode, plan, vault)] else w.rows)
  {
    var begun := w.(nextId := w.nextId + 1);
    VerbDoes(env, begun, w.nextId, plan, ids, mode, e);
  }

  /** Organizing: everything safe is handed over to be archived, and nothing is deleted. */
  lemma OrganizingDoes(env: Env, w: World, fetched: seq<Summary>, c: Criteria, e: Engine)
    ensures var plan, after := PlanOf(env.rules, c, fetched), Organize(env, w, fetched, c, e);
            && Did(w, after, plan, Ids(plan.safe), ArchiveMode, true, e)
            && after.rows == (if e.apply.count.Some?
                              then w.rows[w.nextId := Batch(COMPLETED, ArchiveMode, plan, None, None, false, None)]
                              else w.rows)
  {
  }

  /** The row of a batch whose approval ran: with its archive if it deleted. */
  function ApprovedRow(now: nat, batch: nat, row: Batch, vault: bool): Batch {
    if Deletes(row.mode) then Completed(now, batch, row.mode, row.plan, vault) else row.(state := COMPLETED)
  }

  /** Approval: what is done for the whole safe list of the staged plan, and COMPLETED exactly when it
      was confirmed. */
  lemma ApprovalDoes(env: Env, w: World, batch: nat, vault: bool, e: Engine)
    requires batch in w.rows && w.rows[batch].state == PENDING
    ensures var row, after := w.rows[batch], Approve(env, w, batch, vault, true, e);
            var asked := Asked(env, w, Ids(row.plan.safe), row.mode, e);
            && Did(w, after, row.plan, Ids(row.plan.safe), row.mode, asked, e)
            && after.rows == w.rows[batch := if asked && e.apply.count.Some? then ApprovedRow(w.now, batch, row, vault)
                                             else row.(state := FAILED)]
  {
    var row := w.rows[batch];
    VerbDoes(env, w, batch, row.plan, Ids(row.plan.safe), row.mode, e);
  }

  // ---- a lost answer ---------------------------------------------------------------------------

  /** A mailbox of one message, and calls that all work, except that the answer to the last is lost. */
  function Alone(id: string, m: Message): World { Start(0, map[id := m]) }

  function AnswerLost(id: string): Engine {
    Engine(CreateCall(true, true), VerifyCall(true, true), ApplyCall({id}, None))
  }

  /** The message is gone, no row was written, and the one archive there is verified and holds it. */
  ghost predicate Stranded(p: Platform, after: World, id: string, m: Message) {
    && after.mailbox == map[] && after.rows == map[]
    && after.objects.Keys == {Key(0, 0)}
    && Verified(p, after.objects[Key(0, 0)]) && Holds(p, after.objects[Key(0, 0)], id, m)
  }

  lemma StoredAlone(env: Env, plan: Plan, id: string, m: Message)
    requires CollisionFree(env.platform) && PlainId(env.platform, id)
    ensures Asked(env, Alone(id, m), [id], Delete, AnswerLost(id))
    ensures var after := ExecuteFresh(env, Alone(id, m), plan, [id], Delete, true, AnswerLost(id));
            after.objects == map[Key(0, 0) := ArchiveOf(env.platform, map[id := m], [id])]
  {
    PlainIdsAlwaysVerify(env.platform, map[id := m], [id]);
    assert AllPresent(map[id := m], [id]);
  }

  lemma OneIsStranded(env: Env, plan: Plan, id: string, m: Message)
    requires CollisionFree(env.platform) && PlainId(env.platform, id)
    ensures Stranded(env.platform, ExecuteFresh(env, Alone(id, m), plan, [id], Delete, true, AnswerLost(id)), id, m)
  {
    var after := ExecuteFresh(env, Alone(id, m), plan, [id], Delete, true, AnswerLost(id));
    StoredAlone(env, plan, id, m);
    FreshDoes(env, Alone(id, m), plan, [id], Delete, true, AnswerLost(id));
    PlainIdsAlwaysVerify(env.platform, map[id := m], [id]);
    VerifiedArchiveHolds(env.platform, map[id := m], [id], id);
    assert after.mailbox.Keys == {};
  }

  lemma OneIsRequested(env: Env, m: Summary, c: Criteria, local: string, domain: string)
    requires m.sender.Some? && SentFrom(m.sender.value, local, domain) && m.starred == Some(false) && HasQuery(c)
    requires !KeptDomain(env.rules, env.rules.lower(Trim(domain)))
    ensures Requested(PlanOf(env.rules, c, [m]), [m.id]) == [m.id]
  {
    var plan := PlanOf(env.rules, c, [m]);
    ProtectedByAddressIff(env.rules, m, local, domain);
    PlansAreSafe(env.rules, c, [m]);
    assert Classified(env.rules, [m])[0] == Classify(env.rules, m);
    assert Classify(env.rules, m) in plan.safe;
    var k :| 0 <= k < |plan.safe| && plan.safe[k] == Classify(env.rules, m);
    assert Ids(plan.safe)[k] == m.id;
    FilterOne((id: string) => id in Ids(plan.safe), m.id);
  }

  /** The failing case occurs, for any plain message that may be cleaned: everything works, only the last
      answer is lost. */
  lemma UnconfirmedDeletionIsStranded(env: Env, id: string, m: Message, local: string, domain: string, c: Criteria)
    requires CollisionFree(env.platform) && PlainId(env.platform, id) && HasQuery(c)
    requires SentFrom(local + "@" + domain, local, domain)
    requires !KeptDomain(env.rules, env.rules.lower(Trim(domain)))
    ensures var listed := [Summary(id, Some(local + "@" + domain), Some(|m.bytes|), Some(false), Some(m.labels))];
            Stranded(env.platform, Execute(env, Alone(id, m), listed, c, [id], Delete, true, AnswerLost(id)), id, m)
  {
    var listed := [Summary(id, Some(local + "@" + domain), Some(|m.bytes|), Some(false), Some(m.labels))];
    OneIsRequested(env, listed[0], c, local, domain);
    OneIsStranded(env, PlanOf(env.rules, c, listed), id, m);
  }

  // ---- what was staged is what is approved -----------------------------------------------------

  /** A pending row stays as it is until its batch is approved. */
  lemma PendingStays(env: Env, w: World, s: Step, batch: nat)
    requires Inv(env, w) && batch in w.rows && w.rows[batch].state == PENDING
    requires s.DoApprove? ==> s.batch != batch
    ensures batch in Next(env, w, s).rows && Next(env, w, s).rows[batch] == w.rows[batch]
  {
    assert RowOk(env, w, batch, w.rows[batch]);
    match s {
      case DoExecute(fetched, c, selected, mode, vault, e) =>
        ExecutionDoes(env, w, fetched, c, selected, mode, vault, e);
      case DoOrganize(fetched, c, e) => OrganizingDoes(env, w, fetched, c, e);
      case DoApprove(b, vault, linked, e) => ApproveRows(env, w, b, vault, linked, e);
      case DoUndo(b, linked, call) => UndoRows(env, w, b, linked, call);
      case DoSweep(due) => SweepTouches(w, due);
      case _ =>
    }
  }

  lemma {:induction false} PendingStaysInRun(env: Env, w: World, steps: seq<Step>, batch: nat)
    requires CollisionFree(env.platform) && Inv(env, w) && batch in w.rows && w.rows[batch].state == PENDING
    requires forall s :: s in steps && s.DoApprove? ==> s.batch != batch
    ensures batch in Run(env, w, steps).rows && Run(env, w, steps).rows[batch] == w.rows[batch]
  {
    if steps != [] {
      var n := |steps| - 1;
      assert steps[n] in steps && forall s :: s in steps[..n] ==> s in steps;
      PendingStaysInRun(env, w, steps[..n], batch);
      RunKeepsInv(env, w, steps[..n]);
      PendingStays(env, Run(env, w, steps[..n]), steps[n], batch);
    }
  }

  /** Whatever happens between staging and approval, the approval carries out the verb and the plan that
      were staged: the ids are those found safe then, and only they are deleted. */
  lemma ApprovedIsWhatWasStaged(env: Env, w: World, fetched: seq<Summary>, c: Criteria, mode: Mode, steps: seq<Step>,
                                vault: bool, e: Engine)
    requires CollisionFree(env.platform) && Inv(env, w)
    requires forall s :: s in steps && s.DoApprove? ==> s.batch != w.nextId
    ensures var plan := PlanOf(env.rules, c, fetched);
            var before := Run(env, Stage(env, w, fetched, c, mode, false), steps);
            var after := Approve(env, before, w.nextId, vault, true, e);
            var asked := Asked(env, before, Ids(plan.safe), mode, e);
            && Did(before, after, plan, Ids(plan.safe), mode, asked, e)
            && w.nextId in after.rows
            && (after.rows[w.nextId].state == COMPLETED <==> asked && e.apply.count.Some?)
  {
    var staged := Stage(env, w, fetched, c, mode, false);
    StageKeepsInv(env, w, fetched, c, mode, false);
    assert staged.rows[w.nextId] == Batch(PENDING, mode, PlanOf(env.rules, c, fetched), None, None, false, None);
    PendingStaysInRun(env, staged, steps, w.nextId);
    ApprovalDoes(env, Run(env, staged, steps), w.nextId, vault, e);
  }

  /** Approval needs a pending batch, undo a live archive that is there, and both a linked account;
      otherwise they change nothing. */
  lemma RefusedChangesNothing(env: Env, w: World, batch: nat, vault: bool, linked: bool, e: Engine, call: RestoreCall)
    ensures !linked || batch !in w.rows || w.rows[batch].state != PENDING ==>
              Approve(env, w, batch, vault, linked, e) == w
    ensures !linked || batch !in w.rows || !Live(w.rows[batch], w.now) || w.rows[batch].key.value !in w.objects ==>
              Undo(env, w, batch, linked, call) == w
  {
  }

  // ---- completed batches were handed over ------------------------------------------------------

  /** The provider was handed ids of the row's plan by the call of the row's verb. */
  ghost predicate CarriedOut(w: World, row: Batch) {
    exists h :: h in w.handed && h.plan == row.plan && h.call == CallFor(row.mode)
  }

  ghost predicate AllCarriedOut(w: World) {
    forall b :: b in w.rows && w.rows[b].state in {COMPLETED, UNDONE} ==> CarriedOut(w, w.rows[b])
  }

  lemma DidCarryOut(w: World, after: World, plan: Plan, ids: seq<string>, mode: Mode, asked: bool, e: Engine,
                    row: Batch)
    requires Did(w, after, plan, ids, mode, asked, e)
    ensures CarriedOut(w, row) ==> CarriedOut(after, row)
    ensures asked && row.plan == plan && row.mode == mode ==> CarriedOut(after, row)
  {
    if asked { assert after.handed[|w.handed|] == Handed(plan, ids, CallFor(mode)); }
    if CarriedOut(w, row) {
      var h :| h in w.handed && h.plan == row.plan && h.call == CallFor(row.mode);
      assert h in after.handed;
    }
  }

  lemma ExecutionCarriesOut(env: Env, w: World, fetched: seq<Summary>, c: Criteria, selected: seq<string>, mode: Mode,
                            vault: bool, e: Engine)
    requires AllCarriedOut(w)
    ensures AllCarriedOut(Execute(env, w, fetched, c, selected, mode, vault, e))
  {
    var plan, after := PlanOf(env.rules, c, fetched), Execute(env, w, fetched, c, selected, mode, vault, e);
    var ids := Requested(plan, selected);
    ExecutionDoes(env, w, fetched, c, selected, mode, vault, e);
    forall b | b in after.rows && after.rows[b].state in {COMPLETED, UNDONE}
      ensures CarriedOut(after, after.rows[b])
    {
      DidCarryOut(w, after, plan, ids, mode, mode != ArchiveMode && Asked(env, w, ids, mode, e), e, after.rows[b]);
    }
  }

  lemma OrganizingCarriesOut(env: Env, w: World, fetched: seq<Summary>, c: Criteria, e: Engine)
    requires AllCarriedOut(w)
    ensures AllCarriedOut(Organize(env, w, fetched, c, e))
  {
    var plan, after := PlanOf(env.rules, c, fetched), Organize(env, w, fetched, c, e);
    OrganizingDoes(env, w, fetched, c, e);
    forall b | b in after.rows && after.rows[b].state in {COMPLETED, UNDONE}
      ensures CarriedOut(after, after.rows[b])
    {
      DidCarryOut(w, after, plan, Ids(plan.safe), ArchiveMode, true, e, after.rows[b]);
    }
  }

  lemma ApprovalCarriesOut(env: Env, w: World, batch: nat, vault: bool, e: Engine)
    requires AllCarriedOut(w) && batch in w.rows && w.rows[batch].state == PENDING
    ensures AllCarriedOut(Approve(env, w, batch, vault, true, e))
  {
    var row, after := w.rows[batch], Approve(env, w, batch, vault, true, e);
    ApprovalDoes(env, w, batch, vault, e);
    forall b | b in after.rows && after.rows[b].state in {COMPLETED, UNDONE}
      ensures CarriedOut(after, after.rows[b])
    {
      DidCarryOut(w, after, row.plan, Ids(row.plan.safe), row.mode, Asked(env, w, Ids(row.plan.safe), row.mode, e), e,
                  after.rows[b]);
    }
  }

  /** Steps that hand nothing over and leave plans, verbs and decided states alone. */
  lemma OthersCarryOut(w: World, after: World)
    requires AllCarriedOut(w) && after.handed == w.handed
    requires forall b :: b in after.rows && after.rows[b].state in {COMPLETED, UNDONE} ==>
               && b in w.rows && w.rows[b].state in {COMPLETED, UNDONE}
               && after.rows[b].plan == w.rows[b].plan && after.rows[b].mode == w.rows[b].mode
    ensures AllCarriedOut(after)
  {
    forall b | b in after.rows && after.rows[b].state in {COMPLETED, UNDONE}
      ensures CarriedOut(after, after.rows[b])
    {
      assert CarriedOut(w, w.rows[b]);
    }
  }

  lemma NextCarriesOut(env: Env, w: World, s: Step)
    requires Inv(env, w) && AllCarriedOut(w)
    ensures AllCarriedOut(Next(env, w, s))
  {
    match s
    case DoExecute(fetched, c, selected, mode, vault, e) =>
      ExecutionCarriesOut(env, w, fetched, c, selected, mode, vault, e);
    case DoOrganize(fetched, c, e) => OrganizingCarriesOut(env, w, fetched, c, e);
    case DoStage(fetched, c, mode, unsubscribe) => OthersCarryOut(w, Next(env, w, s));
    case DoApprove(batch, vault, linked, e) =>
      if batch in w.rows && w.rows[batch].state == PENDING && linked { ApprovalCarriesOut(env, w, batch, vault, e); }
    case DoUndo(batch, linked, call) =>
      UndoHandsNothing(env, w, batch, linked, call);
      OthersCarryOut(w, Next(env, w, s));
    case DoSweep(due) =>
      SweepTouches(w, due);
      OthersCarryOut(w, Next(env, w, s));
    case MailboxChanges(_) => OthersCarryOut(w, Next(env, w, s));
    case TimePasses(_) => OthersCarryOut(w, Next(env, w, s));
  }

  lemma UndoHandsNothing(env: Env, w: World, batch: nat, linked: bool, call: RestoreCall)
    requires Inv(env, w)
    ensures var after := Undo(env, w, batch, linked, call);
            && after.handed == w.handed
            && forall b :: b in after.rows ==>
                 && b in w.rows && after.rows[b].plan == w.rows[b].plan && after.rows[b].mode == w.rows[b].mode
                 && (after.rows[b].state != w.rows[b].state ==> w.rows[b].state == COMPLETED)
  {
    UndoRows(env, w, batch, linked, call);
    if batch in w.rows { assert RowOk(env, w, batch, w.rows[batch]); }
  }

  /** In every run, a batch that counts as completed, or was undone since, has been handed to the
      provider: ids of its own plan, by the call of its own verb. */
  lemma {:induction false} CompletedWasHandedOver(env: Env, now: nat, mailbox: map<string, Message>, steps: seq<Step>)
    requires CollisionFree(env.platform)
    ensures AllCarriedOut(Run(env, Start(now, mailbox), steps))
  {
    if steps != [] {
      var n := |steps| - 1;
      CompletedWasHandedOver(env, now, mailbox, steps[..n]);
      StartOk(env, now, mailbox);
      RunKeepsInv(env, Start(now, mailbox), steps[..n]);
      NextCarriesOut(env, Run(env, Start(now, mailbox), steps[..n]), steps[n]);
    }
  }

  // ---- the life of an archive ------------------------------------------------------------------

  /** The archive of a deletion can be undone for seven days, or for good in the vault; the sweep's query
      finds it after that time, and never in the vault. */
  lemma ArchiveLifetime(now: nat, batch: nat, mode: Mode, plan: Plan, vault: bool, later: nat)
    ensures var row := Completed(now, batch, mode, plan, vault);
            && (Live(row, later) <==> Deletes(mode) && (vault || later < now + 7 * 24 * 60 * 60 * 1000))
            && (Due(row, later) <==> Deletes(mode) && !vault && later > now + 7 * 24 * 60 * 60 * 1000)
            && row.state == COMPLETED && row.plan == plan && row.mode == mode
            && (Deletes(mode) ==> row.key == Some(Key(batch, now)))
  {
  }

  /** A row that a sweep cleared has lost its object with it. */
  lemma {:induction false} ClearedMeansGone(w: World, due: seq<(nat, DeleteObjectCall)>, b: nat)
    requires b in w.rows && Due(w.rows[b], w.now)
    ensures b in Sweep(w, due).rows
    ensures Sweep(w, due).rows[b] == w.rows[b]
            || (Sweep(w, due).rows[b].key == None && w.rows[b].key.value !in Sweep(w, due).objects)
  {
    if due != [] {
      ClearedMeansGone(w, due[..|due| - 1], b);
      SweepTouches(w, due[..|due| - 1]);
    }
  }

  /** Every due row whose deletion the object store answered is cleared, and its archive is gone. */
  lemma {:induction false} SweepClears(w: World, due: seq<(nat, DeleteObjectCall)>, i: nat)
    requires i < |due| && due[i].1.answered && due[i].0 in w.rows && Due(w.rows[due[i].0], w.now)
    ensures var b, after := due[i].0, Sweep(w, due);
            && b in after.rows && after.rows[b] == w.rows[b].(key := None, expiresAt := None)
            && w.rows[b].key.value !in after.objects
  {
    var n, b := |due| - 1, due[i].0;
    ClearedMeansGone(w, due[..n], b);
    SweepTouches(w, due[..n]);
    if i < n { SweepClears(w, due[..n], i); }
  }
}
