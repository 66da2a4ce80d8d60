/** Cleanup batches as a state machine over mailbox, archive store and batch rows. Every engine
    call may fail to answer, and a call that did not answer may still have taken effect; what each
    call did is part of the step, so a theorem over all steps covers every failure pattern. */
module CleanupBatches {
  import opened Text
  import opened MailArchive
  import opened CleanupPlan

  datatype Mode = Trash | ArchiveMode | Delete | ArchivePurge | Unsupported(name: string)

  datatype State = PENDING | COMPLETED | FAILED | UNDONE

  /** Storage keys carry the batch id and the time they were made. */
  datatype Key = Key(batch: nat, at: nat)

  datatype Batch = Batch(state: State, mode: Mode, plan: Plan, key: Option<Key>, expiresAt: Option<nat>,
                         retained: bool, restoredAt: Option<nat>)

  /** A permanent deletion that happened: which message, for which batch, and what stood under the
      batch's key at that moment. */
  datatype Purge = Purge(batch: nat, key: Key, id: string, message: Message, archive: Archive)

  datatype ProviderCall = BatchTrash | BatchArchive | BatchDelete

  /** Ids handed to the provider by a mailbox-changing call, and the plan they came from. */
  datatype Handed = Handed(plan: Plan, ids: seq<string>, call: ProviderCall)

  datatype World = World(
    now: nat,
    mailbox: map<string, Message>,
    objects: map<Key, Archive>,
    rows: map<nat, Batch>,
    nextId: nat,
    purges: set<Purge>,
    handed: seq<Handed>,
    imports: seq<Import>)

  datatype Env = Env(platform: Platform, rules: Rules)

  const WEEK: nat := 7 * 24 * 60 * 60 * 1000

  // ---- what engine calls did ----------------------------------------------------------------

  datatype CreateCall = CreateCall(stored: bool, answered: bool)
  datatype VerifyCall = VerifyCall(answered: bool, downloaded: bool)
  /** The messages the provider really removed, and the count if one came back. */
  datatype ApplyCall = ApplyCall(removed: set<string>, count: Option<int>)
  /** Which entries the provider takes, how far an unanswered restore got, and whether it answered. */
  datatype RestoreCall = RestoreCall(accepts: nat -> bool, reached: nat, answered: bool)
  datatype DeleteObjectCall = DeleteObjectCall(removed: bool, answered: bool)

  datatype Engine = Engine(create: CreateCall, verify: VerifyCall, apply: ApplyCall)

  // ---- the handlers -------------------------------------------------------------------------

  predicate Live(row: Batch, now: nat) {
    && row.key.Some?
    && row.restoredAt.None?
    && (row.retained || (row.expiresAt.Some? && row.expiresAt.value > now))
  }

  function Purged(w: World, batch: nat, key: Key, ids: set<string>, archive: Archive): set<Purge>
    requires ids <= w.mailbox.Keys
  {
    set id | id in ids :: Purge(batch, key, id, w.mailbox[id], archive)
  }

  function Set(ids: seq<string>): set<string> { set id | id in ids }

  /** Store the archive, if the export succeeds and the upload happens. */
  function Stored(env: Env, w: World, key: Key, ids: seq<string>, call: CreateCall): World {
    if call.stored && AllPresent(w.mailbox, ids)
    then w.(objects := w.objects[key := ArchiveOf(env.platform, w.mailbox, ids)]) else w
  }

  predicate ArchiveConfirmed(env: Env, w: World, ids: seq<string>, e: Engine) {
    && e.create.stored && e.create.answered && AllPresent(w.mailbox, ids)
    && e.verify.answered && e.verify.downloaded
    && Verified(env.platform, ArchiveOf(env.platform, w.mailbox, ids))
  }

  /** Hand ids to a mailbox-changing call. */
  function Handing(w: World, plan: Plan, ids: seq<string>, call: ProviderCall): World {
    w.(handed := w.handed + [Handed(plan, ids, call)])
  }

  /** Archive, verify, and only then delete. None: an exception was thrown on the way. */
  function ArchiveThenDelete(env: Env, w: World, batch: nat, plan: Plan, ids: seq<string>, e: Engine): (World,
                             Option<int>) {
    var key := Key(batch, w.now);
    var stored := Stored(env, w, key, ids, e.create);
    if !ArchiveConfirmed(env, w, ids, e) then (stored, None)
    else
      var gone := e.apply.removed * Set(ids) * w.mailbox.Keys;
      var purges := w.purges + Purged(w, batch, key, gone, stored.objects[key]);
      (Handing(stored.(mailbox := w.mailbox - gone, purges := purges), plan, ids, BatchDelete), e.apply.count)
  }

  /** Run one batch's verb. None: an exception, the batch did not complete. */
  function Apply(env: Env, w: World, batch: nat, plan: Plan, ids: seq<string>, mode: Mode, e: Engine): (World,
                 Option<int>) {
    match mode
    case Delete => ArchiveThenDelete(env, w, batch, plan, ids, e)
    case ArchivePurge => ArchiveThenDelete(env, w, batch, plan, ids, e)
    case Trash => (Handing(w, plan, ids, BatchTrash), e.apply.count)
    case ArchiveMode => (Handing(w, plan, ids, BatchArchive), e.apply.count)
    case Unsupported(_) => (w, None)
  }

  predicate Purging(mode: Mode) { mode.Delete? || mode.ArchivePurge? }

  /** The row of a batch completed by direct execution. */
  function Completed(now: nat, batch: nat, mode: Mode, plan: Plan, vault: bool): Batch {
    Batch(COMPLETED, mode, plan, if Purging(mode) then Some(Key(batch, now)) else None,
          if vault then None else Some(now + WEEK), vault, None)
  }

  /** The row of a staged batch once its approval went through. */
  function Approved(w: World, batch: nat, row: Batch, vault: bool): Batch {
    if Purging(row.mode) then Completed(w.now, batch, row.mode, row.plan, vault) else row.(state := COMPLETED)
  }

  /** Direct execution: only ids the client selected and a fresh plan still finds safe. */
  function Execute(env: Env, w: World, fetched: seq<Summary>, c: Criteria, selected: seq<string>,
                   mode: Mode, vault: bool, e: Engine): World
  {
    if mode.ArchiveMode? then w
    else
      var plan := PlanOf(env.rules, c, fetched);
      ExecuteFresh(env, w, plan, Requested(plan, selected), mode, vault, e)
  }

  /** Run ids of a fresh plan as a new batch. */
  function ExecuteFresh(env: Env, w: World, plan: Plan, ids: seq<string>, mode: Mode, vault: bool, e: Engine): World {
    ExecuteBatch(env, w.(nextId := w.nextId + 1), w.nextId, plan, ids, mode, vault, e)
  }

  /** Write the row, if the engine confirmed a count. */
  function Recorded(w: World, count: Option<int>, batch: nat, row: Batch): World {
    if count.None? then w else w.(rows := w.rows[batch := row])
  }

  /** Run a batch under a fresh id, and record it only when the engine confirmed it. */
  function ExecuteBatch(env: Env, w: World, batch: nat, plan: Plan, ids: seq<string>, mode: Mode, vault: bool,
                        e: Engine): World
  {
    var (after, count) := Apply(env, w, batch, plan, ids, mode, e);
    Recorded(after, count, batch, Completed(w.now, batch, mode, plan, vault))
  }

  /** Organize everything the plan finds safe. */
  function Organize(env: Env, w: World, fetched: seq<Summary>, c: Criteria, e: Engine): World {
    var plan := PlanOf(env.rules, c, fetched);
    var after := Handing(w, plan, Ids(plan.safe), BatchArchive);
    if e.apply.count.None? then after
    else
      var row := Batch(COMPLETED, ArchiveMode, plan, None, None, false, None);
      after.(rows := after.rows[w.nextId := row], nextId := w.nextId + 1)
  }

  /** Add a pending row for a fresh plan, unless the action is to unsubscribe, which is not implemented. */
  function Stage(env: Env, w: World, fetched: seq<Summary>, c: Criteria, mode: Mode, unsubscribe: bool): World {
    if unsubscribe then w
    else
      var plan := PlanOf(env.rules, c, fetched);
      w.(rows := w.rows[w.nextId := Batch(PENDING, mode, plan, None, None, false, None)], nextId := w.nextId + 1)
  }

  /** What becomes of a pending batch's row. */
  function Decided(w: World, count: Option<int>, batch: nat, row: Batch, vault: bool): Batch {
    if count.None? then row.(state := FAILED) else Approved(w, batch, row, vault)
  }

  function Approve(env: Env, w: World, batch: nat, vault: bool, linked: bool, e: Engine): World {
    if batch !in w.rows || w.rows[batch].state != PENDING || !linked then w
    else
      var row := w.rows[batch];
      var (after, count) := Apply(env, w, batch, row.plan, Ids(row.plan.safe), row.mode, e);
      after.(rows := after.rows[batch := Decided(w, count, batch, row, vault)])
  }

  function Undo(env: Env, w: World, batch: nat, linked: bool, call: RestoreCall): World {
    if batch !in w.rows || !Live(w.rows[batch], w.now) || !linked then w
    else
      var row := w.rows[batch];
      if row.key.value !in w.objects then w
      else
        var archive := w.objects[row.key.value];
        if !call.answered then
          var n := if call.reached <= |archive.entries| then call.reached else |archive.entries|;
          w.(imports := w.imports + RestoreEntries(env.platform, archive, call.accepts, n).imports)
        else
          var r := Restore(env.platform, archive, call.accepts);
          var after := w.(imports := w.imports + r.imports);
          if |r.failed| > 0 then after
          else after.(rows := w.rows[batch := row.(state := UNDONE, restoredAt := Some(w.now))])
  }

  /** The sweep's query: an archive that is not retained and has expired. */
  predicate Due(row: Batch, now: nat) {
    row.key.Some? && !row.retained && row.expiresAt.Some? && row.expiresAt.value < now
  }

  function SweepRow(w: World, batch: nat, call: DeleteObjectCall): World {
    if batch !in w.rows || !Due(w.rows[batch], w.now) then w
    else
      var row := w.rows[batch];
      var after := if call.removed || call.answered then w.(objects := w.objects - {row.key.value}) else w;
      if call.answered then after.(rows := w.rows[batch := row.(key := None, expiresAt := None)]) else after
  }

  /** The sweep handles the due rows it was given one by one; a failure skips to the next. */
  function Sweep(w: World, due: seq<(nat, DeleteObjectCall)>): World {
    if due == [] then w
    else SweepRow(Sweep(w, due[..|due| - 1]), due[|due| - 1].0, due[|due| - 1].1)
  }

  // ---- steps and runs -----------------------------------------------------------------------

  datatype Step =
    | DoExecute(fetched: seq<Summary>, c: Criteria, selected: seq<string>, mode: Mode, vault: bool, e: Engine)
    | DoOrganize(fetched: seq<Summary>, c: Criteria, e: Engine)
    | DoStage(fetched: seq<Summary>, c: Criteria, mode: Mode, unsubscribe: bool)
    | DoApprove(batch: nat, vault: bool, linked: bool, e: Engine)
    | DoUndo(batch: nat, linked: bool, call: RestoreCall)
    | DoSweep(due: seq<(nat, DeleteObjectCall)>)
    | MailboxChanges(mailbox: map<string, Message>)
    | TimePasses(amount: nat)

  function Next(env: Env, w: World, s: Step): World {
    match s
    case DoExecute(fetched, c, selected, mode, vault, e) => Execute(env, w, fetched, c, selected, mode, vault, e)
    case DoOrganize(fetched, c, e) => Organize(env, w, fetched, c, e)
    case DoStage(fetched, c, mode, unsubscribe) => Stage(env, w, fetched, c, mode, unsubscribe)
    case DoApprove(batch, vault, linked, e) => Approve(env, w, batch, vault, linked, e)
    case DoUndo(batch, linked, call) => Undo(env, w, batch, linked, call)
    case DoSweep(due) => Sweep(w, due)
    case MailboxChanges(mailbox) => w.(mailbox := mailbox)
    case TimePasses(amount) => w.(now := w.now + amount)
  }

  function Run(env: Env, w: World, steps: seq<Step>): World {
    if steps == [] then w else Next(env, Run(env, w, steps[..|steps| - 1]), steps[|steps| - 1])
  }

  function Start(now: nat, mailbox: map<string, Message>): World {
    World(now, mailbox, map[], map[], 0, {}, [], [])
  }

  // ---- the invariant ------------------------------------------------------------------------

  /** A deletion backed by an archive that verified and holds exactly the deleted message. */
  ghost predicate Backed(p: Platform, purge: Purge) {
    && purge.key.batch == purge.batch
    && Verified(p, purge.archive)
    && Holds(p, purge.archive, purge.id, purge.message)
  }

  /** A batch row in itself: a safe plan; an archive only once completed; restored iff undone. */
  ghost predicate RowOk(env: Env, w: World, batch: nat, row: Batch) {
    && batch < w.nextId
    && SafePlan(env.rules, row.plan)
    && (row.key.Some? ==> row.state in {COMPLETED, UNDONE} && row.key.value.batch == batch)
    && (row.restoredAt.Some? <==> row.state == UNDONE)
    && (Live(row, w.now) ==> row.key.value in w.objects && Verified(env.platform, w.objects[row.key.value]))
  }

  /** A deletion and the row of its batch: no pending batch has deleted anything, a live archive is
      the one the deletion was backed by, and an undone batch has brought the message back. */
  ghost predicate PurgeAndRow(w: World, purge: Purge, row: Batch) {
    && row.state != PENDING
    && (Live(row, w.now) ==> purge.key == row.key.value && row.key.value in w.objects
                             && w.objects[row.key.value] == purge.archive)
    && (row.state == UNDONE ==> ImportOf(purge.message) in w.imports)
  }

  ghost predicate SafeIds(env: Env, plan: Plan, ids: seq<string>) {
    SafePlan(env.rules, plan) && forall id :: id in ids ==> id in Ids(plan.safe)
  }

  ghost predicate HandedOk(env: Env, h: Handed) { SafeIds(env, h.plan, h.ids) }

  /** Nothing was handed over, or once the given ids. */
  ghost predicate HandedOnce(w: World, after: World, plan: Plan, ids: seq<string>) {
    after.handed == w.handed || exists call :: after.handed == w.handed + [Handed(plan, ids, call)]
  }

  ghost predicate Inv(env: Env, w: World) {
    && (forall purge :: purge in w.purges ==> Backed(env.platform, purge) && purge.batch < w.nextId)
    && (forall batch :: batch in w.rows ==> RowOk(env, w, batch, w.rows[batch]))
    && (forall purge :: purge in w.purges && purge.batch in w.rows ==> PurgeAndRow(w, purge, w.rows[purge.batch]))
    && (forall h :: h in w.handed ==> HandedOk(env, h))
  }

  /** The message `id` of world `w` was deleted, and the archive now standing under a key made in
      this very step verified and holds its exact bytes and labels. */
  ghost predicate DeletedWithBacking(p: Platform, w: World, after: World, id: string, key: Key)
    requires id in w.mailbox
  {
    && key.at == w.now
    && key in after.objects
    && exists purge :: purge in after.purges && purge.id == id && purge.message == w.mailbox[id] && purge.key == key
                       && purge.archive == after.objects[key] && Backed(p, purge)
  }

  /** What running a batch's verb keeps and adds: rows, clock and other archives stay; the new deletions
      are given ids, backed by the archive made just now; nothing else changes in the mailbox. */
  ghost predicate Ran(env: Env, w: World, after: World, count: Option<int>, batch: nat, plan: Plan, ids: seq<string>,
                      mode: Mode)
  {
    var key := Key(batch, w.now);
    && after.now == w.now && after.rows == w.rows && after.nextId == w.nextId && after.imports == w.imports
    && (forall k :: k in w.objects && k != key ==> k in after.objects && after.objects[k] == w.objects[k])
    && HandedOnce(w, after, plan, ids)
    && w.purges <= after.purges
    && (forall purge :: purge in after.purges - w.purges ==>
          && Backed(env.platform, purge) && purge.batch == batch && purge.key == key
          && key in after.objects && purge.archive == after.objects[key]
          && purge.id in w.mailbox && purge.message == w.mailbox[purge.id] && purge.id in ids)
    && (Purging(mode) && count.Some? ==> key in after.objects && Verified(env.platform, after.objects[key]))
    && (forall id :: id in w.mailbox && id !in after.mailbox ==>
          DeletedWithBacking(env.platform, w, after, id, key))
    && (forall id :: id in after.mailbox ==> id in w.mailbox && after.mailbox[id] == w.mailbox[id])
  }

  /** So it is, whatever the engine did. */
  lemma ApplyEffect(env: Env, w: World, batch: nat, plan: Plan, ids: seq<string>, mode: Mode, e: Engine)
    requires CollisionFree(env.platform)
    requires SafeIds(env, plan, ids)
    ensures var (after, count) := Apply(env, w, batch, plan, ids, mode, e);
            Ran(env, w, after, count, batch, plan, ids, mode)
  {
    if Purging(mode) && ArchiveConfirmed(env, w, ids, e) {
      var key := Key(batch, w.now);
      var archive := ArchiveOf(env.platform, w.mailbox, ids);
      var gone := e.apply.removed * Set(ids) * w.mailbox.Keys;
      forall id | id in gone
        ensures Backed(env.platform, Purge(batch, key, id, w.mailbox[id], archive))
      {
        VerifiedArchiveHolds(env.platform, w.mailbox, ids, id);
      }
      forall id | id in gone
        ensures DeletedWithBacking(env.platform, w, Apply(env, w, batch, plan, ids, mode, e).0, id, key)
      {
        assert Purge(batch, key, id, w.mailbox[id], archive) in Purged(w, batch, key, gone, archive);
      }
    }
  }

  lemma PlanHanding(env: Env, fetched: seq<Summary>, c: Criteria, selected: seq<string>)
    ensures SafeIds(env, PlanOf(env.rules, c, fetched), Requested(PlanOf(env.rules, c, fetched), selected))
    ensures SafeIds(env, PlanOf(env.rules, c, fetched), Ids(PlanOf(env.rules, c, fetched).safe))
  {
    PlansAreSafe(env.rules, c, fetched);
    RequestedIsSelectedAndSafe(PlanOf(env.rules, c, fetched), selected);
  }

  /** Before its row is written, a batch with a new id disturbs nothing. */
  lemma ApplyKeepsInv(env: Env, w: World, batch: nat, plan: Plan, ids: seq<string>, mode: Mode, e: Engine)
    requires CollisionFree(env.platform) && Inv(env, w)
    requires SafeIds(env, plan, ids)
    requires batch < w.nextId && batch !in w.rows
    ensures Inv(env, Apply(env, w, batch, plan, ids, mode, e).0)
  {
    ApplyEffect(env, w, batch, plan, ids, mode, e);
  }

  lemma AddRowKeepsInv(env: Env, w: World, batch: nat, row: Batch)
    requires Inv(env, w) && RowOk(env, w, batch, row)
    requires forall purge :: purge in w.purges && purge.batch == batch ==> PurgeAndRow(w, purge, row)
    ensures Inv(env, w.(rows := w.rows[batch := row]))
  {
  }

  lemma ExecuteBatchKeepsInv(env: Env, w: World, batch: nat, plan: Plan, ids: seq<string>, mode: Mode, vault: bool,
                             e: Engine)
    requires CollisionFree(env.platform) && Inv(env, w)
    requires SafeIds(env, plan, ids)
    requires batch < w.nextId && batch !in w.rows && forall purge :: purge in w.purges ==> purge.batch != batch
    ensures Inv(env, ExecuteBatch(env, w, batch, plan, ids, mode, vault, e))
  {
    ApplyKeepsInv(env, w, batch, plan, ids, mode, e);
    var (after, count) := Apply(env, w, batch, plan, ids, mode, e);
    if count.Some? {
      ApplyEffect(env, w, batch, plan, ids, mode, e);
      AddRowKeepsInv(env, after, batch, Completed(w.now, batch, mode, plan, vault));
    }
  }

  lemma ExecuteKeepsInv(env: Env, w: World, fetched: seq<Summary>, c: Criteria, selected: seq<string>,
                        mode: Mode, vault: bool, e: Engine)
    requires CollisionFree(env.platform) && Inv(env, w)
    ensures Inv(env, Execute(env, w, fetched, c, selected, mode, vault, e))
  {
    PlanHanding(env, fetched, c, selected);
    if !mode.ArchiveMode? {
      var plan := PlanOf(env.rules, c, fetched);
      FreshKeepsInv(env, w, plan, Requested(plan, selected), mode, vault, e);
    }
  }

  lemma FreshKeepsInv(env: Env, w: World, plan: Plan, ids: seq<string>, mode: Mode, vault: bool, e: Engine)
    requires CollisionFree(env.platform) && Inv(env, w) && SafeIds(env, plan, ids)
    ensures Inv(env, ExecuteFresh(env, w, plan, ids, mode, vault, e))
  {
    var begun := w.(nextId := w.nextId + 1);
    NewIdKeepsInv(env, w);
    assert begun.rows == w.rows && begun.purges == w.purges;
    ExecuteBatchKeepsInv(env, begun, w.nextId, plan, ids, mode, vault, e);
    assert ExecuteFresh(env, w, plan, ids, mode, vault, e)
        == ExecuteBatch(env, begun, w.nextId, plan, ids, mode, vault, e);
  }

  lemma NewIdKeepsInv(env: Env, w: World)
    requires Inv(env, w)
    ensures Inv(env, w.(nextId := w.nextId + 1)) && w.nextId !in w.rows
    ensures forall purge :: purge in w.purges ==> purge.batch != w.nextId
  {
  }

  lemma OrganizeKeepsInv(env: Env, w: World, fetched: seq<Summary>, c: Criteria, e: Engine)
    requires Inv(env, w)
    ensures Inv(env, Organize(env, w, fetched, c, e))
  {
    PlanHanding(env, fetched, c, []);
  }

  lemma StageKeepsInv(env: Env, w: World, fetched: seq<Summary>, c: Criteria, mode: Mode, unsubscribe: bool)
    requires Inv(env, w)
    ensures Inv(env, Stage(env, w, fetched, c, mode, unsubscribe))
  {
    PlanHanding(env, fetched, c, []);
  }

  lemma ApproveKeepsInv(env: Env, w: World, batch: nat, vault: bool, linked: bool, e: Engine)
    requires CollisionFree(env.platform) && Inv(env, w)
    ensures Inv(env, Approve(env, w, batch, vault, linked, e))
  {
    if batch in w.rows && w.rows[batch].state == PENDING && linked {
      var row := w.rows[batch];
      assert RowOk(env, w, batch, row);
      ApplyEffect(env, w, batch, row.plan, Ids(row.plan.safe), row.mode, e);
      var (after, count) := Apply(env, w, batch, row.plan, Ids(row.plan.safe), row.mode, e);
      DecidedKeepsInv(env, w, after, count, batch, row, vault);
    }
  }

  lemma DecidedRowOk(env: Env, w: World, after: World, count: Option<int>, batch: nat, row: Batch, vault: bool)
    requires RowOk(env, w, batch, row) && row.state == PENDING
    requires Ran(env, w, after, count, batch, row.plan, Ids(row.plan.safe), row.mode)
    ensures RowOk(env, after, batch, Decided(w, count, batch, row, vault))
    ensures Decided(w, count, batch, row, vault).state in {FAILED, COMPLETED}
  {
  }

  /** Another batch's row is as sound after the verb ran as before. */
  lemma OtherRowOk(env: Env, w: World, after: World, count: Option<int>, batch: nat, plan: Plan, ids: seq<string>,
                   mode: Mode, other: nat, row: Batch)
    requires RowOk(env, w, other, row) && other != batch
    requires Ran(env, w, after, count, batch, plan, ids, mode)
    ensures RowOk(env, after, other, row)
  {
  }

  lemma DecidedPurgeOk(env: Env, w: World, after: World, count: Option<int>, batch: nat, row: Batch, vault: bool,
                       purge: Purge)
    requires Inv(env, w) && batch in w.rows && w.rows[batch] == row && row.state == PENDING
    requires Ran(env, w, after, count, batch, row.plan, Ids(row.plan.safe), row.mode)
    requires purge in after.purges && purge.batch in w.rows
    ensures PurgeAndRow(after, purge,
              if purge.batch == batch then Decided(w, count, batch, row, vault) else w.rows[purge.batch])
  {
    if purge in w.purges { assert PurgeAndRow(w, purge, w.rows[purge.batch]); }
    assert RowOk(env, w, purge.batch, w.rows[purge.batch]);
    if purge.batch == batch { DecidedRowOk(env, w, after, count, batch, row, vault); }
  }

  /** The rest of a world does not matter to a row or a deletion. */
  lemma RowsDoNotMatter(env: Env, w: World, rows: map<nat, Batch>, batch: nat, row: Batch, purge: Purge)
    ensures RowOk(env, w.(rows := rows), batch, row) <==> RowOk(env, w, batch, row)
    ensures PurgeAndRow(w.(rows := rows), purge, row) <==> PurgeAndRow(w, purge, row)
  {
  }

  lemma InvFromParts(env: Env, w: World, rows: map<nat, Batch>)
    requires forall purge :: purge in w.purges ==> Backed(env.platform, purge) && purge.batch < w.nextId
    requires forall batch :: batch in rows ==> RowOk(env, w, batch, rows[batch])
    requires forall purge :: purge in w.purges && purge.batch in rows ==> PurgeAndRow(w, purge, rows[purge.batch])
    requires forall h :: h in w.handed ==> HandedOk(env, h)
    ensures Inv(env, w.(rows := rows))
  {
    var after := w.(rows := rows);
    forall batch | batch in rows
      ensures RowOk(env, after, batch, rows[batch])
    {
      assert RowOk(env, w, batch, rows[batch]);
    }
    forall purge | purge in after.purges && purge.batch in rows
      ensures PurgeAndRow(after, purge, rows[purge.batch])
    {
      RowsDoNotMatter(env, w, rows, purge.batch, rows[purge.batch], purge);
    }
  }

  /** The pending row is replaced by what became of the batch. */
  lemma DecidedKeepsInv(env: Env, w: World, after: World, count: Option<int>, batch: nat, row: Batch, vault: bool)
    requires Inv(env, w) && batch in w.rows && w.rows[batch] == row && row.state == PENDING
    requires Ran(env, w, after, count, batch, row.plan, Ids(row.plan.safe), row.mode)
    ensures Inv(env, after.(rows := w.rows[batch := Decided(w, count, batch, row, vault)]))
  {
    var rows := w.rows[batch := Decided(w, count, batch, row, vault)];
    assert RowOk(env, w, batch, row);
    forall b | b in rows
      ensures RowOk(env, after, b, rows[b])
    {
      if b == batch {
        DecidedRowOk(env, w, after, count, batch, row, vault);
      } else {
        OtherRowOk(env, w, after, count, batch, row.plan, Ids(row.plan.safe), row.mode, b, w.rows[b]);
      }
    }
    forall purge | purge in after.purges && purge.batch in rows
      ensures PurgeAndRow(after, purge, rows[purge.batch])
    {
      DecidedPurgeOk(env, w, after, count, batch, row, vault, purge);
    }
    RanPurges(env, w, after, count, batch, row.plan, Ids(row.plan.safe), row.mode);
    InvFromParts(env, after, rows);
  }

  lemma RanPurges(env: Env, w: World, after: World, count: Option<int>, batch: nat, plan: Plan, ids: seq<string>,
                  mode: Mode)
    requires Inv(env, w) && batch < w.nextId && SafeIds(env, plan, ids)
    requires Ran(env, w, after, count, batch, plan, ids, mode)
    ensures forall purge :: purge in after.purges ==> Backed(env.platform, purge) && purge.batch < after.nextId
    ensures forall h :: h in after.handed ==> HandedOk(env, h)
  {
    forall purge | purge in after.purges
      ensures Backed(env.platform, purge) && purge.batch < after.nextId
    {
      if purge !in w.purges { assert purge in after.purges - w.purges; }
    }
  }

  lemma UndoKeepsInv(env: Env, w: World, batch: nat, linked: bool, call: RestoreCall)
    requires Inv(env, w)
    ensures Inv(env, Undo(env, w, batch, linked, call))
  {
    if batch in w.rows && Live(w.rows[batch], w.now) && linked && w.rows[batch].key.value in w.objects {
      RestoreBringsBack(env.platform, w.objects[w.rows[batch].key.value], call.accepts);
    }
  }

  lemma SweepRowKeepsInv(env: Env, w: World, batch: nat, call: DeleteObjectCall)
    requires Inv(env, w)
    ensures Inv(env, SweepRow(w, batch, call))
  {
  }

  lemma {:induction false} SweepKeepsInv(env: Env, w: World, due: seq<(nat, DeleteObjectCall)>)
    requires Inv(env, w)
    ensures Inv(env, Sweep(w, due))
  {
    if due != [] {
      var n := |due| - 1;
      SweepKeepsInv(env, w, due[..n]);
      SweepRowKeepsInv(env, Sweep(w, due[..n]), due[n].0, due[n].1);
    }
  }

  lemma NextKeepsInv(env: Env, w: World, s: Step)
    requires CollisionFree(env.platform) && Inv(env, w)
    ensures Inv(env, Next(env, w, s))
  {
    match s
    case DoExecute(fetched, c, selected, mode, vault, e) =>
      ExecuteKeepsInv(env, w, fetched, c, selected, mode, vault, e);
    case DoOrganize(fetched, c, e) => OrganizeKeepsInv(env, w, fetched, c, e);
    case DoStage(fetched, c, mode, unsubscribe) => StageKeepsInv(env, w, fetched, c, mode, unsubscribe);
    case DoApprove(batch, vault, linked, e) => ApproveKeepsInv(env, w, batch, vault, linked, e);
    case DoUndo(batch, linked, call) => UndoKeepsInv(env, w, batch, linked, call);
    case DoSweep(due) => SweepKeepsInv(env, w, due);
    case MailboxChanges(_) =>
    case TimePasses(_) =>
  }

  lemma StartOk(env: Env, now: nat, mailbox: map<string, Message>)
    ensures Inv(env, Start(now, mailbox))
  {
  }

  lemma {:induction false} RunKeepsInv(env: Env, w: World, steps: seq<Step>)
    requires CollisionFree(env.platform) && Inv(env, w)
    ensures Inv(env, Run(env, w, steps))
  {
    if steps != [] {
      var n := |steps| - 1;
      RunKeepsInv(env, w, steps[..n]);
      NextKeepsInv(env, Run(env, w, steps[..n]), steps[n]);
    }
  }

  // ---- results over all runs ----------------------------------------------------------------

  /** What is gone has its backing, and nothing else of the mailbox changed. */
  ghost predicate OnlyBackedGone(env: Env, w: World, after: World) {
    && (forall id :: id in after.mailbox ==> id in w.mailbox && after.mailbox[id] == w.mailbox[id])
    && (forall id :: id in w.mailbox && id !in after.mailbox ==>
          exists key :: DeletedWithBacking(env.platform, w, after, id, key))
  }

  lemma ExecutionIsBacked(env: Env, w: World, plan: Plan, ids: seq<string>, mode: Mode, vault: bool, e: Engine)
    requires CollisionFree(env.platform) && SafeIds(env, plan, ids)
    ensures OnlyBackedGone(env, w, ExecuteFresh(env, w, plan, ids, mode, vault, e))
  {
    var begun := w.(nextId := w.nextId + 1);
    var applied := Apply(env, begun, w.nextId, plan, ids, mode, e).0;
    var after := ExecuteFresh(env, w, plan, ids, mode, vault, e);
    AppliedIsBacked(env, begun, w.nextId, plan, ids, mode, e);
    RecordingFrame(env, w, plan, ids, mode, vault, e);
    StepDeletes(env, begun, w, applied, after, Key(w.nextId, w.now));
  }

  /** Running the verb deletes with backing under the batch's own key. */
  lemma AppliedIsBacked(env: Env, w: World, batch: nat, plan: Plan, ids: seq<string>, mode: Mode, e: Engine)
    requires CollisionFree(env.platform) && SafeIds(env, plan, ids)
    ensures var applied := Apply(env, w, batch, plan, ids, mode, e).0;
            && (forall id :: id in w.mailbox && id !in applied.mailbox ==>
                  DeletedWithBacking(env.platform, w, applied, id, Key(batch, w.now)))
            && (forall id :: id in applied.mailbox ==> id in w.mailbox && applied.mailbox[id] == w.mailbox[id])
  {
    ApplyEffect(env, w, batch, plan, ids, mode, e);
  }

  lemma RecordingFrame(env: Env, w: World, plan: Plan, ids: seq<string>, mode: Mode, vault: bool, e: Engine)
    ensures var applied := Apply(env, w.(nextId := w.nextId + 1), w.nextId, plan, ids, mode, e).0;
            var after := ExecuteFresh(env, w, plan, ids, mode, vault, e);
            after.mailbox == applied.mailbox && after.objects == applied.objects && after.purges == applied.purges
  {
    var (applied, count) := Apply(env, w.(nextId := w.nextId + 1), w.nextId, plan, ids, mode, e);
    var row := Completed(w.now, w.nextId, mode, plan, vault);
    OnlyRowsRecorded(applied, count, w.nextId, row);
    assert ExecuteFresh(env, w, plan, ids, mode, vault, e) == Recorded(applied, count, w.nextId, row);
  }

  lemma OnlyRowsRecorded(w: World, count: Option<int>, batch: nat, row: Batch)
    ensures Recorded(w, count, batch, row) == w.(rows := Recorded(w, count, batch, row).rows)
  {
  }

  lemma ApprovalIsBacked(env: Env, w: World, batch: nat, vault: bool, linked: bool, e: Engine)
    requires CollisionFree(env.platform) && Inv(env, w)
    ensures OnlyBackedGone(env, w, Approve(env, w, batch, vault, linked, e))
  {
    if batch in w.rows && w.rows[batch].state == PENDING && linked {
      var row := w.rows[batch];
      assert RowOk(env, w, batch, row);
      AppliedIsBacked(env, w, batch, row.plan, Ids(row.plan.safe), row.mode, e);
      StepDeletes(env, w, w, Apply(env, w, batch, row.plan, Ids(row.plan.safe), row.mode, e).0,
                  Approve(env, w, batch, vault, linked, e), Key(batch, w.now));
    }
  }

  /** Every message a cleanup step makes disappear was, in the same step and before it was deleted,
      written to an archive that verified and holds exactly that message. Nothing else changes in
      the mailbox. */
  lemma DeletionsAreBacked(env: Env, w: World, s: Step)
    requires CollisionFree(env.platform) && Inv(env, w) && !s.MailboxChanges?
    ensures OnlyBackedGone(env, w, Next(env, w, s))
  {
    match s {
      case DoExecute(fetched, c, selected, mode, vault, e) =>
        PlanHanding(env, fetched, c, selected);
        if !mode.ArchiveMode? {
          var plan := PlanOf(env.rules, c, fetched);
          ExecutionIsBacked(env, w, plan, Requested(plan, selected), mode, vault, e);
        }
      case DoApprove(batch, vault, linked, e) => ApprovalIsBacked(env, w, batch, vault, linked, e);
      case DoSweep(due) => SweepTouches(w, due);
      case _ =>
    }
  }

  /** The same in every run from the start, whatever calls fail or go unanswered in it. */
  lemma EveryDeletionIsBacked(env: Env, now: nat, mailbox: map<string, Message>, steps: seq<Step>, s: Step, id: string)
    requires CollisionFree(env.platform) && !s.MailboxChanges?
    requires var w := Run(env, Start(now, mailbox), steps);
             id in w.mailbox && id !in Next(env, w, s).mailbox
    ensures var w := Run(env, Start(now, mailbox), steps);
            exists key :: DeletedWithBacking(env.platform, w, Next(env, w, s), id, key)
  {
    StartOk(env, now, mailbox);
    RunKeepsInv(env, Start(now, mailbox), steps);
    DeletionsAreBacked(env, Run(env, Start(now, mailbox), steps), s);
  }

  /** Writing the row afterwards changes neither mailbox, archives nor record of deletions. */
  lemma StepDeletes(env: Env, begun: World, w: World, applied: World, after: World, key: Key)
    requires begun.mailbox == w.mailbox && begun.now == w.now
    requires forall id :: id in begun.mailbox && id !in applied.mailbox ==>
               DeletedWithBacking(env.platform, begun, applied, id, key)
    requires after == w
             || (after.mailbox == applied.mailbox && after.objects == applied.objects && after.purges == applied.purges)
    ensures forall id :: id in w.mailbox && id !in after.mailbox ==>
              exists k :: DeletedWithBacking(env.platform, w, after, id, k)
  {
    forall id | id in w.mailbox && id !in after.mailbox
      ensures DeletedWithBacking(env.platform, w, after, id, key)
    {
      assert DeletedWithBacking(env.platform, begun, applied, id, key);
    }
  }

  /** The allowed changes of a batch's state, and what must have happened for each. */
  ghost predicate Moved(env: Env, w: World, s: Step, before: Batch, after: Batch) {
    after.plan == before.plan && after.mode == before.mode && Passed(env, w, s, before, after)
  }

  ghost predicate Passed(env: Env, w: World, s: Step, before: Batch, after: Batch) {
    || after.state == before.state
    || (before.state == PENDING && after.state == COMPLETED && s.DoApprove? && s.e.apply.count.Some?)
    || (before.state == PENDING && after.state == FAILED && s.DoApprove?)
    || (before.state == COMPLETED && after.state == UNDONE && s.DoUndo? && s.call.answered
        && Live(before, w.now) && before.key.value in w.objects
        && Restore(env.platform, w.objects[before.key.value], s.call.accepts).failed == [])
  }

  lemma ApplyFrame(env: Env, w: World, batch: nat, plan: Plan, ids: seq<string>, mode: Mode, e: Engine)
    ensures var (after, count) := Apply(env, w, batch, plan, ids, mode, e);
            && after.now == w.now && after.rows == w.rows && after.nextId == w.nextId && after.imports == w.imports
            && (count.Some? ==> e.apply.count.Some?)
  {
  }

  lemma ExecuteRows(env: Env, w: World, fetched: seq<Summary>, c: Criteria, selected: seq<string>,
                    mode: Mode, vault: bool, e: Engine)
    ensures var after := Execute(env, w, fetched, c, selected, mode, vault, e);
            && after.now == w.now
            && (after.rows == w.rows
                || (e.apply.count.Some?
                    && after.rows == w.rows[w.nextId :=
                          Completed(w.now, w.nextId, mode, PlanOf(env.rules, c, fetched), vault)]))
  {
    if !mode.ArchiveMode? {
      var plan := PlanOf(env.rules, c, fetched);
      FreshRows(env, w, plan, Requested(plan, selected), mode, vault, e);
    }
  }

  lemma FreshRows(env: Env, w: World, plan: Plan, ids: seq<string>, mode: Mode, vault: bool, e: Engine)
    ensures var after := ExecuteFresh(env, w, plan, ids, mode, vault, e);
            && after.now == w.now
            && (after.rows == w.rows
                || (e.apply.count.Some?
                    && after.rows == w.rows[w.nextId := Completed(w.now, w.nextId, mode, plan, vault)]))
  {
    ApplyFrame(env, w.(nextId := w.nextId + 1), w.nextId, plan, ids, mode, e);
  }

  lemma ApproveRows(env: Env, w: World, batch: nat, vault: bool, linked: bool, e: Engine)
    ensures var after := Approve(env, w, batch, vault, linked, e);
            && after.now == w.now
            && (after.rows == w.rows
                || (batch in w.rows && w.rows[batch].state == PENDING
                    && (after.rows == w.rows[batch := w.rows[batch].(state := FAILED)]
                        || (e.apply.count.Some?
                            && after.rows == w.rows[batch := Approved(w, batch, w.rows[batch], vault)]))))
  {
    if batch in w.rows {
      ApplyFrame(env, w, batch, w.rows[batch].plan, Ids(w.rows[batch].plan.safe), w.rows[batch].mode, e);
    }
  }

  lemma UndoRows(env: Env, w: World, batch: nat, linked: bool, call: RestoreCall)
    ensures var after := Undo(env, w, batch, linked, call);
            && after.now == w.now
            && (after.rows == w.rows
                || (batch in w.rows && Live(w.rows[batch], w.now) && w.rows[batch].key.value in w.objects
                    && call.answered
                    && Restore(env.platform, w.objects[w.rows[batch].key.value], call.accepts).failed == []
                    && after.rows == w.rows[batch := w.rows[batch].(state := UNDONE, restoredAt := Some(w.now))]))
  {
  }

  /** The rows of `w` are still there and moved as allowed, and new ones came in as allowed. */
  ghost predicate Lives(env: Env, w: World, s: Step, after: World) {
    && (forall b :: b in w.rows ==> b in after.rows && Moved(env, w, s, w.rows[b], after.rows[b]))
    && (forall b :: b in after.rows && b !in w.rows ==>
          || (after.rows[b].state == PENDING && s.DoStage? && !s.unsubscribe)
          || (after.rows[b].state == COMPLETED && (s.DoExecute? || s.DoOrganize?) && s.e.apply.count.Some?))
  }

  lemma ExecuteLives(env: Env, w: World, s: Step)
    requires Inv(env, w) && s.DoExecute?
    ensures Lives(env, w, s, Next(env, w, s))
  {
    NewIdKeepsInv(env, w);
    ExecuteRows(env, w, s.fetched, s.c, s.selected, s.mode, s.vault, s.e);
  }

  lemma ApproveLives(env: Env, w: World, s: Step)
    requires s.DoApprove?
    ensures Lives(env, w, s, Next(env, w, s))
  {
    ApproveRows(env, w, s.batch, s.vault, s.linked, s.e);
  }

  lemma UndoLives(env: Env, w: World, s: Step)
    requires Inv(env, w) && s.DoUndo?
    ensures Lives(env, w, s, Next(env, w, s))
  {
    UndoRows(env, w, s.batch, s.linked, s.call);
    if s.batch in w.rows { assert RowOk(env, w, s.batch, w.rows[s.batch]); }
  }

  lemma SweepLives(env: Env, w: World, s: Step)
    requires s.DoSweep?
    ensures Lives(env, w, s, Next(env, w, s))
  {
    SweepTouches(w, s.due);
  }

  /** Rows are never lost; states only move PENDING to COMPLETED (the engine confirmed a count),
      PENDING to FAILED, and COMPLETED to UNDONE (a live archive restored with zero failures); plan and
      mode of a row never change; a row enters as PENDING, or as COMPLETED with a confirmed count. */
  lemma LifeCycle(env: Env, w: World, s: Step)
    requires Inv(env, w)
    ensures Lives(env, w, s, Next(env, w, s))
  {
    match s {
      case DoExecute(_, _, _, _, _, _) => ExecuteLives(env, w, s);
      case DoOrganize(_, _, _) => NewIdKeepsInv(env, w);
      case DoStage(_, _, _, _) => NewIdKeepsInv(env, w);
      case DoApprove(_, _, _, _) => ApproveLives(env, w, s);
      case DoUndo(_, _, _) => UndoLives(env, w, s);
      case DoSweep(_) => SweepLives(env, w, s);
      case _ =>
    }
  }

  /** Once a batch that is no longer pending has no live archive, it never has one again. */
  lemma NeverLiveAgainStep(env: Env, w: World, s: Step, batch: nat)
    requires Inv(env, w)
    requires batch in w.rows && w.rows[batch].state != PENDING && !Live(w.rows[batch], w.now)
    ensures var after := Next(env, w, s);
            batch in after.rows && after.rows[batch].state != PENDING && !Live(after.rows[batch], after.now)
  {
    assert RowOk(env, w, batch, w.rows[batch]);
    match s {
      case DoExecute(fetched, c, selected, mode, vault, e) => ExecuteRows(env, w, fetched, c, selected, mode, vault, e);
      case DoApprove(b, vault, linked, e) => ApproveRows(env, w, b, vault, linked, e);
      case DoUndo(b, linked, call) => UndoRows(env, w, b, linked, call);
      case DoSweep(due) => SweepTouches(w, due);
      case _ =>
    }
  }

  lemma {:induction false} NeverLiveAgain(env: Env, w: World, steps: seq<Step>, batch: nat)
    requires CollisionFree(env.platform) && Inv(env, w)
    requires batch in w.rows && w.rows[batch].state != PENDING && !Live(w.rows[batch], w.now)
    ensures var after := Run(env, w, steps);
            batch in after.rows && after.rows[batch].state != PENDING && !Live(after.rows[batch], after.now)
  {
    if steps != [] {
      var n := |steps| - 1;
      NeverLiveAgain(env, w, steps[..n], batch);
      RunKeepsInv(env, w, steps[..n]);
      NeverLiveAgainStep(env, Run(env, w, steps[..n]), steps[n], batch);
    }
  }

  /** What a sweep can touch: it clears the archive of due rows and removes objects of due rows. */
  lemma {:induction false} SweepTouches(w: World, due: seq<(nat, DeleteObjectCall)>)
    ensures var after := Sweep(w, due);
            && after.now == w.now && after.mailbox == w.mailbox && after.rows.Keys == w.rows.Keys
            && after.handed == w.handed
            && (forall b :: b in w.rows ==>
                  || after.rows[b] == w.rows[b]
                  || (Due(w.rows[b], w.now) && after.rows[b] == w.rows[b].(key := None, expiresAt := None)))
            && (forall k :: k in after.objects ==> k in w.objects && after.objects[k] == w.objects[k])
            && (forall k :: k in w.objects && k !in after.objects ==>
                  exists b :: b in w.rows && Due(w.rows[b], w.now) && w.rows[b].key == Some(k))
  {
    if due != [] { SweepTouches(w, due[..|due| - 1]); }
  }

  /** The sweep removes an archive only when no batch has it live, even if deleting half-fails. */
  lemma SweepRemovesOnlyDeadArchives(env: Env, w: World, due: seq<(nat, DeleteObjectCall)>, key: Key)
    requires Inv(env, w)
    requires key in w.objects && key !in Sweep(w, due).objects
    ensures forall b :: b in w.rows && w.rows[b].key == Some(key) ==> !Live(w.rows[b], w.now)
  {
    SweepTouches(w, due);
  }

  /** In every run, a live archive brings everything back: if the provider takes the messages, undo
      succeeds and every message the batch deleted has been imported with its bytes and labels. */
  lemma LiveArchiveRestoresAll(env: Env, w: World, batch: nat, call: RestoreCall)
    requires CollisionFree(env.platform) && Inv(env, w)
    requires batch in w.rows && Live(w.rows[batch], w.now) && call.answered && forall i :: call.accepts(i)
    ensures var after := Undo(env, w, batch, true, call);
            && after.rows[batch].state == UNDONE
            && forall purge :: purge in w.purges && purge.batch == batch ==> ImportOf(purge.message) in after.imports
  {
    RestoreBringsBack(env.platform, w.objects[w.rows[batch].key.value], call.accepts);
    UndoKeepsInv(env, w, batch, true, call);
    forall purge | purge in w.purges && purge.batch == batch
      ensures ImportOf(purge.message) in Undo(env, w, batch, true, call).imports
    {
      assert PurgeAndRow(Undo(env, w, batch, true, call), purge, Undo(env, w, batch, true, call).rows[batch]);
    }
  }

  /** In every run, UNDONE is true: whatever that batch deleted has been imported again. */
  lemma UndoneMeansRestored(env: Env, now: nat, mailbox: map<string, Message>, steps: seq<Step>, purge: Purge)
    requires CollisionFree(env.platform)
    requires var w := Run(env, Start(now, mailbox), steps);
             purge in w.purges && purge.batch in w.rows && w.rows[purge.batch].state == UNDONE
    ensures ImportOf(purge.message) in Run(env, Start(now, mailbox), steps).imports
  {
    StartOk(env, now, mailbox);
    RunKeepsInv(env, Start(now, mailbox), steps);
    var w := Run(env, Start(now, mailbox), steps);
    assert PurgeAndRow(w, purge, w.rows[purge.batch]);
  }

  /** A restore that is incomplete or unanswered changes no row and no archive: it stays live. */
  lemma PartialRestoreKeepsArchive(env: Env, w: World, batch: nat, linked: bool, call: RestoreCall)
    requires batch in w.rows
    requires w.rows[batch].key.Some? && w.rows[batch].key.value in w.objects
    requires !call.answered || Restore(env.platform, w.objects[w.rows[batch].key.value], call.accepts).failed != []
    ensures var after := Undo(env, w, batch, linked, call);
            after.rows == w.rows && after.objects == w.objects
            && Live(after.rows[batch], after.now) == Live(w.rows[batch], w.now)
  {
  }

  /** One undo after the other. */
  function UndoAttempts(env: Env, w: World, batch: nat, calls: seq<RestoreCall>): World {
    if calls == [] then w
    else Undo(env, UndoAttempts(env, w, batch, calls[..|calls| - 1]), batch, true, calls[|calls| - 1])
  }

  lemma {:induction false} AttemptsKeepLive(env: Env, w: World, batch: nat, calls: seq<RestoreCall>)
    requires CollisionFree(env.platform) && Inv(env, w) && batch in w.rows && Live(w.rows[batch], w.now)
    requires forall call :: call in calls ==>
               !call.answered || Restore(env.platform, w.objects[w.rows[batch].key.value], call.accepts).failed != []
    ensures var after := UndoAttempts(env, w, batch, calls);
            && Inv(env, after) && after.now == w.now && after.rows == w.rows && after.objects == w.objects
            && after.purges == w.purges
  {
    if calls != [] {
      var n := |calls| - 1;
      assert forall call :: call in calls[..n] ==> call in calls;
      AttemptsKeepLive(env, w, batch, calls[..n]);
      var before := UndoAttempts(env, w, batch, calls[..n]);
      assert calls[n] in calls;
      PartialRestoreKeepsArchive(env, before, batch, true, calls[n]);
      UndoKeepsInv(env, before, batch, true, calls[n]);
    }
  }

  /** So undo can be tried again: after any attempts that fell short, one that the provider takes in full
      succeeds, and has imported every message the batch deleted. */
  lemma RestoreCanBeRetried(env: Env, w: World, batch: nat, calls: seq<RestoreCall>, last: RestoreCall)
    requires CollisionFree(env.platform) && Inv(env, w) && batch in w.rows && Live(w.rows[batch], w.now)
    requires forall call :: call in calls ==>
               !call.answered || Restore(env.platform, w.objects[w.rows[batch].key.value], call.accepts).failed != []
    requires last.answered && forall i :: last.accepts(i)
    ensures var after := Undo(env, UndoAttempts(env, w, batch, calls), batch, true, last);
            && batch in after.rows && after.rows[batch].state == UNDONE
            && forall purge :: purge in w.purges && purge.batch == batch ==> ImportOf(purge.message) in after.imports
  {
    AttemptsKeepLive(env, w, batch, calls);
    LiveArchiveRestoresAll(env, UndoAttempts(env, w, batch, calls), batch, last);
  }

  /** In every run, every id handed to a mailbox-changing call was, in the plan it came from, a message
      that is not starred, whose sender's domain is readable and on no list, and that was targeted. */
  lemma HandedIdsWerePlannedSafe(env: Env, now: nat, mailbox: map<string, Message>, steps: seq<Step>, h: Handed,
                                 id: string)
    requires CollisionFree(env.platform)
    requires h in Run(env, Start(now, mailbox), steps).handed && id in h.ids
    ensures exists row :: row in h.plan.safe && row.id == id && Unlisted(env.rules, row.sender, row.starred)
                          && Targeted(env.rules, h.plan.criteria, row)
  {
    StartOk(env, now, mailbox);
    RunKeepsInv(env, Start(now, mailbox), steps);
    assert HandedOk(env, h);
    var k :| 0 <= k < |h.plan.safe| && h.plan.safe[k].id == id;
    var row := h.plan.safe[k];
    assert row in h.plan.safe;
    ReasonMeans(env.rules, row.sender, row.starred);
  }

  /** One step hands over `ids` of the plan, or nothing, and deletes none but these; all of them are in
      both lists. */
  ghost predicate TouchesOnly(w: World, after: World, plan: Plan, ids: seq<string>, selected: seq<string>) {
    && HandedOnce(w, after, plan, ids)
    && (forall id :: id in after.mailbox ==> id in w.mailbox && after.mailbox[id] == w.mailbox[id])
    && (forall id :: id in w.mailbox && id !in after.mailbox ==> id in ids)
    && (forall id :: id in ids ==> id in selected && id in Ids(plan.safe))
  }

  /** Direct execution, whatever its mode, hands over once at most, and what it hands over and deletes
      are ids that the client selected and that are safe in the plan made afresh from what was fetched;
      selecting nothing hands over nothing and leaves the mailbox as it is. */
  lemma ExecutionTouchesOnlySelected(env: Env, w: World, fetched: seq<Summary>, c: Criteria, selected: seq<string>,
                                     mode: Mode, vault: bool, e: Engine)
    ensures var after, plan := Execute(env, w, fetched, c, selected, mode, vault, e), PlanOf(env.rules, c, fetched);
            && TouchesOnly(w, after, plan, Requested(plan, selected), selected)
            && (selected == [] ==> after.mailbox == w.mailbox && Requested(plan, selected) == [])
  {
    var plan := PlanOf(env.rules, c, fetched);
    RequestedIsSelectedAndSafe(plan, selected);
    if !mode.ArchiveMode? {
      FreshTouchesOnly(env, w, plan, Requested(plan, selected), mode, vault, e);
    }
  }

  lemma FreshTouchesOnly(env: Env, w: World, plan: Plan, ids: seq<string>, mode: Mode, vault: bool, e: Engine)
    ensures var after := ExecuteFresh(env, w, plan, ids, mode, vault, e);
            && HandedOnce(w, after, plan, ids)
            && (forall id :: id in after.mailbox ==> id in w.mailbox && after.mailbox[id] == w.mailbox[id])
            && (forall id :: id in w.mailbox && id !in after.mailbox ==> id in ids)
            && (ids == [] ==> after.mailbox == w.mailbox)
  {
    GoneWereGiven(env, w.(nextId := w.nextId + 1), w.nextId, plan, ids, mode, e);
  }

  lemma GoneWereGiven(env: Env, w: World, batch: nat, plan: Plan, ids: seq<string>, mode: Mode, e: Engine)
    ensures var after := Apply(env, w, batch, plan, ids, mode, e).0;
            && HandedOnce(w, after, plan, ids)
            && (forall id :: id in after.mailbox ==> id in w.mailbox && after.mailbox[id] == w.mailbox[id])
            && (forall id :: id in w.mailbox && id !in after.mailbox ==> id in ids)
            && (ids == [] ==> after.mailbox == w.mailbox)
  {
    if ids == [] && Purging(mode) && ArchiveConfirmed(env, w, ids, e) {
      assert e.apply.removed * Set(ids) * w.mailbox.Keys == {};
    }
  }

  /** A batch row points to the archive behind this deletion and can still be undone. */
  predicate Undoable(w: World, purge: Purge) {
    purge.batch in w.rows && w.rows[purge.batch].key == Some(purge.key) && Live(w.rows[purge.batch], w.now)
  }

  /** A deletion can be undone afterwards exactly when the engine's answer to it came back: with no
      answer the archive exists and verified, but no batch row was written. */
  lemma UndoableIffConfirmed(env: Env, w: World, fetched: seq<Summary>, c: Criteria, selected: seq<string>,
                             mode: Mode, vault: bool, e: Engine, purge: Purge)
    requires w.nextId !in w.rows
    requires purge in Execute(env, w, fetched, c, selected, mode, vault, e).purges - w.purges
    ensures var after := Execute(env, w, fetched, c, selected, mode, vault, e);
            Kept(env, after, purge) && UndoableOnlyIf(w, after, purge, e.apply.count.Some?)
  {
    if !mode.ArchiveMode? {
      var plan := PlanOf(env.rules, c, fetched);
      FreshUndoable(env, w, plan, Requested(plan, selected), mode, vault, e, purge);
    }
  }

  lemma FreshUndoable(env: Env, w: World, plan: Plan, ids: seq<string>, mode: Mode, vault: bool, e: Engine,
                      purge: Purge)
    requires w.nextId !in w.rows
    requires purge in ExecuteFresh(env, w, plan, ids, mode, vault, e).purges - w.purges
    ensures var after := ExecuteFresh(env, w, plan, ids, mode, vault, e);
            Kept(env, after, purge) && UndoableOnlyIf(w, after, purge, e.apply.count.Some?)
  {
    var begun := w.(nextId := w.nextId + 1);
    var (applied, count) := Apply(env, begun, w.nextId, plan, ids, mode, e);
    NewPurge(env, begun, w.nextId, plan, ids, mode, e, purge);
    ApplyFrame(env, begun, w.nextId, plan, ids, mode, e);
    RecordingDecides(env, w, applied, count, Completed(w.now, w.nextId, mode, plan, vault), purge);
  }

  /** The archive of a deletion is still stored, and verified. */
  ghost predicate Kept(env: Env, after: World, purge: Purge) {
    && purge.key in after.objects && after.objects[purge.key] == purge.archive
    && Verified(env.platform, purge.archive)
  }

  ghost predicate UndoableOnlyIf(w: World, after: World, purge: Purge, confirmed: bool) {
    && (Undoable(after, purge) <==> confirmed)
    && (!confirmed ==> after.rows == w.rows && purge.batch !in w.rows)
  }

  /** A row leads to the archive exactly when one was written. */
  lemma RecordingDecides(env: Env, w: World, applied: World, count: Option<int>, row: Batch, purge: Purge)
    requires purge.batch !in w.rows && applied.rows == w.rows && applied.now == w.now && Kept(env, applied, purge)
    requires row.key == Some(purge.key) && Live(row, w.now)
    ensures var after := Recorded(applied, count, purge.batch, row);
            Kept(env, after, purge) && UndoableOnlyIf(w, after, purge, count.Some?)
  {
  }

  lemma NewPurge(env: Env, w: World, batch: nat, plan: Plan, ids: seq<string>, mode: Mode, e: Engine, purge: Purge)
    requires purge in Apply(env, w, batch, plan, ids, mode, e).0.purges - w.purges
    ensures var (after, count) := Apply(env, w, batch, plan, ids, mode, e);
            && Purging(mode) && count == e.apply.count
            && purge.batch == batch && purge.key == Key(batch, w.now)
            && purge.key in after.objects && after.objects[purge.key] == purge.archive
            && Verified(env.platform, purge.archive)
  {
  }

  /** The same for an approved batch; without the answer its row ends as FAILED. */
  lemma ApprovedUndoableIffConfirmed(env: Env, w: World, batch: nat, vault: bool, e: Engine, purge: Purge)
    requires batch in w.rows ==> w.rows[batch].key.None? || w.rows[batch].state != PENDING
    requires purge in Approve(env, w, batch, vault, true, e).purges - w.purges
    ensures var after := Approve(env, w, batch, vault, true, e);
            && Kept(env, after, purge)
            && (Undoable(after, purge) <==> e.apply.count.Some?)
            && (e.apply.count.None? ==> batch in after.rows && after.rows[batch].state == FAILED)
  {
    var row := w.rows[batch];
    NewPurge(env, w, batch, row.plan, Ids(row.plan.safe), row.mode, e, purge);
    ApplyFrame(env, w, batch, row.plan, Ids(row.plan.safe), row.mode, e);
  }

  /** Approval acts on pending batches only … */
  lemma ApproveActsOnPendingOnly(env: Env, w: World, batch: nat, vault: bool, linked: bool, e: Engine)
    ensures Approve(env, w, batch, vault, linked, e) != w ==> batch in w.rows && w.rows[batch].state == PENDING
    ensures batch in w.rows && w.rows[batch].state == PENDING && linked ==>
              Approve(env, w, batch, vault, linked, e).rows[batch].state in {COMPLETED, FAILED}
  {
  }

  /** … so a batch that failed stays failed in every run, whatever is approved or undone later: it has
      no retry. */
  lemma {:induction false} FailedStaysFailed(env: Env, w: World, steps: seq<Step>, batch: nat)
    requires CollisionFree(env.platform) && Inv(env, w) && batch in w.rows && w.rows[batch].state == FAILED
    ensures batch in Run(env, w, steps).rows && Run(env, w, steps).rows[batch].state == FAILED
  {
    if steps != [] {
      var n := |steps| - 1;
      FailedStaysFailed(env, w, steps[..n], batch);
      RunKeepsInv(env, w, steps[..n]);
      var before := Run(env, w, steps[..n]);
      LifeCycle(env, before, steps[n]);
      assert Moved(env, before, steps[n], before.rows[batch], Next(env, before, steps[n]).rows[batch]);
    }
  }
}
