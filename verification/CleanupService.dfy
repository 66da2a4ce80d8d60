/** The cleanup service's handlers, working step by step on its store. Each is one transaction of
    the state machine in CleanupBatches, whatever the engine calls in it do. */
module CleanupService {
  import opened Text
  import opened MailArchive
  import opened CleanupPlan
  import opened CleanupBatches

  datatype Status = Done(count: int) | Threw | Rejected | Incomplete(failed: nat)

  class Service {
    const env: Env
    var now: nat
    var mailbox: map<string, Message>
    var objects: map<Key, Archive>
    var rows: map<nat, Batch>
    var nextId: nat
    ghost var purges: set<Purge>
    ghost var handed: seq<Handed>
    ghost var imports: seq<Import>

    ghost function State(): World
      reads this
    {
      World(now, mailbox, objects, rows, nextId, purges, handed, imports)
    }

    constructor (env: Env, now: nat, mailbox: map<string, Message>)
      ensures this.env == env && State() == Start(now, mailbox) && Inv(env, State())
    {
      this.env, this.now, this.mailbox := env, now, mailbox;
      objects, rows, nextId := map[], map[], 0;
      purges, handed, imports := {}, [], [];
    }

    /** Write the archive, then have it verified. None: an exception. */
    method CreateVerifiedArchive(batch: nat, ids: seq<string>, e: Engine) returns (ref: Option<Key>)
      modifies this`objects
      ensures State() == Stored(env, old(State()), Key(batch, now), ids, e.create)
      ensures ref == if ArchiveConfirmed(env, old(State()), ids, e) then Some(Key(batch, now)) else None
    {
      var key := Key(batch, now);
      var archive, _ := CreateArchive(env.platform, mailbox, ids);
      if archive.None? { return None; }
      if e.create.stored {
        objects := objects[key := archive.value];
      }
      if !e.create.stored || !e.create.answered { return None; }
      if !e.verify.answered || !e.verify.downloaded { return None; }
      var success, _ := VerifyArchive(env.platform, objects[key]);
      return if success then Some(key) else None;
    }

    /** Run a batch's verb. None: an exception, because the verb is unsupported, the archive was
        not confirmed, or the provider's answer did not come back. */
    method RunVerb(batch: nat, plan: Plan, ids: seq<string>, mode: Mode, e: Engine) returns (count: Option<int>)
      modifies this`mailbox, this`objects, this`purges, this`handed
      ensures (State(), count) == Apply(env, old(State()), batch, plan, ids, mode, e)
    {
      match mode {
        case Unsupported(_) => return None;
        case Trash =>
          handed := handed + [Handed(plan, ids, BatchTrash)];
          return e.apply.count;
        case ArchiveMode =>
          handed := handed + [Handed(plan, ids, BatchArchive)];
          return e.apply.count;
        case Delete | ArchivePurge =>
          var ref := CreateVerifiedArchive(batch, ids, e);
          if ref.None? { return None; }
          var gone := e.apply.removed * Set(ids) * mailbox.Keys;
          purges := purges + Purged(State(), batch, ref.value, gone, objects[ref.value]);
          mailbox := mailbox - gone;
          handed := handed + [Handed(plan, ids, BatchDelete)];
          return e.apply.count;
      }
    }

    /** Run the verb under a fresh batch id and record the batch once the engine has confirmed it. */
    method RunAndRecord(batch: nat, plan: Plan, ids: seq<string>, mode: Mode, vault: bool, e: Engine)
      returns (status: Status)
      modifies this`mailbox, this`objects, this`purges, this`handed, this`rows
      ensures State() == ExecuteBatch(env, old(State()), batch, plan, ids, mode, vault, e)
      ensures status.Done? ==> batch in rows && rows[batch].state == COMPLETED
      ensures !status.Done? ==> rows == old(rows)
    {
      var count := RunVerb(batch, plan, ids, mode, e);
      if count.None? { return Threw; }
      rows := rows[batch := Batch(COMPLETED, mode, plan, if Purging(mode) then Some(Key(batch, now)) else None,
                                  if vault then None else Some(now + WEEK), vault, None)];
      return Done(count.value);
    }

    method ExecuteCleanup(fetched: seq<Summary>, c: Criteria, selected: seq<string>, mode: Mode, vault: bool, e: Engine)
      returns (status: Status)
      requires CollisionFree(env.platform)
      modifies this
      ensures State() == Execute(env, old(State()), fetched, c, selected, mode, vault, e)
      ensures old(Inv(env, State())) ==> Inv(env, State())
      ensures status.Done? ==> old(nextId) in rows && rows[old(nextId)].state == COMPLETED
      ensures !status.Done? ==> rows == old(rows)
    {
      ghost var before := State();
      if Inv(env, State()) { ExecuteKeepsInv(env, State(), fetched, c, selected, mode, vault, e); }
      if mode.ArchiveMode? { return Threw; }
      var plan := PlanOf(env.rules, c, fetched);
      var requested := Requested(plan, selected);
      var batch := nextId;
      nextId := nextId + 1;
      assert State() == before.(nextId := before.nextId + 1);
      assert Execute(env, before, fetched, c, selected, mode, vault, e)
          == ExecuteFresh(env, before, plan, requested, mode, vault, e);
      status := RunAndRecord(batch, plan, requested, mode, vault, e);
    }

    /** Archive, without deleting, everything a fresh plan finds safe. */
    method OrganizeMailbox(fetched: seq<Summary>, c: Criteria, e: Engine) returns (status: Status)
      modifies this`handed, this`rows, this`nextId
      ensures State() == Organize(env, old(State()), fetched, c, e)
      ensures old(Inv(env, State())) ==> Inv(env, State())
      ensures status.Done? ==> old(nextId) in rows && rows[old(nextId)].state == COMPLETED
      ensures !status.Done? ==> rows == old(rows)
    {
      if Inv(env, State()) { OrganizeKeepsInv(env, State(), fetched, c, e); }
      var plan := PlanOf(env.rules, c, fetched);
      handed := handed + [Handed(plan, Ids(plan.safe), BatchArchive)];
      if e.apply.count.None? { return Threw; }
      rows := rows[nextId := Batch(COMPLETED, ArchiveMode, plan, None, None, false, None)];
      nextId := nextId + 1;
      return Done(e.apply.count.value);
    }

    /** Stage a batch for approval. None: the action is to unsubscribe, and nothing is staged. */
    method StageCleanupRequest(fetched: seq<Summary>, c: Criteria, mode: Mode, unsubscribe: bool)
      returns (batch: Option<nat>)
      modifies this`rows, this`nextId
      ensures State() == Stage(env, old(State()), fetched, c, mode, unsubscribe)
      ensures old(Inv(env, State())) ==> Inv(env, State())
      ensures batch.None? <==> unsubscribe
      ensures batch.None? ==> State() == old(State())
      ensures batch.Some? ==> batch.value in rows && rows[batch.value].state == PENDING
                              && rows - {batch.value} == old(rows) - {batch.value}
      ensures batch.Some? && old(Inv(env, State())) ==> batch.value !in old(rows)
    {
      if Inv(env, State()) { StageKeepsInv(env, State(), fetched, c, mode, unsubscribe); }
      var plan := PlanOf(env.rules, c, fetched);
      if unsubscribe { return None; }
      batch := Some(nextId);
      rows := rows[nextId := Batch(PENDING, mode, plan, None, None, false, None)];
      nextId := nextId + 1;
    }

    /** Approve a staged batch: run it, and record COMPLETED or FAILED. */
    method ApproveCleanupBatch(batch: nat, vault: bool, linked: bool, e: Engine) returns (status: Status)
      requires CollisionFree(env.platform)
      modifies this
      ensures State() == Approve(env, old(State()), batch, vault, linked, e)
      ensures old(Inv(env, State())) ==> Inv(env, State())
    {
      if Inv(env, State()) { ApproveKeepsInv(env, State(), batch, vault, linked, e); }
      if batch !in rows || rows[batch].state != PENDING { return Rejected; }
      if !linked { return Threw; }
      var row := rows[batch];
      var count := RunVerb(batch, row.plan, Ids(row.plan.safe), row.mode, e);
      if count.None? {
        rows := rows[batch := row.(state := FAILED)];
        return Threw;
      }
      if Purging(row.mode) {
        rows := rows[batch := row.(state := COMPLETED, key := Some(Key(batch, now)), retained := vault,
                                   expiresAt := if vault then None else Some(now + WEEK), restoredAt := None)];
      } else {
        rows := rows[batch := row.(state := COMPLETED)];
      }
      return Done(count.value);
    }

    /** Undo a batch from its live archive; an incomplete restore leaves everything as it was. */
    method UndoBatch(batch: nat, linked: bool, call: RestoreCall) returns (status: Status)
      modifies this`rows, this`imports
      ensures State() == Undo(env, old(State()), batch, linked, call)
      ensures old(Inv(env, State())) ==> Inv(env, State())
      ensures status.Done? ==> batch in rows && rows[batch].state == UNDONE
      ensures !status.Done? ==> rows == old(rows)
    {
      if Inv(env, State()) { UndoKeepsInv(env, State(), batch, linked, call); }
      if batch !in rows || !Live(rows[batch], now) { return Rejected; }
      if !linked { return Threw; }
      var row := rows[batch];
      if row.key.value !in objects { return Threw; }
      var archive := objects[row.key.value];
      if !call.answered {
        ghost var n := if call.reached <= |archive.entries| then call.reached else |archive.entries|;
        imports := imports + RestoreEntries(env.platform, archive, call.accepts, n).imports;
        return Threw;
      }
      var imported, restored, failed := RestoreArchive(env.platform, archive, call.accepts);
      imports := imports + imported;
      if |failed| > 0 { return Incomplete(|failed|); }
      rows := rows[batch := row.(state := UNDONE, restoredAt := Some(now))];
      return Done(restored);
    }

    /** The nightly sweep over the rows its query found; a failed deletion skips to the next row. */
    method SweepExpiredArchives(due: seq<(nat, DeleteObjectCall)>)
      modifies this`rows, this`objects
      ensures State() == Sweep(old(State()), due)
      ensures old(Inv(env, State())) ==> Inv(env, State())
    {
      ghost var before := State();
      if Inv(env, before) { SweepKeepsInv(env, before, due); }
      for i := 0 to |due|
        invariant State() == Sweep(before, due[..i])
      {
        assert due[..i + 1][..i] == due[..i];
        var (batch, call) := due[i];
        if batch !in rows || !Due(rows[batch], now) { continue; }
        var row := rows[batch];
        if call.removed || call.answered {
          objects := objects - {row.key.value};
        }
        if call.answered {
          rows := rows[batch := row.(key := None, expiresAt := None)];
        }
      }
      assert due[..|due|] == due;
    }
  }
}
