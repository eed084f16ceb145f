/** A push: the client's per-file uploads into the server's prepared store, and the server's commit. */
module Push {
  import opened Wrappers
  import opened Paths
  import opened Policy
  import opened Manifest
  import opened Sync
  import opened Publish
  import opened Schedule
  import opened Engine
  import opened Planner
  import opened Pull
  import Plans = PlanStore

  datatype UploadResult = Uploaded | UploadFailed(error: SyncError, remoteMaybeChanged: bool)

  ghost predicate RemoteUnchanged(now: Side, was: Side) { now.files == was.files && now.staging == was.staging }

  /** How an upload goes: the local file cannot be opened, the peer refuses the request, or takes it. */
  datatype Sending = Unreadable(error: SyncError) | Rejected(error: SyncError) | Sent(confirmed: bool)

  /**
   One task of `spawn_upload_task`. Once the request is sent, every failure counts as a possible
   remote change; a sent file is confirmed if the answer arrives and the local file ended where it was
   planned to. Where the store may have its temporary file open for another upload, the write can
   fail without a fault, its bytes gone into files that have `arrived`; and once an upload has
   failed, the file this one renames can be a mixture.
   */
  method UploadTask(remote: Workspace, entry: Entry, local: Replica, sending: Sending, rivals: set<Path>,
                    arrived: set<Path>, late: bool)
    returns (outcome: TaskOutcome)
    requires remote.transfer.Fresh() && ServesOne(local, entry) && rivals <= local.Keys
    requires remote.transfer.disk.reliable ==> sending == Sent(true)
    modifies remote`files, remote`dirs
    modifies remote.transfer.disk`staging, remote.transfer.disk`trace, remote.transfer.disk`faulted
    ensures remote.transfer.Fresh()
    ensures NoFalseFault(old(remote.transfer.disk.faulted), remote.transfer.disk.faulted, remote.transfer.disk.reliable)
    ensures sending.Unreadable? ==> outcome == TaskFailed(sending.error, false)
    ensures sending.Rejected? ==> outcome == TaskFailed(sending.error, true)
    ensures !sending.Sent? ==> remote.Now() == old(remote.Now())
    ensures outcome.Done? ==> sending == Sent(true)
    ensures outcome.TaskFailed? ==> (outcome.targetChanged <==> !sending.Unreadable?)
    ensures !outcome.Done? ==> remote.transfer.disk.faulted || Blocked(old(remote.Now()), entry.path) || rivals != {}
    ensures outcome.Done? ==> !Blocked(old(remote.Now()), entry.path)
    ensures outcome.Done? && (rivals == {} || !late) ==>
      WrittenBy(remote.Now(), old(remote.Now()), entry.path, local[entry.path])
    ensures Meddles(remote.files, old(remote.files), local, entry.path, rivals)
  {
    var crashed := remote.transfer.disk.Fails();
    var clash: bool := *;
    remote.transfer.disk.Blame(sending != Sent(true));
    if sending.Unreadable? {
      return TaskFailed(sending.error, false);
    }
    if sending.Rejected? {
      return TaskFailed(sending.error, true);
    }
    if rivals != {} && clash {
      remote.Spoil(rivals * arrived);
      return if crashed then Panicked else TaskFailed(Io, true);
    }
    var written := Receive(remote, entry, local, rivals, late);
    if crashed {
      return Panicked;
    }
    if written.WriteFailed? {
      return TaskFailed(written.error, true);
    }
    if !sending.confirmed {
      return TaskFailed(Io, true);
    }
    return Done;
  }

  /** Uploads under way: the remote is as it was unless a task finished, crashed or may have changed it. */
  ghost predicate Uploading(b: Book, local: Replica, now: Side, start: Side, faulted: bool, note: Note) {
    match b
    case Book(transfer, limit, _, _, failed, _, _, log) =>
      && Underway(b, local, now, start, faulted)
      && (!Touched(log) ==> RemoteUnchanged(now, start))
      && Left(now.files, start.files, local, transfer, limit)
      && NotedError(log, note.firstError) && note.changed == Touched(log) && failed == note.firstError.Some?
  }

  lemma UploadingStart(b: Book, local: Replica, now: Side, start: Side, faulted: bool, note: Note)
    requires Uploading(b, local, now, start, faulted, note)
    requires !b.failed && b.started < |b.transfer| && |b.inFlight| < b.limit
    ensures Uploading(Begun(b), local, now, start, faulted, note)
  {
    UnderwayStart(b, local, now, start, faulted);
    NotedStart(b.log, b.started, note.firstError);
  }

  /** An upload counts as a change unless it failed before its request was sent. */
  predicate CountsAsChange(outcome: TaskOutcome) { outcome.TaskFailed? ==> outcome.targetChanged }

  lemma UploadingTurn(b: Book, k: nat, outcome: TaskOutcome, local: Replica, now: Side, was: Side, start: Side,
                      faulted: bool, before: bool, note: Note)
    requires Uploading(b, local, was, start, before, note) && (before ==> faulted)
    requires Waiting(b) && k < |b.inFlight| && b.inFlight[k] < |b.transfer|
    requires AllValid(b.transfer) && Serves(local, b.transfer)
    requires
      var entry, rivals := b.transfer[b.inFlight[k]], RivalsOf(b.transfer, b.inFlight[k], b.limit);
      && TaskDid(local, entry, rivals, b.failed, outcome, now, was, faulted)
      && Meddles(now.files, was.files, local, entry.path, rivals)
    requires CountsAsChange(outcome) || RemoteUnchanged(now, was)
    ensures Uploading(Collected(b, k, outcome), local, now, start, faulted,
                      Noting(note, outcome, CountsAsChange(outcome)))
  {
    UnderwayTurn(b, k, outcome, local, now, was, start, faulted, before);
    Signs(b.log, Finish(b.inFlight[k], outcome));
    LeftStep(now.files, was.files, start.files, local, b.transfer, b.limit, b.inFlight[k]);
    NotedFinish(b.log, b.inFlight[k], outcome, note.firstError);
  }

  /** Run the upload at position `k` in flight to its end, however it goes. */
  method RunTask(remote: Workspace, transfer: seq<Entry>, i: nat, limit: nat, local: Replica, arrived: set<Path>,
                 late: bool, ghost b: Book, ghost k: nat, ghost note: Note, ghost start: Side)
    returns (outcome: TaskOutcome)
    requires b.transfer == transfer && b.limit == limit && k < |b.inFlight| && b.inFlight[k] == i < |transfer|
    requires b.failed == late && Serves(local, transfer) && AllValid(transfer) && Waiting(b) && remote.transfer.Fresh()
    requires Uploading(b, local, remote.Now(), start, remote.transfer.disk.faulted, note)
    modifies remote`files, remote`dirs
    modifies remote.transfer.disk`staging, remote.transfer.disk`trace, remote.transfer.disk`faulted
    ensures remote.transfer.Fresh()
    ensures NoFalseFault(old(remote.transfer.disk.faulted), remote.transfer.disk.faulted, remote.transfer.disk.reliable)
    ensures Uploading(Collected(b, k, outcome), local, remote.Now(), start, remote.transfer.disk.faulted,
                      Noting(note, outcome, CountsAsChange(outcome)))
  {
    assert ServesOne(local, transfer[i]);
    RivalsServed(local, transfer, i, limit);
    var sending: Sending :| remote.transfer.disk.reliable ==> sending == Sent(true);
    ghost var was, before := remote.Now(), remote.transfer.disk.faulted;
    outcome := UploadTask(remote, transfer[i], local, sending, RivalsOf(transfer, i, limit), arrived, late);
    UploadingTurn(b, k, outcome, local, remote.Now(), was, start, remote.transfer.disk.faulted, before, note);
  }

  /** Wait for any one upload in flight, run it to its end, collect it and note how it ended. */
  method JoinNext(remote: Workspace, tasks: JoinSet, local: Replica, note: Note, ghost start: Side)
    returns (note': Note)
    requires |tasks.inFlight| > 0 && Serves(local, tasks.transfer) && AllValid(tasks.transfer)
    requires remote.transfer.Fresh() && Waiting(tasks.Books())
    requires Uploading(tasks.Books(), local, remote.Now(), start, remote.transfer.disk.faulted, note)
    modifies remote`files, remote`dirs, tasks
    modifies remote.transfer.disk`staging, remote.transfer.disk`trace, remote.transfer.disk`faulted
    ensures remote.transfer.Fresh()
    ensures NoFalseFault(old(remote.transfer.disk.faulted), remote.transfer.disk.faulted, remote.transfer.disk.reliable)
    ensures Uploading(tasks.Books(), local, remote.Now(), start, remote.transfer.disk.faulted, note')
    ensures tasks.started == old(tasks.started) && |tasks.inFlight| == old(|tasks.inFlight|) - 1
    ensures tasks.failed == note'.firstError.Some? && (old(tasks.failed) ==> tasks.failed)
  {
    var k: nat :| k < |tasks.inFlight|;
    InFlightStarted(tasks.Books());
    var arrived := Received(tasks.transfer, tasks.started, tasks.inFlight);
    var outcome := RunTask(remote, tasks.transfer, tasks.inFlight[k], tasks.limit, local, arrived, tasks.failed,
                           tasks.Books(), k, note, start);
    tasks.Collect(k, outcome);
    note' := Noting(note, outcome, CountsAsChange(outcome));
  }

  /** Start the next entry while nothing has failed and there is one. */
  method Refill(tasks: JoinSet, note: Note, ghost local: Replica, ghost now: Side, ghost start: Side,
                ghost faulted: bool)
    requires Uploading(tasks.Books(), local, now, start, faulted, note) && |tasks.inFlight| < tasks.limit
    modifies tasks
    ensures Uploading(tasks.Books(), local, now, start, faulted, note)
    ensures if note.firstError.Some? || old(tasks.started) == |tasks.transfer|
            then tasks.started == old(tasks.started) && tasks.inFlight == old(tasks.inFlight)
            else tasks.started == old(tasks.started) + 1 && |tasks.inFlight| == old(|tasks.inFlight|) + 1
    ensures tasks.failed == note.firstError.Some? && tasks.started <= |tasks.transfer|
  {
    if note.firstError.None? && tasks.started < |tasks.transfer| {
      UploadingStart(tasks.Books(), local, now, start, faulted, note);
      tasks.SpawnNext();
    }
  }

  /** One turn of the loop: collect an upload, then start the next entry if nothing has failed. */
  method Turn(remote: Workspace, tasks: JoinSet, local: Replica, note: Note, ghost start: Side) returns (note': Note)
    requires |tasks.inFlight| > 0 && Serves(local, tasks.transfer) && AllValid(tasks.transfer)
    requires remote.transfer.Fresh() && Waiting(tasks.Books())
    requires Uploading(tasks.Books(), local, remote.Now(), start, remote.transfer.disk.faulted, note)
    modifies remote`files, remote`dirs, tasks
    modifies remote.transfer.disk`staging, remote.transfer.disk`trace, remote.transfer.disk`faulted
    ensures remote.transfer.Fresh()
    ensures NoFalseFault(old(remote.transfer.disk.faulted), remote.transfer.disk.faulted, remote.transfer.disk.reliable)
    ensures Uploading(tasks.Books(), local, remote.Now(), start, remote.transfer.disk.faulted, note')
    ensures Waiting(tasks.Books()) && tasks.Left() < old(tasks.Left())
  {
    InFlightStarted(tasks.Books());
    note' := JoinNext(remote, tasks, local, note, start);
    ghost var now := remote.Now();
    Refill(tasks, note', local, now, start, remote.transfer.disk.faulted);
    assert remote.Now() == now;
  }

  /**
   `upload_files`: the log is a schedule that ends with nothing in flight; success means every
   entry arrived; without faults it fails only if a planned path is blocked or tasks share a
   temporary file; a failure is the first failed task's, and flags the remote exactly if some task
   finished, crashed or failed after its request was sent; without a flag the remote is as it was.
   */
  method UploadFiles(remote: Workspace, transfer: seq<Entry>, local: Replica, fileConcurrency: nat)
    returns (r: UploadResult, filesDone: nat, bytesDone: nat, ghost log: seq<Event>)
    requires fileConcurrency > 0 && Serves(local, transfer) && AllValid(transfer) && remote.transfer.Fresh()
    modifies remote`files, remote`dirs
    modifies remote.transfer.disk`staging, remote.transfer.disk`trace, remote.transfer.disk`faulted
    ensures remote.transfer.Fresh()
    ensures NoFalseFault(old(remote.transfer.disk.faulted), remote.transfer.disk.faulted, remote.transfer.disk.reliable)
    ensures IsSchedule(log, |transfer|, fileConcurrency) && Open(log) == {}
    ensures r.Uploaded? <==> !Failed(log)
    ensures r.Uploaded? ==> Started(log) == |transfer| && filesDone == |transfer| && bytesDone == SumSizes(transfer)
    ensures r.Uploaded? ==> Landed(PathSet(transfer), local, remote.Now(), old(remote.Now()))
    ensures r.Uploaded? ==> Smooth(PathSet(transfer), old(remote.Now()))
    ensures r.UploadFailed? ==> FirstErrorIs(log, r.error) && r.remoteMaybeChanged == Touched(log)
    ensures r.UploadFailed? ==>
      || remote.transfer.disk.faulted || !Smooth(PathSet(transfer), old(remote.Now()))
      || Crowded(transfer, fileConcurrency)
    ensures Left(remote.files, old(remote.files), local, transfer, fileConcurrency)
    ensures r.UploadFailed? && !r.remoteMaybeChanged ==> RemoteUnchanged(remote.Now(), old(remote.Now()))
    ensures transfer == [] ==> r.Uploaded?
  {
    ghost var start := remote.Now();
    var tasks := new JoinSet(transfer, fileConcurrency);
    SpawnFirst(tasks, local, start, remote.transfer.disk.faulted);
    var note := Note(None, false);
    while |tasks.inFlight| > 0
      invariant fresh(tasks) && remote.transfer.Fresh()
      invariant Waiting(tasks.Books())
      invariant NoFalseFault(old(remote.transfer.disk.faulted), remote.transfer.disk.faulted,
                             remote.transfer.disk.reliable)
      invariant Uploading(tasks.Books(), local, remote.Now(), start, remote.transfer.disk.faulted, note)
      decreases tasks.Left()
    {
      note := Turn(remote, tasks, local, note, start);
    }
    UnderwayEnds(tasks.Books(), local, remote.Now(), start, remote.transfer.disk.faulted);
    log, filesDone, bytesDone := tasks.log, tasks.filesDone, tasks.bytesDone;
    if transfer == [] { NothingStarted(log, fileConcurrency); }
    r := match note.firstError case None => Uploaded case Some(error) => UploadFailed(error, note.changed);
  }

  /** The delete loop of the commit handler. */
  method DeletePlanned(store: Workspace, delete: seq<Path>) returns (r: Result<()>)
    requires TableShaped(store.table)
    modifies store`files, store`dirs, store.transfer.disk`faulted
    ensures NoFalseFault(old(store.transfer.disk.faulted), store.transfer.disk.faulted, store.transfer.disk.reliable)
    ensures r.Ok? ==> Deleted(store.files, old(store.files), delete)
    ensures r.Ok? ==> AllRemovable(store.table, delete)
    ensures r.Err? ==>
      store.transfer.disk.faulted || !Erasable(store.table, old(store.files), old(store.dirs), delete)
    ensures Thinned(store.files, old(store.files), delete)
    ensures delete == [] ==> r.Ok? && store.files == old(store.files)
  {
    for i := 0 to |delete|
      invariant Deleted(store.files, old(store.files), delete[..i]) && store.dirs <= old(store.dirs)
      invariant AllRemovable(store.table, delete[..i])
      invariant i == 0 ==> store.files == old(store.files)
      invariant NoFalseFault(old(store.transfer.disk.faulted), store.transfer.disk.faulted,
                             store.transfer.disk.reliable)
    {
      assert delete[..i + 1] == delete[..i] + [delete[i]] && delete[i] in delete;
      ghost var was, dirs := store.files, store.dirs;
      DeletedShrinks(was, old(store.files), delete[..i]);
      var outcome := store.DeleteFile(delete[i]);
      if outcome.WriteFailed? {
        if Erases(store.table, old(store.files), old(store.dirs), delete[i]) {
          ErasesWithLess(store.table, was, dirs, old(store.files), old(store.dirs), delete[i]);
        }
        StoppedThinned(store.files, was, old(store.files), delete, i);
        return Err(outcome.error);
      }
      DeletedStep(store.files, was, old(store.files), delete[..i], delete[i]);
    }
    assert delete[..|delete|] == delete;
    DeletedShrinks(store.files, old(store.files), delete);
    return Ok(());
  }

  /** The publishing of a push. */
  method PublishPushed(store: Workspace, ghost plan: Plan, ghost mode: SyncMode, ghost local: Replica,
                       ghost half: Halfway)
    returns (r: Result<()>)
    requires store.transfer.Fresh() && GroupsOf(store.transfer.groups, plan.transfer, plan.delete)
    requires ReadyToPublish(plan, mode, local, half, store.files) && store.transfer.disk.staging == half.landed.staging
    modifies store.transfer`applied, store.transfer`rollbackFailed, store.transfer.disk
    ensures r.Ok? ==>
      ShowsPulled(store.files, store.transfer.disk.root, half.start.files, old(store.transfer.disk.root),
                  local, plan, mode, store.transfer.disk.misread)
    ensures NamespacesLeft(store.transfer.disk.root, old(store.transfer.disk.root), local, plan,
                           store.transfer.rollbackFailed)
    ensures store.transfer.rollbackFailed ==>
      TwiceRefused(old(store.transfer.disk.refused), store.transfer.disk.refused)
    ensures NoFalseFault(old(store.transfer.disk.faulted), store.transfer.disk.faulted, store.transfer.disk.reliable)
    ensures (r.Err? ==> store.transfer.disk.faulted) && store.transfer.SlipsAreFaults()
    ensures plan.transfer == [] && plan.delete == [] ==>
      forall n :: At(store.transfer.disk.root, n) == old(At(store.transfer.disk.root, n))
  {
    var disk := store.transfer.disk;
    ghost var from, groups := disk.Now(), store.transfer.groups;
    GroupsAreHomogeneous(groups, plan);
    ghost var order, k;
    r, order, k := store.transfer.Commit();
    StoppedLeaves(groups, plan, order, k, from, disk.Now(), disk.misread, store.transfer.rollbackFailed, local, half);
    assert plan.transfer == [] && plan.delete == [] ==> groups == map[];
    if r.Ok? {
      ProgressIsCommitted(groups, plan, order, from, disk.Now(), disk.misread);
      CommittedShows(groups, plan, mode, from, disk.Now(), disk.misread, local, half, store.files);
    } else {
      assert order[k] in order;
      LandedIsReady(plan.transfer, local, half.landed, half.start, order[k]);
    }
  }

  /**
   The server's commit once the record is taken: deletes in mirror mode, then the publishing.
   Success shows every path as planned; it fails only by a fault or a delete the store refuses;
   finished or not, it only takes planned deletes away and leaves each namespace whole.
   */
  method CommitPlan(store: Workspace, delete: seq<Path>, mode: SyncMode, ghost plan: Plan, ghost local: Replica,
                    ghost half: Halfway)
    returns (r: Result<()>)
    requires delete == plan.delete
    requires TableShaped(store.table) && half.landed == store.Now() && half.start.staging == map[]
    requires Landed(PathSet(plan.transfer), local, half.landed, half.start)
    requires store.transfer.Fresh() && GroupsOf(store.transfer.groups, plan.transfer, plan.delete)
    requires DisjointFrom(plan.delete, plan.transfer) && Serves(local, plan.transfer)
    modifies store`files, store`dirs, store.transfer`applied, store.transfer`rollbackFailed, store.transfer.disk
    ensures store.transfer.SlipsAreFaults()
    ensures r.Ok? ==>
      ShowsPulled(store.files, store.transfer.disk.root, half.start.files, old(store.transfer.disk.root),
                  local, plan, mode, store.transfer.disk.misread)
    ensures r.Ok? ==> AllRemovable(store.table, DeletesOf(plan, mode))
    ensures NoFalseFault(old(store.transfer.disk.faulted), store.transfer.disk.faulted, store.transfer.disk.reliable)
    ensures r.Err? ==> store.transfer.disk.faulted || !Unhindered(plan, mode, store.table, half.start)
    ensures Thinned(store.files, old(store.files), DeletesOf(plan, mode))
    ensures InOrder(store.files, store.transfer.disk.root, half.start.files, old(store.transfer.disk.root), local, plan,
                    mode)
    ensures NamespacesLeft(store.transfer.disk.root, old(store.transfer.disk.root), local, plan,
                           store.transfer.rollbackFailed)
    ensures store.transfer.rollbackFailed ==>
      TwiceRefused(old(store.transfer.disk.refused), store.transfer.disk.refused)
    ensures plan.transfer == [] && plan.delete == [] ==>
      Unchanged(store.files, store.transfer.disk.root, old(store.files), old(store.transfer.disk.root))
  {
    var deleted := DeletePlanned(store, if mode.Mirror? then delete else []);
    StillInPlace(store.files, half.landed, half.start, local, plan, mode);
    if deleted.Err? {
      if !store.transfer.disk.faulted { HinderedDeletes(plan, mode, store.table, local, half); }
      return deleted;
    }
    r := PublishPushed(store, plan, mode, local, half);
  }

  datatype Permissions = Permissions(read: bool, write: bool, mirrorDelete: bool)

  /** The commit handler's validator: a push plan, the write permission, and for a mirror the delete permission. */
  function MayCommit(record: Plans.PlanRecord, permissions: Permissions): Result<()> {
    if record.direction != Plans.PushPlan || !permissions.write then Err(Unauthorized)
    else if record.mode.Mirror? && !permissions.mirrorDelete then Err(Unauthorized)
    else Ok(())
  }

  /**
   The plan is there for the device to commit: planned by it, as a push, and the device may write, and
   delete where the plan is a mirror's.
   */
  ghost predicate Entitled(records: Plans.Records, planId: string, deviceId: string, permissions: Permissions,
                           now: u64) {
    && Plans.Held(records, planId, now) && records[planId].deviceId == deviceId
    && records[planId].direction == Plans.PushPlan
    && permissions.write && (records[planId].mode == Mirror ==> permissions.mirrorDelete)
  }

  /** The call a commit request makes on the plan store. */
  ghost function CommitTake(records: Plans.Records, planId: string, deviceId: string, permissions: Permissions,
                            now: u64): Plans.Call {
    Plans.Take(now, planId, deviceId,
               Plans.Approves(record => MayCommit(record, permissions), records, planId, deviceId, now))
  }

  /**
   The commit handler, down to the time of the last sync it notes for the peer. Exactly the device
   that planned the push, with its plan alive and the permissions it takes, uses the record up, and
   only that changes anything on the store; any other request is refused and leaves both alone.
   */
  method HandleCommit(plans: Plans.PlanStore, store: Workspace, planId: string, deviceId: string,
                      permissions: Permissions,
                      now: u64, finished: u64, ghost plan: Plan, ghost local: Replica, ghost half: Halfway)
    returns (r: Result<u64>)
    requires planId in plans.records ==> plans.records[planId].delete == plan.delete
    requires TableShaped(store.table) && half.landed == store.Now() && half.start.staging == map[]
    requires Landed(PathSet(plan.transfer), local, half.landed, half.start)
    requires store.transfer.Fresh() && GroupsOf(store.transfer.groups, plan.transfer, plan.delete)
    requires DisjointFrom(plan.delete, plan.transfer) && Serves(local, plan.transfer)
    modifies plans, store`files, store`dirs
    modifies store.transfer`applied, store.transfer`rollbackFailed, store.transfer.disk
    ensures NoFalseFault(old(store.transfer.disk.faulted), store.transfer.disk.faulted, store.transfer.disk.reliable)
    ensures plans.records
      == Plans.After(old(plans.records), CommitTake(old(plans.records), planId, deviceId, permissions, now))
    ensures planId in plans.records <==>
      Plans.Held(old(plans.records), planId, now) && !Entitled(old(plans.records), planId, deviceId, permissions, now)
    ensures forall id :: id in plans.records ==> id in old(plans.records) && plans.records[id] == old(plans.records)[id]
    ensures forall id :: id != planId ==> (id in plans.records <==> Plans.Held(old(plans.records), id, now))
    ensures !Entitled(old(plans.records), planId, deviceId, permissions, now) ==>
      && r == Err(if Plans.Held(old(plans.records), planId, now) then Unauthorized else NotFound)
      && store.Now() == old(store.Now()) && store.transfer.disk.root == old(store.transfer.disk.root)
    ensures Entitled(old(plans.records), planId, deviceId, permissions, now) && r.Err? ==>
      store.transfer.disk.faulted || !Unhindered(plan, old(plans.records[planId].mode), store.table, half.start)
    ensures r.Ok? ==>
      && r.value == finished && planId in old(plans.records)
      && ShowsPulled(store.files, store.transfer.disk.root, half.start.files, old(store.transfer.disk.root),
                     local, plan, old(plans.records[planId].mode), store.transfer.disk.misread)
  {
    var record :- plans.TakeIf(planId, deviceId, record => MayCommit(record, permissions), now);
    var committed := CommitPlan(store, record.delete, record.mode, plan, local, half);
    if committed.Err? {
      return Err(committed.error);
    }
    var unsaved := store.transfer.disk.Fails();
    return if unsaved then Err(Io) else Ok(finished);
  }

  /**
   `apply_push_plan` by the per-file route. Success leaves every path of the remote exactly as
   planned; it fails only by a fault, by tasks that share a temporary file, or because a path hinders
   it. Finished or not, it leaves each file old, planned or deleted, and each namespace whole; a
   failure that does not flag the remote left its visible tree as it was.
   */
  method ApplyPushPlan(remote: Workspace, plan: Plan, mode: SyncMode, local: Replica, fileConcurrency: nat)
    returns (r: UploadResult)
    requires fileConcurrency > 0 && Serves(local, plan.transfer) && AllValid(plan.transfer)
    requires DisjointFrom(plan.delete, plan.transfer)
    requires (mode.Incremental? ==> plan.delete == []) && TableShaped(remote.table)
    requires remote.transfer.Fresh() && remote.transfer.disk.staging == map[]
    requires GroupsOf(remote.transfer.groups, plan.transfer, plan.delete)
    modifies remote`files, remote`dirs
    modifies remote.transfer`applied, remote.transfer`rollbackFailed, remote.transfer.disk
    ensures NoFalseFault(old(remote.transfer.disk.faulted), remote.transfer.disk.faulted,
                         remote.transfer.disk.reliable)
    ensures remote.transfer.SlipsAreFaults()
    ensures r.Uploaded? ==>
      ShowsPulled(remote.files, remote.transfer.disk.root, old(remote.files), old(remote.transfer.disk.root),
                  local, plan, mode, remote.transfer.disk.misread)
    ensures r.Uploaded? ==> Smooth(PathSet(plan.transfer), old(remote.Now()))
    ensures r.Uploaded? ==> AllRemovable(remote.table, DeletesOf(plan, mode))
    ensures r.UploadFailed? ==>
      || remote.transfer.disk.faulted || !Unhindered(plan, mode, remote.table, old(remote.Now()))
      || Crowded(plan.transfer, fileConcurrency)
    ensures FilesLeft(remote.files, old(remote.files), local, plan, mode, fileConcurrency)
    ensures InOrder(remote.files, remote.transfer.disk.root, old(remote.files), old(remote.transfer.disk.root), local,
                    plan, mode)
    ensures NamespacesLeft(remote.transfer.disk.root, old(remote.transfer.disk.root), local, plan,
                           remote.transfer.rollbackFailed)
    ensures remote.transfer.rollbackFailed ==>
      TwiceRefused(old(remote.transfer.disk.refused), remote.transfer.disk.refused)
    ensures r.UploadFailed? && !r.remoteMaybeChanged ==>
      Unchanged(remote.files, remote.transfer.disk.root, old(remote.files), old(remote.transfer.disk.root))
    ensures r.UploadFailed? && plan.transfer == [] && DeletesOf(plan, mode) == [] ==> !r.remoteMaybeChanged
  {
    ghost var start := remote.Now();
    var uploads, _, _, _ := UploadFiles(remote, plan.transfer, local, fileConcurrency);
    if uploads.UploadFailed? {
      LeftThenThinned(remote.files, remote.files, start.files, local, plan, mode, fileConcurrency);
      NothingGone(remote.files, remote.transfer.disk.root, start.files, local, plan, mode, fileConcurrency);
      return uploads;
    }
    ghost var half := Halfway(start, remote.Now());
    if plan.transfer == [] { NothingArrived(local, half); }
    var touched := plan.transfer != [] || (mode.Mirror? && plan.delete != []);
    var committed := CommitPlan(remote, plan.delete, mode, plan, local, half);
    LeftThenThinned(remote.files, half.landed.files, start.files, local, plan, mode, fileConcurrency);
    var lost := remote.transfer.disk.Fails();
    if committed.Err? || lost {
      return UploadFailed(if committed.Err? then committed.error else Io, touched);
    }
    return Uploaded;
  }

  /** An empty plan brings no file. */
  lemma NothingArrived(local: Replica, half: Halfway)
    requires Landed({}, local, half.landed, half.start)
    ensures half.landed.files == half.start.files
  {
    SameReplica(half.landed.files, half.start.files);
  }
}
