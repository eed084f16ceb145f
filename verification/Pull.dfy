/** One whole pull on the client, from an accepted plan to the published result. */
module Pull {
  import opened Wrappers
  import opened Paths
  import opened Catalog
  import opened Policy
  import opened Manifest
  import opened Planner
  import opened Sync
  import opened Publish
  import opened Engine
  import opened Schedule
  import opened BundleCodec
  import opened BundleStream
  import opened BundleReader
  import Prune

  datatype PullResult = Pulled(summary: LocalChangeSummary)
                      | PullFailed(error: SyncError, localApplied: LocalChangeSummary, localTargetChanged: bool)

  /** The commit only had to remove the namespace, and `exists` missed it. */
  ghost predicate Forgotten(plan: Plan, misread: set<string>, d: string) {
    EntriesOf(plan.transfer, d) == [] && d in misread
  }

  /**
   The file at `p` after a pull, from the incoming and the old one. The plan's deletes count
   outside namespaces only in mirror mode; a namespace the plan touches is replaced whole, unless
   the commit forgot it.
   */
  ghost function PulledAt(incoming: Option<File>, was: Option<File>, plan: Plan, mode: SyncMode,
                          misread: set<string>, p: Path): Option<File> {
    if ListsPath(plan.transfer, p) then incoming
    else if Namespace(p).Some? && Touches(plan.transfer, plan.delete, Namespace(p).value) then
      if Forgotten(plan, misread, Namespace(p).value) then was else None
    else if mode.Mirror? && Namespace(p).None? && p in plan.delete then None
    else was
  }

  ghost predicate Unchanged(files: Replica, root: map<string, Directory>, files0: Replica, root0: map<string,
                            Directory>) {
    files == files0 && forall n :: At(root, n) == At(root0, n)
  }

  // ---------------------------------------------------------------- the delete loop

  /** `delete_file` refuses none of the paths for what it is or for what stands there. */
  ghost predicate Erasable(table: seq<Definition>, files: Replica, dirs: set<Path>, delete: seq<Path>) {
    forall p :: p in delete ==> Erases(table, files, dirs, p)
  }

  /** No path outside the namespaces lacks a prune decision or lies at its own boundary. */
  ghost predicate AllRemovable(table: seq<Definition>, delete: seq<Path>) {
    forall p :: p in delete && Namespace(p).None? ==> Removable(table, p)
  }

  lemma ErasesWithLess(table: seq<Definition>, files: Replica, dirs: set<Path>, files0: Replica, dirs0: set<Path>,
                       p: Path)
    requires files.Keys <= files0.Keys && dirs <= dirs0 && Erases(table, files0, dirs0, p)
    ensures Erases(table, files, dirs, p)
  {
  }

  /** Some of the paths are gone, and nothing else has changed. */
  ghost predicate Thinned(files: Replica, files0: Replica, gone: seq<Path>) {
    forall q :: Get(files, q) == Get(files0, q) || (Namespace(q).None? && q in gone && q !in files)
  }

  /** What the delete loop leaves of the plain files. */
  ghost predicate Deleted(files: Replica, files0: Replica, gone: seq<Path>) {
    forall q :: Get(files, q) == if Namespace(q).None? && q in gone then None else Get(files0, q)
  }

  lemma DeletedStep(files: Replica, was: Replica, files0: Replica, gone: seq<Path>, p: Path)
    requires Deleted(was, files0, gone) && files == if Namespace(p).Some? then was else was - {p}
    ensures Deleted(files, files0, gone + [p])
  {
    forall q
      ensures Get(files, q) == if Namespace(q).None? && q in gone + [p] then None else Get(files0, q)
    {
      assert Get(was, q) == if Namespace(q).None? && q in gone then None else Get(files0, q);
    }
  }

  /** A delete loop that stopped at `delete[i]`. */
  lemma StoppedThinned(files: Replica, was: Replica, files0: Replica, delete: seq<Path>, i: nat)
    requires i < |delete| && Deleted(was, files0, delete[..i])
    requires files == was || (Namespace(delete[i]).None? && files == was - {delete[i]})
    ensures Thinned(files, files0, delete)
  {
    forall q
      ensures Get(files, q) == Get(files0, q) || (Namespace(q).None? && q in delete && q !in files)
    {
      assert Get(was, q) == if Namespace(q).None? && q in delete[..i] then None else Get(files0, q);
    }
  }

  lemma DeletedShrinks(files: Replica, files0: Replica, gone: seq<Path>)
    requires Deleted(files, files0, gone)
    ensures files.Keys <= files0.Keys && Thinned(files, files0, gone)
  {
    forall q | q in files
      ensures q in files0
    {
      assert Get(files, q) == if Namespace(q).None? && q in gone then None else Get(files0, q);
    }
  }

  /** A recorded delete outside the namespaces shows. */
  lemma ReportedDelete(files: Replica, was: Replica, files0: Replica, writes: seq<Entry>, deletes: seq<Path>, p: Path)
    requires Reported(was, files0, false, writes, deletes, false)
    requires files == if Namespace(p).Some? then was else was - {p}
    ensures Reported(files, files0, false, writes, deletes + [p], false)
  {
    assert forall q :: q in deletes ==> q in deletes + [p];
    assert p in deletes + [p];
  }

  datatype DeleteResult = AllDeleted | DeleteFailed(error: SyncError, targetChanged: bool)

  /** The delete loop; database paths are recorded but left to the commit. */
  method DeleteFiles(workspace: Workspace, tracker: Tracker, delete: seq<Path>, ghost files0: Replica)
    returns (r: DeleteResult)
    requires TableShaped(workspace.table)
    requires tracker.deletes == [] && Reported(workspace.files, files0, false, tracker.writes, [], false)
    modifies workspace`files, workspace`dirs, workspace.transfer.disk`faulted, tracker`deletes
    ensures NoFalseFault(old(workspace.transfer.disk.faulted), workspace.transfer.disk.faulted,
                         workspace.transfer.disk.reliable)
    ensures r.AllDeleted? ==> Deleted(workspace.files, old(workspace.files), delete)
    ensures r.AllDeleted? ==> AllRemovable(workspace.table, delete) && tracker.deletes == delete
    ensures r.DeleteFailed? ==>
      workspace.transfer.disk.faulted || !Erasable(workspace.table, old(workspace.files), old(workspace.dirs), delete)
    ensures Thinned(workspace.files, old(workspace.files), delete)
    ensures Reported(workspace.files, files0, r.DeleteFailed? && r.targetChanged, tracker.writes, tracker.deletes,
                     false)
  {
    for i := 0 to |delete|
      invariant Deleted(workspace.files, old(workspace.files), delete[..i]) && workspace.dirs <= old(workspace.dirs)
      invariant AllRemovable(workspace.table, delete[..i]) && tracker.deletes == delete[..i]
      invariant Reported(workspace.files, files0, false, tracker.writes, tracker.deletes, false)
      invariant NoFalseFault(old(workspace.transfer.disk.faulted), workspace.transfer.disk.faulted,
                             workspace.transfer.disk.reliable)
    {
      var p := delete[i];
      assert delete[..i + 1] == delete[..i] + [p];
      ghost var was, dirs := workspace.files, workspace.dirs;
      DeletedShrinks(was, old(workspace.files), delete[..i]);
      var outcome := workspace.DeleteFile(p);
      if outcome.WriteFailed? {
        if Erases(workspace.table, old(workspace.files), old(workspace.dirs), p) {
          ErasesWithLess(workspace.table, was, dirs, old(workspace.files), old(workspace.dirs), p);
        }
        StoppedThinned(workspace.files, was, old(workspace.files), delete, i);
        assert p in delete;
        return DeleteFailed(outcome.error, outcome.targetChanged);
      }
      DeletedStep(workspace.files, was, old(workspace.files), delete[..i], p);
      ReportedDelete(workspace.files, was, files0, tracker.writes, tracker.deletes, p);
      tracker.RecordDelete(p);
    }
    assert delete[..|delete|] == delete;
    DeletedShrinks(workspace.files, old(workspace.files), delete);
    return AllDeleted;
  }

  /** The deletes a sync carries out: a plan's, in mirror mode. */
  function DeletesOf(plan: Plan, mode: SyncMode): seq<Path> { if mode.Mirror? then plan.delete else [] }

  // ---------------------------------------------------------------- what the commit shows

  /** The groups a plan makes hold entries of their own namespace only. */
  lemma GroupsAreHomogeneous(groups: Groups, plan: Plan)
    requires GroupsOf(groups, plan.transfer, plan.delete)
    ensures forall d :: d in groups ==> forall i :: 0 <= i < |groups[d]| ==> Namespace(groups[d][i].path) == Some(d)
    ensures forall d :: d in groups <==> Touches(plan.transfer, plan.delete, d)
  {
    forall d | d in groups
      ensures forall i :: 0 <= i < |groups[d]| ==> Namespace(groups[d][i].path) == Some(d)
    {
      EntriesOfMembers(plan.transfer, d);
      assert forall i :: 0 <= i < |groups[d]| ==> groups[d][i] in EntriesOf(plan.transfer, d);
    }
  }

  /** A commit that went through every group: its groups, where it began, what the disk holds now. */
  ghost predicate Committed(groups: Groups, plan: Plan, start: Snapshot, now: Snapshot, misread: set<string>) {
    && GroupsOf(groups, plan.transfer, plan.delete)
    && (forall d :: d in groups ==> Publish.Done(now, misread, Group(d, groups[d]), start))
    && (forall n :: n !in groups ==> At(now.root, n) == At(start.root, n))
  }

  lemma ProgressIsCommitted(groups: Groups, plan: Plan, order: seq<string>, start: Snapshot, now: Snapshot,
                            misread: set<string>)
    requires GroupsOf(groups, plan.transfer, plan.delete) && Progress(groups, order, |order|, start, now, misread)
    requires forall d :: d in order <==> d in groups
    ensures Committed(groups, plan, start, now, misread)
  {
    forall d | d in groups
      ensures Publish.Done(now, misread, Group(d, groups[d]), start)
    {
      var i :| 0 <= i < |order| && order[i] == d;
      assert Publish.Done(now, misread, Group(order[i], groups[order[i]]), start);
    }
  }

  /** What a successful commit shows at a path, given what was staged. */
  lemma CommittedView(groups: Groups, plan: Plan, start: Snapshot, now: Snapshot, misread: set<string>, files: Replica,
                      p: Path)
    requires Committed(groups, plan, start, now, misread)
    ensures ViewAt(files, now.root, p) ==
      if Namespace(p).None? || !Touches(plan.transfer, plan.delete, Namespace(p).value)
         || Forgotten(plan, misread, Namespace(p).value) then ViewAt(files, start.root, p)
      else if EntriesOf(plan.transfer, Namespace(p).value) == [] then None
      else StagedAt(start.staging, p)
  {
    if Namespace(p).Some? {
      var d := Namespace(p).value;
      assert d in groups <==> Touches(plan.transfer, plan.delete, d);
      if d in groups {
        assert Publish.Done(now, misread, Group(d, groups[d]), start);
      } else {
        assert At(now.root, d) == At(start.root, d);
      }
    }
  }

  lemma ListedHasEntries(transfer: seq<Entry>, p: Path, d: string)
    requires ListsPath(transfer, p) && Namespace(p) == Some(d)
    ensures EntriesOf(transfer, d) != []
  {
    EntriesOfMembers(transfer, d);
    var i :| 0 <= i < |transfer| && transfer[i].path == p;
    assert transfer[i] in EntriesOf(transfer, d);
  }

  /** Downloads, deletes and a successful commit together. */
  lemma PulledView(groups: Groups, plan: Plan, mode: SyncMode, from: Snapshot, now: Snapshot, misread: set<string>,
                   source: Replica, start: Side, landed: Side, files: Replica, p: Path)
    requires Committed(groups, plan, from, now, misread)
    requires Landed(PathSet(plan.transfer), source, landed, start) && start.staging == map[]
    requires from.staging == landed.staging
    requires Deleted(files, landed.files, DeletesOf(plan, mode))
    requires DisjointFrom(plan.delete, plan.transfer)
    ensures ViewAt(files, now.root, p)
      == PulledAt(Get(source, p), ViewAt(start.files, from.root, p), plan, mode, misread, p)
  {
    CommittedView(groups, plan, from, now, misread, files, p);
    assert p in PathSet(plan.transfer) <==> ListsPath(plan.transfer, p);
    assert StagedAt(landed.staging, p)
      == if p in PathSet(plan.transfer) && Namespace(p).Some? then Get(source, p) else StagedAt(start.staging, p);
    assert Get(landed.files, p)
      == if p in PathSet(plan.transfer) && Namespace(p).None? then Get(source, p) else Get(start.files, p);
    if Namespace(p).Some? && ListsPath(plan.transfer, p) {
      ListedHasEntries(plan.transfer, p, Namespace(p).value);
      assert Touches(plan.transfer, plan.delete, Namespace(p).value);
    }
    assert !(p in plan.delete && ListsPath(plan.transfer, p));
  }

  // ---------------------------------------------------------------- receiving

  datatype DeliverResult = Delivered
                         | DeliverFailed(error: SyncError, localApplied: LocalChangeSummary, localTargetChanged: bool)

  /** A bundle is taken in one file at a time. */
  function TasksAtOnce(bundle: Option<Source>, fileConcurrency: nat): nat {
    if bundle.Some? then 1 else fileConcurrency
  }

  /** Receive the planned files, from one bundle stream or file by file. */
  method Deliver(workspace: Workspace, tracker: Tracker, transfer: seq<Entry>, source: Replica, bundle: Option<Source>,
                 fileConcurrency: nat)
    returns (r: DeliverResult, ghost panicked: bool)
    requires fileConcurrency > 0 && Serves(source, transfer) && AllValid(transfer)
    requires bundle.Some? ==> !bundle.value.faulted && BundleServes(bundle.value.rest, source, transfer)
    requires workspace.transfer.Fresh() && tracker.writes == [] && tracker.deletes == []
    modifies workspace`files, workspace`dirs, tracker`writes
    modifies workspace.transfer.disk`staging, workspace.transfer.disk`trace, workspace.transfer.disk`faulted
    modifies if bundle.Some? then {bundle.value} else {}
    ensures workspace.transfer.Fresh()
    ensures NoFalseFault(old(workspace.transfer.disk.faulted), workspace.transfer.disk.faulted,
                         workspace.transfer.disk.reliable)
    ensures StreamFaulted(bundle) ==> !StreamReliable(bundle)
    ensures r.Delivered? ==> Landed(PathSet(transfer), source, workspace.Now(), old(workspace.Now()))
    ensures r.Delivered? ==> Smooth(PathSet(transfer), old(workspace.Now()))
    ensures r.Delivered? && DistinctPaths(transfer) ==> multiset(tracker.writes) == multiset(transfer)
    ensures r.DeliverFailed? ==>
      || workspace.transfer.disk.faulted || StreamFaulted(bundle) || old(StreamFails(bundle, transfer))
      || !Smooth(PathSet(transfer), old(workspace.Now())) || Crowded(transfer, TasksAtOnce(bundle, fileConcurrency))
    ensures Left(workspace.files, old(workspace.files), source, transfer, TasksAtOnce(bundle, fileConcurrency))
    ensures r.Delivered? ==> Reported(workspace.files, old(workspace.files), false, tracker.writes, [], false)
    ensures r.DeliverFailed? ==>
      workspace.files == old(workspace.files) || r.localTargetChanged || r.localApplied.Changed() || panicked
  {
    if bundle.None? || transfer == [] {
      var downloads, _, _, log := DownloadFiles(workspace, tracker, transfer, source, fileConcurrency);
      r := if downloads.Downloaded? then Delivered
           else DeliverFailed(downloads.error, downloads.localApplied, downloads.localTargetChanged);
      assert transfer == [] ==> forall p :: !LeftAt(workspace.files, source, transfer, fileConcurrency, p);
      return r, Crashed(log);
    }
    panicked := false;
    var refused := workspace.transfer.disk.Fails();
    if refused {
      return DeliverFailed(Io, LocalChangeSummary(0, 0, 0), false), panicked;
    }
    var received, _ := WriteBundleToWorkspace(workspace, tracker, transfer, bundle.value, source);
    if received.BundleFailed? {
      var summary := tracker.Summary(workspace.transfer);
      SummaryShows(tracker.writes, tracker.deletes, workspace.transfer.applied);
      return DeliverFailed(received.error, summary, received.targetChanged), panicked;
    }
    return Delivered, panicked;
  }

  /** The stream is not what the plan calls for. */
  ghost predicate StreamFails(bundle: Option<Source>, transfer: seq<Entry>)
    requires AllValid(transfer)
    reads if bundle.Some? then {bundle.value} else {}
  {
    bundle.Some? && Read(bundle.value.rest, SizesOf(ExpectedOf(transfer))).result.Err?
  }

  ghost predicate StreamFaulted(bundle: Option<Source>)
    reads if bundle.Some? then {bundle.value} else {}
  {
    bundle.Some? && bundle.value.faulted
  }

  ghost predicate StreamReliable(bundle: Option<Source>) { bundle.Some? ==> bundle.value.reliable }

  /** The files a reader could take from the stream are the peer's. */
  ghost predicate BundleServes(data: string, source: Replica, transfer: seq<Entry>)
    requires AllValid(transfer)
  {
    Carries(Read(data, SizesOf(ExpectedOf(transfer))).written, source, ExpectedOf(transfer))
  }

  /** Once every planned file has arrived, every group is complete in staging. */
  lemma LandedIsReady(transfer: seq<Entry>, source: Replica, now: Side, start: Side, d: string)
    requires Serves(source, transfer) && Landed(PathSet(transfer), source, now, start)
    ensures Ready(Group(d, EntriesOf(transfer, d)), At(now.staging, d))
  {
    var entries := EntriesOf(transfer, d);
    EntriesOfMembers(transfer, d);
    forall e | e in entries
      ensures d in now.staging && HasStaged(now.staging[d], e)
    {
      var j :| 0 <= j < |transfer| && transfer[j] == e;
      assert ServesOne(source, e) && e.path in PathSet(transfer);
      assert StagedAt(now.staging, e.path) == Some(source[e.path]);
    }
    if entries != [] { assert entries[0] in entries; }
  }

  // ---------------------------------------------------------------- the commit of a pull

  /** Where a pull stands before the commit: how it began, and the side once the files had landed. */
  datatype Halfway = Halfway(start: Side, landed: Side)

  ghost predicate ReadyToPublish(plan: Plan, mode: SyncMode, source: Replica, half: Halfway, files: Replica) {
    && DisjointFrom(plan.delete, plan.transfer) && Serves(source, plan.transfer) && half.start.staging == map[]
    && Landed(PathSet(plan.transfer), source, half.landed, half.start)
    && Deleted(files, half.landed.files, DeletesOf(plan, mode))
  }

  /** Every path shows what the pull promises. */
  ghost predicate ShowsPulled(files: Replica, root: map<string, Directory>, files0: Replica, root0: map<string,
                              Directory>,
                              source: Replica, plan: Plan, mode: SyncMode, misread: set<string>) {
    forall p :: ViewAt(files, root, p) == PulledAt(Get(source, p), ViewAt(files0, root0, p), plan, mode, misread, p)
  }

  lemma CommittedShows(groups: Groups, plan: Plan, mode: SyncMode, from: Snapshot, now: Snapshot, misread: set<string>,
                       source: Replica, half: Halfway, files: Replica)
    requires Committed(groups, plan, from, now, misread)
    requires ReadyToPublish(plan, mode, source, half, files) && from.staging == half.landed.staging
    ensures ShowsPulled(files, now.root, half.start.files, from.root, source, plan, mode, misread)
  {
    forall p
      ensures ViewAt(files, now.root, p)
        == PulledAt(Get(source, p), ViewAt(half.start.files, from.root, p), plan, mode, misread, p)
    {
      PulledView(groups, plan, mode, from, now, misread, source, half.start, half.landed, files, p);
    }
  }

  // ---------------------------------------------------------------- what a pull leaves

  /**
   A namespace after a pull that may have failed: as before, or exactly the planned files; no file at
   all only if its restore failed too.
   */
  ghost predicate NamespaceLeft(root: map<string, Directory>, root0: map<string, Directory>, source: Replica,
                                transfer: seq<Entry>, torn: bool, d: string) {
    || At(root, d) == At(root0, d)
    || (torn && d !in root)
    || forall p :: Namespace(p) == Some(d) ==>
         ViewAt(map[], root, p) == if ListsPath(transfer, p) then Get(source, p) else None
  }

  /** Only namespaces that the plan touches have changed, and each as a whole. */
  ghost predicate NamespacesLeft(root: map<string, Directory>, root0: map<string, Directory>, source: Replica,
                                 plan: Plan, torn: bool) {
    forall d :: At(root, d) == At(root0, d)
      || (Touches(plan.transfer, plan.delete, d) && NamespaceLeft(root, root0, source, plan.transfer, torn, d))
  }

  /** At least two more renames into place were refused. */
  ghost predicate TwiceRefused(before: seq<string>, refused: seq<string>) { |refused| >= |before| + 2 }

  /** What a pull leaves of the plain files, finished or not. */
  ghost predicate FilesLeft(files: Replica, files0: Replica, source: Replica, plan: Plan, mode: SyncMode, limit: nat) {
    forall p ::
      || Get(files, p) == Get(files0, p)
      || LeftAt(files, source, plan.transfer, limit, p)
      || (mode.Mirror? && Namespace(p).None? && p in plan.delete && p !in files)
  }

  /** Every planned plain file is in place. */
  ghost predicate InPlace(files: Replica, source: Replica, transfer: seq<Entry>) {
    forall p :: p in PathSet(transfer) && Namespace(p).None? ==> Get(files, p) == Get(source, p)
  }

  /** No planned plain delete is left to do. */
  ghost predicate AllGone(files: Replica, delete: seq<Path>) {
    forall p :: p in delete && Namespace(p).None? ==> p !in files
  }

  /**
   The phases of a sync come in order, however far it got: nothing is deleted before every planned
   plain file is in place, and no namespace changes before that and the deletes are done.
   */
  ghost predicate InOrder(files: Replica, root: map<string, Directory>, files0: Replica, root0: map<string, Directory>,
                          source: Replica, plan: Plan, mode: SyncMode) {
    && ((exists p :: p in files0 && p !in files) ==> InPlace(files, source, plan.transfer))
    && ((exists d :: At(root, d) != At(root0, d)) ==>
          InPlace(files, source, plan.transfer) && AllGone(files, DeletesOf(plan, mode)))
  }

  lemma NothingGone(files: Replica, root: map<string, Directory>, files0: Replica, source: Replica, plan: Plan,
                    mode: SyncMode, limit: nat)
    requires Left(files, files0, source, plan.transfer, limit)
    ensures InOrder(files, root, files0, root, source, plan, mode)
  {
    forall p | p in files0
      ensures p in files
    {
      assert Get(files, p) == Get(files0, p) || LeftAt(files, source, plan.transfer, limit, p);
    }
  }

  lemma StillInPlace(files: Replica, landed: Side, start: Side, source: Replica, plan: Plan, mode: SyncMode)
    requires Landed(PathSet(plan.transfer), source, landed, start) && DisjointFrom(plan.delete, plan.transfer)
    requires Thinned(files, landed.files, DeletesOf(plan, mode))
    ensures InPlace(files, source, plan.transfer)
    ensures Deleted(files, landed.files, DeletesOf(plan, mode)) ==> AllGone(files, DeletesOf(plan, mode))
  {
    forall p | p in PathSet(plan.transfer) && Namespace(p).None?
      ensures Get(files, p) == Get(source, p)
    {
      assert Get(landed.files, p) == Get(source, p);
      assert p !in plan.delete;
      assert Get(files, p) == Get(landed.files, p);
    }
    if Deleted(files, landed.files, DeletesOf(plan, mode)) {
      forall p | p in DeletesOf(plan, mode) && Namespace(p).None?
        ensures p !in files
      {
        assert Get(files, p) == None;
      }
    }
  }

  lemma LandedLeft(transfer: seq<Entry>, source: Replica, now: Side, start: Side, limit: nat)
    requires Landed(PathSet(transfer), source, now, start)
    ensures Left(now.files, start.files, source, transfer, limit)
  {
    forall p
      ensures Get(now.files, p) == Get(start.files, p) || LeftAt(now.files, source, transfer, limit, p)
    {
      assert Get(now.files, p)
        == if p in PathSet(transfer) && Namespace(p).None? then Get(source, p) else Get(start.files, p);
    }
  }

  lemma LeftThenThinned(files: Replica, landed: Replica, files0: Replica, source: Replica, plan: Plan, mode: SyncMode,
                        limit: nat)
    requires Left(landed, files0, source, plan.transfer, limit)
    requires Thinned(files, landed, DeletesOf(plan, mode))
    ensures FilesLeft(files, files0, source, plan, mode, limit)
  {
    forall p
      ensures Get(files, p) == Get(files0, p) || LeftAt(files, source, plan.transfer, limit, p)
        || (mode.Mirror? && Namespace(p).None? && p in plan.delete && p !in files)
    {
      assert Get(files, p) == Get(landed, p)
        || (Namespace(p).None? && p in DeletesOf(plan, mode) && p !in files);
      assert Get(landed, p) == Get(files0, p) || LeftAt(landed, source, plan.transfer, limit, p);
    }
  }

  /** A group gone through has its namespace as before, or with exactly the planned files. */
  lemma DoneLeaves(s: Snapshot, misread: set<string>, g: Group, from: Snapshot, source: Replica, landed: Side,
                   start: Side, transfer: seq<Entry>)
    requires Publish.Done(s, misread, g, from) && from.staging == landed.staging && start.staging == map[]
    requires Landed(PathSet(transfer), source, landed, start) && g.entries == EntriesOf(transfer, g.name)
    ensures NamespaceLeft(s.root, from.root, source, transfer, false, g.name)
  {
    if At(s.root, g.name) != At(from.root, g.name) {
      forall p | Namespace(p) == Some(g.name)
        ensures ViewAt(map[], s.root, p) == if ListsPath(transfer, p) then Get(source, p) else None
      {
        assert StagedAt(landed.staging, p)
          == if p in PathSet(transfer) && Namespace(p).Some? then Get(source, p) else StagedAt(start.staging, p);
        assert p in PathSet(transfer) <==> ListsPath(transfer, p);
        if ListsPath(transfer, p) { ListedHasEntries(transfer, p, g.name); }
      }
    }
  }

  lemma DoneAt(groups: Groups, plan: Plan, order: seq<string>, k: nat, i: nat, from: Snapshot, now: Snapshot,
               misread: set<string>, source: Replica, half: Halfway)
    requires GroupsOf(groups, plan.transfer, plan.delete) && Progress(groups, order, k, from, now, misread)
    requires i < k && from.staging == half.landed.staging && half.start.staging == map[]
    requires Landed(PathSet(plan.transfer), source, half.landed, half.start)
    ensures NamespaceLeft(now.root, from.root, source, plan.transfer, false, order[i])
  {
    DoneLeaves(now, misread, Group(order[i], groups[order[i]]), from, source, half.landed, half.start, plan.transfer);
  }

  lemma PendingAt(groups: Groups, order: seq<string>, k: nat, i: nat, from: Snapshot, now: Snapshot,
                  misread: set<string>)
    requires Progress(groups, order, k, from, now, misread) && k < i < |order|
    ensures At(now.root, order[i]) == At(from.root, order[i])
  {
    assert Pending(order[i], from, now);
  }

  /** A commit that stopped at group `k` left every namespace whole. */
  lemma StoppedLeaves(groups: Groups, plan: Plan, order: seq<string>, k: nat, from: Snapshot, now: Snapshot,
                      misread: set<string>, torn: bool, source: Replica, half: Halfway)
    requires GroupsOf(groups, plan.transfer, plan.delete) && Progress(groups, order, k, from, now, misread)
    requires forall d :: d in groups ==> d in order
    requires k < |order| ==> (torn && order[k] !in now.root) || At(now.root, order[k]) == At(from.root, order[k])
    requires Landed(PathSet(plan.transfer), source, half.landed, half.start) && half.start.staging == map[]
    requires from.staging == half.landed.staging
    ensures NamespacesLeft(now.root, from.root, source, plan, torn)
  {
    forall d
      ensures At(now.root, d) == At(from.root, d)
        || (Touches(plan.transfer, plan.delete, d)
            && NamespaceLeft(now.root, from.root, source, plan.transfer, torn, d))
    {
      if d in groups {
        var i :| 0 <= i < |order| && order[i] == d;
        if i < k {
          DoneAt(groups, plan, order, k, i, from, now, misread, source, half);
        } else if i > k {
          PendingAt(groups, order, k, i, from, now, misread);
        }
      }
    }
  }

  /** A summary of the whole plan: all its files and bytes, and all deletes of the mode. */
  ghost predicate SumsUp(summary: LocalChangeSummary, plan: Plan, mode: SyncMode) {
    summary == LocalChangeSummary(|plan.transfer|, SumSizes(plan.transfer), |DeletesOf(plan, mode)|)
  }

  /** Every planned file and delete is recorded. */
  ghost predicate Complete(writes: seq<Entry>, deletes: seq<Path>, plan: Plan, mode: SyncMode) {
    multiset(writes) == multiset(plan.transfer) && deletes == DeletesOf(plan, mode)
  }

  /** Everything a plan does to a namespace is applied once all groups are. */
  lemma AllApplied(plan: Plan, mode: SyncMode, applied: set<string>, writes: seq<Entry>, deletes: seq<Path>)
    requires forall d :: Touches(plan.transfer, plan.delete, d) ==> d in applied
    requires Complete(writes, deletes, plan, mode)
    ensures SumsUp(SummaryOf(writes, deletes, applied), plan, mode)
  {
    forall e | e in writes
      ensures AppliedIn(applied, e.path)
    {
      assert e in multiset(plan.transfer);
      if Namespace(e.path).Some? { assert Touches(plan.transfer, plan.delete, Namespace(e.path).value); }
    }
    forall p | p in deletes
      ensures AppliedIn(applied, p)
    {
      if Namespace(p).Some? { assert Touches(plan.transfer, plan.delete, Namespace(p).value); }
    }
    AllCount(writes, deletes, applied, plan.transfer);
  }

  /** The last step of a pull: publish the staged namespaces and sum up. */
  method PublishPulled(workspace: Workspace, tracker: Tracker, plan: Plan, mode: SyncMode, source: Replica,
                       ghost half: Halfway)
    returns (r: PullResult)
    requires workspace.transfer.Fresh() && GroupsOf(workspace.transfer.groups, plan.transfer, plan.delete)
    requires ReadyToPublish(plan, mode, source, half, workspace.files)
    requires workspace.transfer.disk.staging == half.landed.staging
    requires Reported(workspace.files, half.start.files, false, tracker.writes, tracker.deletes, false)
    modifies workspace.transfer`applied, workspace.transfer`rollbackFailed, workspace.transfer.disk
    ensures r.Pulled? ==>
      ShowsPulled(workspace.files, workspace.transfer.disk.root, half.start.files, old(workspace.transfer.disk.root),
                  source, plan, mode, workspace.transfer.disk.misread)
    ensures NamespacesLeft(workspace.transfer.disk.root, old(workspace.transfer.disk.root), source, plan,
                           workspace.transfer.rollbackFailed)
    ensures workspace.transfer.rollbackFailed ==>
      TwiceRefused(old(workspace.transfer.disk.refused), workspace.transfer.disk.refused)
    ensures NoFalseFault(old(workspace.transfer.disk.faulted), workspace.transfer.disk.faulted,
                         workspace.transfer.disk.reliable)
    ensures r.PullFailed? ==> workspace.transfer.disk.faulted
    ensures workspace.transfer.SlipsAreFaults()
    ensures r.Pulled? && Complete(tracker.writes, tracker.deletes, plan, mode) ==> SumsUp(r.summary, plan, mode)
    ensures r.PullFailed? ==>
      || Unchanged(workspace.files, workspace.transfer.disk.root, half.start.files, old(workspace.transfer.disk.root))
      || r.localApplied.Changed() || r.localTargetChanged
  {
    var disk := workspace.transfer.disk;
    ghost var from, groups := disk.Now(), workspace.transfer.groups;
    GroupsAreHomogeneous(groups, plan);
    var committed, order, k := workspace.transfer.Commit();
    StoppedLeaves(groups, plan, order, k, from, disk.Now(), disk.misread, workspace.transfer.rollbackFailed, source,
                  half);
    if committed.Ok? {
      ProgressIsCommitted(groups, plan, order, from, disk.Now(), disk.misread);
      CommittedShows(groups, plan, mode, from, disk.Now(), disk.misread, source, half, workspace.files);
      assert order[..k] == order;
    } else {
      assert order[k] in order;
      LandedIsReady(plan.transfer, source, half.landed, half.start, order[k]);
    }
    r := SumUp(workspace, tracker, committed);
    if r.Pulled? && Complete(tracker.writes, tracker.deletes, plan, mode) {
      AllApplied(plan, mode, workspace.transfer.applied, tracker.writes, tracker.deletes);
    }
  }

  /** The report of a pull whose commit came to an end. */
  method SumUp(workspace: Workspace, tracker: Tracker, committed: Result<()>) returns (r: PullResult)
    ensures r == var summary := SummaryOf(tracker.writes, tracker.deletes, workspace.transfer.applied);
                 if committed.Ok? then Pulled(summary)
                 else PullFailed(committed.error, summary, workspace.transfer.Changed())
    ensures r.PullFailed? && PlainChange(tracker.writes, tracker.deletes) ==> r.localApplied.Changed()
  {
    var summary := tracker.Summary(workspace.transfer);
    SummaryShows(tracker.writes, tracker.deletes, workspace.transfer.applied);
    r := if committed.Ok? then Pulled(summary) else PullFailed(committed.error, summary, workspace.transfer.Changed());
  }

  /** Once every planned file has landed, `x` is a directory. */
  ghost predicate MakesDir(paths: set<Path>, x: Path) { exists p :: p in paths && Needs(p, x) }

  /** Once every planned file has landed, one of them stands above `x`. */
  ghost predicate PutsFileAbove(paths: set<Path>, x: Path) { exists p :: p in paths && Namespace(p).None? && p < x }

  /**
   Nothing but a fault, the stream, or a clash of tasks can stop the pull: every planned path is
   free, and in mirror mode every planned delete has a prune decision and is no directory and below
   no file, now or once the files landed.
   */
  ghost predicate Unhindered(plan: Plan, mode: SyncMode, table: seq<Definition>, start: Side) {
    && Smooth(PathSet(plan.transfer), start)
    && (mode.Mirror? ==>
          && Erasable(table, start.files, start.dirs, plan.delete)
          && forall p :: p in plan.delete && Namespace(p).None? ==>
               !MakesDir(PathSet(plan.transfer), p) && !PutsFileAbove(PathSet(plan.transfer), p))
  }

  lemma HinderedDeletes(plan: Plan, mode: SyncMode, table: seq<Definition>, source: Replica, half: Halfway)
    requires Landed(PathSet(plan.transfer), source, half.landed, half.start)
    requires mode.Mirror? && !Erasable(table, half.landed.files, half.landed.dirs, plan.delete)
    ensures !Unhindered(plan, mode, table, half.start)
  {
    var landed, paths := half.landed, PathSet(plan.transfer);
    var p :| p in plan.delete && !Erases(table, landed.files, landed.dirs, p);
    if p in landed.dirs && p !in half.start.dirs {
      assert MakesDir(paths, p);
    }
    if Prune.FileAbove(landed.files.Keys, p) {
      var x :| x in landed.files.Keys && x < p;
      assert Get(landed.files, x)
        == if x in paths && Namespace(x).None? then Get(source, x) else Get(half.start.files, x);
      if x in paths && Namespace(x).None? { assert PutsFileAbove(paths, p); }
    }
  }

  /** A side is a file system: what stands above a file is a directory, and no directory is a file. */
  ghost predicate WellFormed(s: Side) {
    && s.files.Keys !! s.dirs
    && forall p, x: Path :: p in s.files && x < p ==> x in s.dirs
  }

  /** A file in the place of a scan root: deletion finds its prune boundary at the file itself and refuses. */
  ghost predicate AtBoundary(table: seq<Definition>, p: Path) { !ExactFile(table, p) && DeepestRoot(table, p, p) }

  /**
   A planned sync is hindered by nothing but blocked paths and deletes of files in the place of a
   scan root: what a plan deletes is there, so nothing that arrives can stand in a delete's way
   without being blocked itself.
   */
  lemma PlannedUnhindered(sm: seq<Entry>, tm: seq<Entry>, source: Replica, target: Replica, mode: SyncMode,
                          overwrite: OverwritePolicy, scope: Scope, plan: Plan, table: seq<Definition>,
                          ids: seq<string>, start: Side)
    requires IsManifest(sm, source, scope) && IsManifest(tm, target, scope)
    requires IsPlan(plan, sm, tm, mode, overwrite) && Resolves(scope.policy, table, ids)
    requires WellFormed(start) && forall p :: p in target && Namespace(p).None? ==> p in start.files
    ensures Unhindered(plan, mode, table, start) <==>
      && Smooth(PathSet(plan.transfer), start)
      && forall p :: p in plan.delete && Namespace(p).None? ==> !AtBoundary(table, p)
    ensures AllRemovable(table, plan.delete) <==>
      forall p :: p in plan.delete && Namespace(p).None? ==> !AtBoundary(table, p)
  {
    forall p | p in plan.delete && Namespace(p).None?
      ensures p in start.files && InCatalog(table, p) && mode.Mirror?
      ensures Smooth(PathSet(plan.transfer), start) ==>
        !MakesDir(PathSet(plan.transfer), p) && !PutsFileAbove(PathSet(plan.transfer), p)
      ensures Erases(table, start.files, start.dirs, p) <==> !AtBoundary(table, p)
    {
      PlanPaths(sm, tm, source, target, mode, overwrite, scope, plan, p);
      DeletableInCatalog(scope.policy, table, ids, p);
      if q :| q in PathSet(plan.transfer) && Needs(q, p) { assert Blocked(start, q); }
      if q :| q in PathSet(plan.transfer) && Namespace(q).None? && q < p { assert Blocked(start, q); }
    }
  }

  // ---------------------------------------------------------------- the pull

  /** The deletes of a pull, in mirror mode only; a failure ends the pull with a report. */
  method DeletePulled(workspace: Workspace, tracker: Tracker, plan: Plan, mode: SyncMode, source: Replica,
                      ghost half: Halfway)
    returns (failure: Option<PullResult>)
    requires TableShaped(workspace.table) && half.landed == workspace.Now() && tracker.deletes == []
    requires Landed(PathSet(plan.transfer), source, half.landed, half.start)
    requires Reported(workspace.files, half.start.files, false, tracker.writes, [], false)
    modifies workspace`files, workspace`dirs, workspace.transfer.disk`faulted, tracker`deletes
    ensures NoFalseFault(old(workspace.transfer.disk.faulted), workspace.transfer.disk.faulted,
                         workspace.transfer.disk.reliable)
    ensures failure.None? ==>
      && Deleted(workspace.files, half.landed.files, DeletesOf(plan, mode))
      && AllRemovable(workspace.table, DeletesOf(plan, mode))
      && tracker.deletes == DeletesOf(plan, mode)
      && Reported(workspace.files, half.start.files, false, tracker.writes, tracker.deletes, false)
    ensures failure.Some? ==>
      failure.value.PullFailed?
      && (workspace.transfer.disk.faulted || !Unhindered(plan, mode, workspace.table, half.start))
      && (|| workspace.files == half.start.files
          || failure.value.localApplied.Changed() || failure.value.localTargetChanged)
    ensures Thinned(workspace.files, half.landed.files, DeletesOf(plan, mode))
  {
    var deletes := DeleteFiles(workspace, tracker, DeletesOf(plan, mode), half.start.files);
    if deletes.AllDeleted? {
      return None;
    }
    if !workspace.transfer.disk.faulted { HinderedDeletes(plan, mode, workspace.table, source, half); }
    var summary := tracker.Summary(workspace.transfer);
    SummaryShows(tracker.writes, tracker.deletes, workspace.transfer.applied);
    return Some(PullFailed(deletes.error, summary, deletes.targetChanged));
  }

  /** Deletes and commit, once the planned files have arrived. */
  method FinishPull(workspace: Workspace, tracker: Tracker, plan: Plan, mode: SyncMode, source: Replica,
                    ghost limit: nat, ghost half: Halfway)
    returns (r: PullResult)
    requires TableShaped(workspace.table) && half.landed == workspace.Now() && half.start.staging == map[]
    requires Landed(PathSet(plan.transfer), source, half.landed, half.start)
    requires Serves(source, plan.transfer) && DisjointFrom(plan.delete, plan.transfer) && tracker.deletes == []
    requires Reported(workspace.files, half.start.files, false, tracker.writes, [], false)
    requires workspace.transfer.Fresh() && GroupsOf(workspace.transfer.groups, plan.transfer, plan.delete)
    modifies workspace`files, workspace`dirs, tracker`deletes
    modifies workspace.transfer`applied, workspace.transfer`rollbackFailed, workspace.transfer.disk
    ensures NoFalseFault(old(workspace.transfer.disk.faulted), workspace.transfer.disk.faulted,
                         workspace.transfer.disk.reliable)
    ensures workspace.transfer.SlipsAreFaults()
    ensures r.Pulled? ==>
      ShowsPulled(workspace.files, workspace.transfer.disk.root, half.start.files, old(workspace.transfer.disk.root),
                  source, plan, mode, workspace.transfer.disk.misread)
    ensures r.Pulled? ==> AllRemovable(workspace.table, DeletesOf(plan, mode))
    ensures r.Pulled? && multiset(tracker.writes) == multiset(plan.transfer) ==> SumsUp(r.summary, plan, mode)
    ensures r.PullFailed? ==> workspace.transfer.disk.faulted || !Unhindered(plan, mode, workspace.table, half.start)
    ensures r.PullFailed? ==>
      || Unchanged(workspace.files, workspace.transfer.disk.root, half.start.files, old(workspace.transfer.disk.root))
      || r.localApplied.Changed() || r.localTargetChanged
    ensures FilesLeft(workspace.files, half.start.files, source, plan, mode, limit)
    ensures InOrder(workspace.files, workspace.transfer.disk.root, half.start.files, old(workspace.transfer.disk.root),
                    source, plan, mode)
    ensures NamespacesLeft(workspace.transfer.disk.root, old(workspace.transfer.disk.root), source, plan,
                           workspace.transfer.rollbackFailed)
    ensures workspace.transfer.rollbackFailed ==>
      TwiceRefused(old(workspace.transfer.disk.refused), workspace.transfer.disk.refused)
  {
    LandedLeft(plan.transfer, source, half.landed, half.start, limit);
    var failure := DeletePulled(workspace, tracker, plan, mode, source, half);
    LeftThenThinned(workspace.files, half.landed.files, half.start.files, source, plan, mode, limit);
    StillInPlace(workspace.files, half.landed, half.start, source, plan, mode);
    if failure.Some? {
      return failure.value;
    }
    r := PublishPulled(workspace, tracker, plan, mode, source, half);
  }

  /**
   `apply_pull_plan`, by either route. Success leaves every path exactly as planned, and then no
   planned path was blocked and no planned delete refused; it fails only by a fault, by a stream
   that is not what the plan calls for, by tasks that share a temporary file, or because a path
   hinders it. Finished or not, it leaves each file old, planned or deleted, and each namespace
   whole; a failure that changed the visible tree says so, unless a task crashed.
   */
  method ApplyPullPlan(workspace: Workspace, plan: Plan, mode: SyncMode, source: Replica, bundle: Option<Source>,
                       fileConcurrency: nat)
    returns (r: PullResult, ghost panicked: bool)
    requires fileConcurrency > 0 && Serves(source, plan.transfer) && TableShaped(workspace.table)
    requires AllValid(plan.transfer) && DisjointFrom(plan.delete, plan.transfer)
    requires bundle.Some? ==> !bundle.value.faulted && BundleServes(bundle.value.rest, source, plan.transfer)
    requires workspace.transfer.Fresh() && workspace.transfer.disk.staging == map[]
    requires GroupsOf(workspace.transfer.groups, plan.transfer, plan.delete)
    modifies workspace`files, workspace`dirs
    modifies workspace.transfer`applied, workspace.transfer`rollbackFailed, workspace.transfer.disk
    modifies if bundle.Some? then {bundle.value} else {}
    ensures NoFalseFault(old(workspace.transfer.disk.faulted), workspace.transfer.disk.faulted,
                         workspace.transfer.disk.reliable)
    ensures workspace.transfer.SlipsAreFaults() && (StreamFaulted(bundle) ==> !StreamReliable(bundle))
    ensures r.Pulled? ==>
      ShowsPulled(workspace.files, workspace.transfer.disk.root, old(workspace.files),
                  old(workspace.transfer.disk.root),
                  source, plan, mode, workspace.transfer.disk.misread)
    ensures r.Pulled? ==> Smooth(PathSet(plan.transfer), old(workspace.Now()))
    ensures r.Pulled? ==> AllRemovable(workspace.table, DeletesOf(plan, mode))
    ensures r.Pulled? && DistinctPaths(plan.transfer) ==> SumsUp(r.summary, plan, mode)
    ensures r.PullFailed? ==>
      || workspace.transfer.disk.faulted || StreamFaulted(bundle) || old(StreamFails(bundle, plan.transfer))
      || !Unhindered(plan, mode, workspace.table, old(workspace.Now()))
      || Crowded(plan.transfer, TasksAtOnce(bundle, fileConcurrency))
    ensures r.PullFailed? ==>
      || Unchanged(workspace.files, workspace.transfer.disk.root,
                   old(workspace.files), old(workspace.transfer.disk.root))
      || r.localApplied.Changed() || r.localTargetChanged || panicked
    ensures FilesLeft(workspace.files, old(workspace.files), source, plan, mode, TasksAtOnce(bundle, fileConcurrency))
    ensures InOrder(workspace.files, workspace.transfer.disk.root, old(workspace.files),
                    old(workspace.transfer.disk.root), source, plan, mode)
    ensures NamespacesLeft(workspace.transfer.disk.root, old(workspace.transfer.disk.root), source, plan,
                           workspace.transfer.rollbackFailed)
    ensures workspace.transfer.rollbackFailed ==>
      TwiceRefused(old(workspace.transfer.disk.refused), workspace.transfer.disk.refused)
  {
    ghost var start, limit := workspace.Now(), TasksAtOnce(bundle, fileConcurrency);
    var tracker := new Tracker();
    var delivery, crashed := Deliver(workspace, tracker, plan.transfer, source, bundle, fileConcurrency);
    panicked := crashed;
    if delivery.DeliverFailed? {
      LeftThenThinned(workspace.files, workspace.files, start.files, source, plan, mode, limit);
      NothingGone(workspace.files, workspace.transfer.disk.root, start.files, source, plan, mode, limit);
      return PullFailed(delivery.error, delivery.localApplied, delivery.localTargetChanged), panicked;
    }
    ghost var half := Halfway(start, workspace.Now());
    r := FinishPull(workspace, tracker, plan, mode, source, limit, half);
  }

  /**
   For plans the planner makes, a pull reaches the promised end state of the sync at exactly the
   paths that are not left over in a namespace the commit forgot.
   */
  lemma PullReachesFinal(sm: seq<Entry>, tm: seq<Entry>, source: Replica, target: Replica, mode: SyncMode,
                         overwrite: OverwritePolicy, scope: Scope, plan: Plan, misread: set<string>, p: Path)
    requires scope.policy.Shaped()
    requires IsManifest(sm, source, scope) && IsManifest(tm, target, scope)
    requires IsPlan(plan, sm, tm, mode, overwrite)
    ensures PulledAt(Get(source, p), Get(target, p), plan, mode, misread, p)
      == Final(source, target, mode, overwrite, scope, p)
      <==> !(p in target && Namespace(p).Some? && Touches(plan.transfer, plan.delete, Namespace(p).value)
             && Forgotten(plan, misread, Namespace(p).value))
  {
    PlanReachesFinal(sm, tm, source, target, mode, overwrite, scope, plan, p);
    PlanPaths(sm, tm, source, target, mode, overwrite, scope, plan, p);
    if p in plan.delete && Namespace(p).Some? {
      var i :| 0 <= i < |plan.delete| && plan.delete[i] == p;
      assert Touches(plan.transfer, plan.delete, Namespace(p).value);
    }
    if Namespace(p).Some? && ListsPath(plan.transfer, p) {
      ListedHasEntries(plan.transfer, p, Namespace(p).value);
    }
  }

  /** The files of one tree never block each other, so only what the receiving side already has can. */
  lemma OnlyTheTargetBlocks(sm: seq<Entry>, tm: seq<Entry>, source: Replica, target: Replica, mode: SyncMode,
                            overwrite: OverwritePolicy, scope: Scope, plan: Plan, start: Side)
    requires IsManifest(sm, source, scope) && IsManifest(tm, target, scope) && IsTree(source)
    requires IsPlan(plan, sm, tm, mode, overwrite)
    ensures Smooth(PathSet(plan.transfer), start) <==> forall p :: ListsPath(plan.transfer, p) ==> !Blocked(start, p)
  {
    forall p
      ensures p in PathSet(plan.transfer) <==> ListsPath(plan.transfer, p)
      ensures p in PathSet(plan.transfer) ==> p in source
    {
      PlanPaths(sm, tm, source, target, mode, overwrite, scope, plan, p);
    }
  }

  /** A source file below a file of the target stops every pull, also one that would delete the target's file. */
  lemma FileAboveStopsThePull(sm: seq<Entry>, tm: seq<Entry>, source: Replica, target: Replica, mode: SyncMode,
                              overwrite: OverwritePolicy, scope: Scope, plan: Plan, start: Side, p: Path, q: Path)
    requires IsManifest(sm, source, scope) && IsManifest(tm, target, scope)
    requires IsPlan(plan, sm, tm, mode, overwrite)
    requires Lists(source, scope, p) && p !in target && Namespace(p).None? && q in start.files && q < p
    ensures !Smooth(PathSet(plan.transfer), start)
  {
    PlanPaths(sm, tm, source, target, mode, overwrite, scope, plan, p);
    ManifestLookup(tm, target, scope, p);
    assert p in PathSet(plan.transfer);
    assert Needs(p, q);
  }
}
