/** A sync from beginning to end: scan both sides, plan, transfer, delete and publish. */
module WholeSync {
  import opened Wrappers
  import opened Paths
  import opened Catalog
  import opened Policy
  import opened Manifest
  import opened Planner
  import opened Sync
  import opened Publish
  import opened Temporaries
  import opened Engine
  import opened BundleCodec
  import opened BundleStream
  import opened BundleReader
  import opened Pull
  import opened Push
  import opened Listing
  import opened Retry
  import Scan

  // ---------------------------------------------------------------- planning

  /** What a scan of one side meets: its trees, and the status of its agent runs. */
  datatype Seen = Seen(located: Scan.Located, statuses: Scan.Statuses) {
    ghost predicate Of(r: Replica, scope: Scope) {
      Reflects(r, located, statuses, scope) && forall p :: located(p).Some? ==> Scan.DistinctNames(located(p).value)
    }

    ghost predicate Readable(policy: ResolvedPolicy) { Scan.Scannable(located, policy, statuses) }
  }

  /** The two manifests are those of the sides, and the plan is made from them. */
  ghost predicate Planned(plan: Plan, sm: seq<Entry>, tm: seq<Entry>, source: Replica, target: Replica, mode: SyncMode,
                          overwrite: OverwritePolicy, scope: Scope) {
    && IsManifest(sm, source, scope) && IsManifest(tm, target, scope)
    && IsPlan(plan, sm, tm, mode, overwrite)
  }

  /** The plan is ready to be carried out: its paths are sound, and the source serves it. */
  ghost predicate Sound(plan: Plan, source: Replica) {
    AllValid(plan.transfer) && Serves(source, plan.transfer) && DisjointFrom(plan.delete, plan.transfer)
  }

  lemma PlannedIsSound(plan: Plan, sm: seq<Entry>, tm: seq<Entry>, source: Replica, target: Replica, mode: SyncMode,
                       overwrite: OverwritePolicy, scope: Scope)
    requires Planned(plan, sm, tm, source, target, mode, overwrite, scope)
    requires Scan.Renderable(sm) && ScopedPlan(plan, scope.policy)
    ensures Sound(plan, source)
  {
    TransferMembers(sm, sm, tm, overwrite);
    forall e | e in plan.transfer
      ensures ValidPath(e.path) && Lasting(e.path) && ServesOne(source, e)
    {
      assert e in sm;
      InScopeIsLasting(e.path);
    }
  }

  /** Scan both sides and plan: the client's scan, and the peer's in its answer to the plan request. */
  method MakePlan(id: string, sourceSeen: Seen, targetSeen: Seen, mode: SyncMode, overwrite: OverwritePolicy,
                  scope: Scope, reliable: bool, ghost source: Replica, ghost target: Replica)
    returns (r: Result<Plan>, ghost sm: seq<Entry>, ghost tm: seq<Entry>, ghost astray: bool)
    requires scope.policy.Shaped() && sourceSeen.Of(source, scope) && targetSeen.Of(target, scope)
    ensures r.Ok? ==> Planned(r.value, sm, tm, source, target, mode, overwrite, scope) && Sound(r.value, source)
    ensures r.Err? && !astray && sourceSeen.Readable(scope.policy) && targetSeen.Readable(scope.policy) ==>
      && IsManifest(sm, source, scope) && IsManifest(tm, target, scope)
      && SumSizes(Transfers(sm, sm, tm, overwrite)) >= U64_LIMIT
    ensures r.Ok? ==> r.value.id == id
    ensures astray ==> !reliable
  {
    sm, tm := [], [];
    var targetScan, targetFault := Scan.ScanManifest(targetSeen.located, scope.policy, targetSeen.statuses, reliable);
    astray := targetFault;
    if targetScan.Err? {
      return Err(targetScan.error), sm, tm, astray;
    }
    var sourceScan, sourceFault := Scan.ScanManifest(sourceSeen.located, scope.policy, sourceSeen.statuses, reliable);
    astray := astray || sourceFault;
    if sourceScan.Err? {
      return Err(sourceScan.error), sm, tm, astray;
    }
    sm, tm := sourceScan.value, targetScan.value;
    ScanIsManifest(sm, source, sourceSeen.located, sourceSeen.statuses, scope);
    ScanIsManifest(tm, target, targetSeen.located, targetSeen.statuses, scope);
    ManifestIsScoped(sm, source, scope);
    ManifestIsScoped(tm, target, scope);
    r := ComputePlanForPolicy(id, sourceScan.value, targetScan.value, mode, scope.policy, overwrite);
    if r.Ok? { PlannedIsSound(r.value, sm, tm, source, target, mode, overwrite, scope); }
  }

  lemma ManifestIsScoped(m: seq<Entry>, r: Replica, scope: Scope)
    requires IsManifest(m, r, scope)
    ensures ScopedManifest(m, scope.policy)
  {
    forall i | 0 <= i < |m|
      ensures scope.policy.ContainsPath(m[i].path)
    {
      assert m[i] in m;
    }
  }

  // ---------------------------------------------------------------- carrying the plan out

  /** Without faults, and with a peer that streams what the plan calls for, the plan can be carried out. */
  ghost predicate Passable(plan: Plan, table: seq<Definition>, start: Side) {
    && Smooth(PathSet(plan.transfer), start)
    && forall p :: p in plan.delete && Namespace(p).None? ==> !AtBoundary(table, p)
  }

  /** A path left over in a namespace that should have gone, because a failed lookup missed its directory. */
  ghost predicate LeftOver(plan: Plan, misread: set<string>, target: Replica, p: Path) {
    && p in target && Namespace(p).Some? && Touches(plan.transfer, plan.delete, Namespace(p).value)
    && Forgotten(plan, misread, Namespace(p).value)
  }

  /** Every path shows the promised end state, but for what is left over. */
  ghost predicate ReachesFinal(files: Replica, root: map<string, Directory>, source: Replica, target: Replica,
                               mode: SyncMode, overwrite: OverwritePolicy, scope: Scope, plan: Plan,
                               misread: set<string>) {
    forall p :: ViewAt(files, root, p) == Final(source, target, mode, overwrite, scope, p)
      <==> !LeftOver(plan, misread, target, p)
  }

  lemma PulledIsFinal(files: Replica, root: map<string, Directory>, files0: Replica, root0: map<string, Directory>,
                      sm: seq<Entry>, tm: seq<Entry>, source: Replica, target: Replica, mode: SyncMode,
                      overwrite: OverwritePolicy, scope: Scope, plan: Plan, misread: set<string>)
    requires scope.policy.Shaped() && Planned(plan, sm, tm, source, target, mode, overwrite, scope)
    requires Shows(target, files0, root0)
    requires ShowsPulled(files, root, files0, root0, source, plan, mode, misread)
    ensures ReachesFinal(files, root, source, target, mode, overwrite, scope, plan, misread)
  {
    forall p
      ensures ViewAt(files, root, p) == Final(source, target, mode, overwrite, scope, p)
        <==> !LeftOver(plan, misread, target, p)
    {
      assert Get(target, p) == ViewAt(files0, root0, p);
      assert ViewAt(files, root, p)
        == PulledAt(Get(source, p), ViewAt(files0, root0, p), plan, mode, misread, p);
      PullReachesFinal(sm, tm, source, target, mode, overwrite, scope, plan, misread, p);
    }
  }

  /** For a planned sync, what hinders it and what does not. */
  lemma HinderedMeaning(plan: Plan, sm: seq<Entry>, tm: seq<Entry>, source: Replica, target: Replica, mode: SyncMode,
                        overwrite: OverwritePolicy, scope: Scope, table: seq<Definition>, ids: seq<string>,
                        start: Side, root: map<string, Directory>)
    requires Planned(plan, sm, tm, source, target, mode, overwrite, scope) && Resolves(scope.policy, table, ids)
    requires WellFormed(start) && Shows(target, start.files, root)
    ensures Unhindered(plan, mode, table, start) <==> Passable(plan, table, start)
    ensures Smooth(PathSet(plan.transfer), start) && AllRemovable(table, DeletesOf(plan, mode)) <==>
      Passable(plan, table, start)
  {
    forall p | p in target && Namespace(p).None?
      ensures p in start.files
    {
      assert Get(target, p) == ViewAt(start.files, root, p);
    }
    PlannedUnhindered(sm, tm, source, target, mode, overwrite, scope, plan, table, ids, start);
  }

  lemma ApplyLeavesBehind(now: Side, start: Side, root: map<string, Directory>, root0: map<string, Directory>,
                          source: Replica, target: Replica, plan: Plan, mode: SyncMode, limit: nat, torn: bool)
    requires Shows(target, start.files, root0)
    requires FilesLeft(now.files, start.files, source, plan, mode, limit)
    requires NamespacesLeft(root, root0, source, plan, torn)
    ensures forall left :: Shows(left, now.files, root) ==> LeftBehind(left, target, source, plan, mode, limit, torn)
  {
    forall left | Shows(left, now.files, root)
      ensures LeftBehind(left, target, source, plan, mode, limit, torn)
    {
      PullLeavesBehind(left, target, source, plan, mode, limit, torn, now, start, root, root0);
    }
  }

  /** What the peer streams for a plan, if it sends bundles. */
  type Streams = seq<Entry> -> Option<string>

  ghost predicate StreamsServe(streams: Streams, source: Replica) {
    forall transfer :: AllValid(transfer) && Serves(source, transfer) && streams(transfer).Some? ==>
      BundleServes(streams(transfer).value, source, transfer)
  }

  /** The stream the peer sends for the plan is refused by the format. */
  ghost predicate StreamRefused(streams: Streams, transfer: seq<Entry>)
    requires AllValid(transfer)
  {
    streams(transfer).Some? && Read(streams(transfer).value, SizesOf(ExpectedOf(transfer))).result.Err?
  }

  /** One bundle stream leaves one file at a time; without it as many as the client asks for. */
  function Width(streams: Streams, transfer: seq<Entry>, fileConcurrency: nat): nat {
    if streams(transfer).Some? then 1 else fileConcurrency
  }

  /** Once there is a plan: tell the workspace, and apply it by the route the peer offers. */
  method CarryOutPull(workspace: Workspace, plan: Plan, streams: Streams, mode: SyncMode, source: Replica,
                      fileConcurrency: nat)
    returns (r: PullResult, ghost astray: bool)
    requires fileConcurrency > 0 && TableShaped(workspace.table)
    requires Sound(plan, source) && StreamsServe(streams, source)
    requires workspace.transfer.Fresh() && workspace.transfer.groups == map[]
    requires workspace.transfer.disk.staging == map[]
    modifies workspace`files, workspace`dirs, workspace.transfer, workspace.transfer.disk
    ensures astray ==> old(workspace.transfer.disk.faulted) || !workspace.transfer.disk.reliable
    ensures workspace.transfer.SlipsAreFaults() && (workspace.transfer.disk.faulted ==> astray)
    ensures r.Pulled? ==>
      ShowsPulled(workspace.files, workspace.transfer.disk.root, old(workspace.files),
                  old(workspace.transfer.disk.root), source, plan, mode, workspace.transfer.disk.misread)
    ensures r.Pulled? ==>
      Smooth(PathSet(plan.transfer), old(workspace.Now()))
      && AllRemovable(workspace.table, DeletesOf(plan, mode))
    ensures r.PullFailed? ==>
      || astray || StreamRefused(streams, plan.transfer)
      || !Unhindered(plan, mode, workspace.table, old(workspace.Now()))
      || Crowded(plan.transfer, Width(streams, plan.transfer, fileConcurrency))
    ensures FilesLeft(workspace.files, old(workspace.files), source, plan, mode,
                      Width(streams, plan.transfer, fileConcurrency))
    ensures NamespacesLeft(workspace.transfer.disk.root, old(workspace.transfer.disk.root), source, plan,
                           workspace.transfer.rollbackFailed)
    ensures workspace.transfer.rollbackFailed ==>
      TwiceRefused(old(workspace.transfer.disk.refused), workspace.transfer.disk.refused)
  {
    workspace.transfer.SetPlan(plan);
    var bundle: Option<Source> := None;
    if streams(plan.transfer).Some? {
      var stream := new Source(streams(plan.transfer).value, workspace.transfer.disk.reliable);
      bundle := Some(stream);
    }
    ghost var crashed;
    r, crashed := ApplyPullPlan(workspace, plan, mode, source, bundle, fileConcurrency);
    astray := workspace.transfer.disk.faulted || StreamFaulted(bundle);
  }

  /**
   `pull`, from the two scans to the published result. Success leaves every path of the client in the
   end state promised for the two sides, but for namespaces a failed lookup left over; without faults
   it succeeds exactly if both sides can be scanned, the sizes fit, every planned path is free and no
   planned delete is a scan root's own path, given a stream that answers the plan and no tasks that
   share a temporary file. A failure leaves what `Retry` starts from.
   */
  method PullAll(workspace: Workspace, id: string, sourceSeen: Seen, targetSeen: Seen, streams: Streams,
                 mode: SyncMode, overwrite: OverwritePolicy, scope: Scope, source: Replica, ghost target: Replica,
                 ghost ids: seq<string>, fileConcurrency: nat)
    returns (r: PullResult, ghost plan: Option<Plan>, ghost sm: seq<Entry>, ghost tm: seq<Entry>, ghost astray: bool)
    requires fileConcurrency > 0 && scope.policy.Shaped() && TableShaped(workspace.table)
    requires Resolves(scope.policy, workspace.table, ids)
    requires sourceSeen.Of(source, scope) && targetSeen.Of(target, scope) && StreamsServe(streams, source)
    requires Shows(target, workspace.files, workspace.transfer.disk.root) && WellFormed(workspace.Now())
    requires workspace.transfer.Fresh() && workspace.transfer.groups == map[]
    requires workspace.transfer.disk.staging == map[]
    modifies workspace`files, workspace`dirs, workspace.transfer, workspace.transfer.disk
    ensures astray ==> old(workspace.transfer.disk.faulted) || !workspace.transfer.disk.reliable
    ensures workspace.transfer.disk.misread != {} || workspace.transfer.rollbackFailed ==> astray
    ensures r.Pulled? ==> plan.Some?
    ensures plan.Some? ==>
      Planned(plan.value, sm, tm, source, target, mode, overwrite, scope) && Sound(plan.value, source)
    ensures r.Pulled? ==>
      ReachesFinal(workspace.files, workspace.transfer.disk.root, source, target, mode, overwrite, scope, plan.value,
                   workspace.transfer.disk.misread)
    ensures r.Pulled? ==> Passable(plan.value, workspace.table, old(workspace.Now()))
    ensures r.PullFailed? && plan.Some? ==>
      || astray || StreamRefused(streams, plan.value.transfer)
      || !Passable(plan.value, workspace.table, old(workspace.Now()))
      || Crowded(plan.value.transfer, Width(streams, plan.value.transfer, fileConcurrency))
    ensures plan.None? ==>
      && workspace.Now() == old(workspace.Now()) && workspace.transfer.disk.root == old(workspace.transfer.disk.root)
    ensures plan.None? && !astray && sourceSeen.Readable(scope.policy) && targetSeen.Readable(scope.policy) ==>
      && IsManifest(sm, source, scope) && IsManifest(tm, target, scope)
      && SumSizes(Transfers(sm, sm, tm, overwrite)) >= U64_LIMIT
    ensures plan.Some? ==> forall left :: Shows(left, workspace.files, workspace.transfer.disk.root) ==>
      LeftBehind(left, target, source, plan.value, mode, Width(streams, plan.value.transfer, fileConcurrency),
                 workspace.transfer.rollbackFailed)
    ensures workspace.transfer.rollbackFailed ==>
      TwiceRefused(old(workspace.transfer.disk.refused), workspace.transfer.disk.refused)
  {
    plan := None;
    var made;
    made, sm, tm, astray := MakePlan(id, sourceSeen, targetSeen, mode, overwrite, scope,
                                      workspace.transfer.disk.reliable, source, target);
    if made.Err? {
      return PullFailed(made.error, LocalChangeSummary(0, 0, 0), false), plan, sm, tm, astray;
    }
    plan := Some(made.value);
    ghost var start, root0 := workspace.Now(), workspace.transfer.disk.root;
    ghost var strayed;
    r, strayed := CarryOutPull(workspace, made.value, streams, mode, source, fileConcurrency);
    astray := astray || strayed;
    HinderedMeaning(made.value, sm, tm, source, target, mode, overwrite, scope, workspace.table, ids, start, root0);
    ApplyLeavesBehind(workspace.Now(), start, workspace.transfer.disk.root, root0, source, target, made.value, mode,
                      Width(streams, made.value.transfer, fileConcurrency), workspace.transfer.rollbackFailed);
    if r.Pulled? {
      PulledIsFinal(workspace.files, workspace.transfer.disk.root, start.files, root0, sm, tm, source, target, mode,
                    overwrite, scope, made.value, workspace.transfer.disk.misread);
    }
  }

  /** Once there is a plan for the store: note its groups, and push file by file. */
  method CarryOutPush(remote: Workspace, plan: Plan, mode: SyncMode, local: Replica, fileConcurrency: nat)
    returns (r: UploadResult)
    requires fileConcurrency > 0 && TableShaped(remote.table)
    requires Sound(plan, local) && (mode.Incremental? ==> plan.delete == [])
    requires remote.transfer.Fresh() && remote.transfer.groups == map[] && remote.transfer.disk.staging == map[]
    modifies remote`files, remote`dirs, remote.transfer, remote.transfer.disk
    ensures NoFalseFault(old(remote.transfer.disk.faulted), remote.transfer.disk.faulted,
                         remote.transfer.disk.reliable)
    ensures remote.transfer.SlipsAreFaults()
    ensures r.Uploaded? ==>
      ShowsPulled(remote.files, remote.transfer.disk.root, old(remote.files), old(remote.transfer.disk.root), local,
                  plan, mode, remote.transfer.disk.misread)
    ensures r.Uploaded? ==>
      Smooth(PathSet(plan.transfer), old(remote.Now()))
      && AllRemovable(remote.table, DeletesOf(plan, mode))
    ensures r.UploadFailed? ==>
      || remote.transfer.disk.faulted || !Unhindered(plan, mode, remote.table, old(remote.Now()))
      || Crowded(plan.transfer, fileConcurrency)
    ensures r.UploadFailed? && !r.remoteMaybeChanged ==>
      Unchanged(remote.files, remote.transfer.disk.root, old(remote.files), old(remote.transfer.disk.root))
    ensures FilesLeft(remote.files, old(remote.files), local, plan, mode, fileConcurrency)
    ensures NamespacesLeft(remote.transfer.disk.root, old(remote.transfer.disk.root), local, plan,
                           remote.transfer.rollbackFailed)
    ensures remote.transfer.rollbackFailed ==>
      TwiceRefused(old(remote.transfer.disk.refused), remote.transfer.disk.refused)
  {
    remote.transfer.SetPlan(plan);
    r := ApplyPushPlan(remote, plan, mode, local, fileConcurrency);
  }

  /**
   `direct_push` file by file, from the two scans to the published result: the same for the store.
   A failure that does not flag the remote left its visible tree as it was.
   */
  method PushAll(remote: Workspace, id: string, sourceSeen: Seen, targetSeen: Seen, mode: SyncMode,
                 overwrite: OverwritePolicy, scope: Scope, local: Replica, ghost target: Replica,
                 ghost ids: seq<string>, fileConcurrency: nat)
    returns (r: UploadResult, ghost plan: Option<Plan>, ghost sm: seq<Entry>, ghost tm: seq<Entry>, ghost astray: bool)
    requires fileConcurrency > 0 && scope.policy.Shaped() && TableShaped(remote.table)
    requires Resolves(scope.policy, remote.table, ids)
    requires sourceSeen.Of(local, scope) && targetSeen.Of(target, scope)
    requires Shows(target, remote.files, remote.transfer.disk.root) && WellFormed(remote.Now())
    requires remote.transfer.Fresh() && remote.transfer.groups == map[] && remote.transfer.disk.staging == map[]
    modifies remote`files, remote`dirs, remote.transfer, remote.transfer.disk
    ensures astray ==> old(remote.transfer.disk.faulted) || !remote.transfer.disk.reliable
    ensures remote.transfer.disk.misread != {} || remote.transfer.rollbackFailed ==> astray
    ensures r.Uploaded? ==> plan.Some?
    ensures plan.Some? ==>
      Planned(plan.value, sm, tm, local, target, mode, overwrite, scope) && Sound(plan.value, local)
    ensures r.Uploaded? ==>
      ReachesFinal(remote.files, remote.transfer.disk.root, local, target, mode, overwrite, scope, plan.value,
                   remote.transfer.disk.misread)
    ensures r.Uploaded? ==> Passable(plan.value, remote.table, old(remote.Now()))
    ensures r.UploadFailed? && plan.Some? ==>
      || astray || !Passable(plan.value, remote.table, old(remote.Now()))
      || Crowded(plan.value.transfer, fileConcurrency)
    ensures r.UploadFailed? && !r.remoteMaybeChanged ==>
      Unchanged(remote.files, remote.transfer.disk.root, old(remote.files), old(remote.transfer.disk.root))
    ensures plan.None? && !astray && sourceSeen.Readable(scope.policy) && targetSeen.Readable(scope.policy) ==>
      && IsManifest(sm, local, scope) && IsManifest(tm, target, scope)
      && SumSizes(Transfers(sm, sm, tm, overwrite)) >= U64_LIMIT
    ensures plan.Some? ==> forall left :: Shows(left, remote.files, remote.transfer.disk.root) ==>
      LeftBehind(left, target, local, plan.value, mode, fileConcurrency, remote.transfer.rollbackFailed)
    ensures remote.transfer.rollbackFailed ==>
      TwiceRefused(old(remote.transfer.disk.refused), remote.transfer.disk.refused)
  {
    plan := None;
    var made;
    made, sm, tm, astray := MakePlan(id, sourceSeen, targetSeen, mode, overwrite, scope,
                                      remote.transfer.disk.reliable, local, target);
    if made.Err? {
      return UploadFailed(made.error, false), plan, sm, tm, astray;
    }
    plan := Some(made.value);
    ghost var start, root0 := remote.Now(), remote.transfer.disk.root;
    r := CarryOutPush(remote, made.value, mode, local, fileConcurrency);
    astray := astray || remote.transfer.disk.faulted;
    HinderedMeaning(made.value, sm, tm, local, target, mode, overwrite, scope, remote.table, ids, start, root0);
    ApplyLeavesBehind(remote.Now(), start, remote.transfer.disk.root, root0, local, target, made.value, mode,
                      fileConcurrency, remote.transfer.rollbackFailed);
    if r.Uploaded? {
      PulledIsFinal(remote.files, remote.transfer.disk.root, start.files, root0, sm, tm, local, target, mode,
                    overwrite, scope, made.value, remote.transfer.disk.misread);
    }
  }
}
