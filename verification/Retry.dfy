/** What a pull that failed has left, and what repeating it achieves. */
module Retry {
  import opened Wrappers
  import opened Paths
  import opened Policy
  import opened Rules
  import opened Manifest
  import opened Planner
  import opened Sync
  import opened Publish
  import opened Engine
  import opened Pull

  /** Two replicas have the same files in a namespace. */
  ghost predicate SameIn(a: Replica, b: Replica, d: string) {
    forall q :: Namespace(q) == Some(d) ==> Get(a, q) == Get(b, q)
  }

  /** The files of the namespace are exactly the planned ones, or, after a failed restore, there are none. */
  ghost predicate NamespaceBehind(left: Replica, source: Replica, transfer: seq<Entry>, torn: bool, d: string) {
    || (torn && forall p :: Namespace(p) == Some(d) ==> p !in left)
    || (forall p :: Namespace(p) == Some(d) ==>
          Get(left, p) == if ListsPath(transfer, p) then Get(source, p) else None)
  }

  /** The replica a pull of `plan` may leave of `target`, finished or not; `torn` says that a restore failed. */
  ghost predicate LeftBehind(left: Replica, target: Replica, source: Replica, plan: Plan, mode: SyncMode,
                             limit: nat, torn: bool) {
    && (forall p :: Namespace(p).None? ==>
          || Get(left, p) == Get(target, p)
          || LeftAt(left, source, plan.transfer, limit, p)
          || (mode.Mirror? && p in plan.delete && p !in left))
    && (forall d ::
          || SameIn(left, target, d)
          || (Touches(plan.transfer, plan.delete, d) && NamespaceBehind(left, source, plan.transfer, torn, d)))
  }

  ghost predicate Shows(r: Replica, files: Replica, root: map<string, Directory>) {
    forall p :: Get(r, p) == ViewAt(files, root, p)
  }

  /** That is what `ApplyPullPlan` says of the two views. */
  lemma PullLeavesBehind(left: Replica, target: Replica, source: Replica, plan: Plan, mode: SyncMode, limit: nat,
                         torn: bool,
                         now: Side, was: Side, root: map<string, Directory>, root0: map<string, Directory>)
    requires Shows(left, now.files, root) && Shows(target, was.files, root0)
    requires FilesLeft(now.files, was.files, source, plan, mode, limit)
    requires NamespacesLeft(root, root0, source, plan, torn)
    ensures LeftBehind(left, target, source, plan, mode, limit, torn)
  {
    forall p | Namespace(p).None?
      ensures Get(left, p) == Get(target, p) || LeftAt(left, source, plan.transfer, limit, p)
        || (mode.Mirror? && p in plan.delete && p !in left)
    {
      assert Get(left, p) == ViewAt(now.files, root, p) && Get(target, p) == ViewAt(was.files, root0, p);
      assert Get(now.files, p) == Get(was.files, p) || LeftAt(now.files, source, plan.transfer, limit, p)
        || (mode.Mirror? && Namespace(p).None? && p in plan.delete && p !in now.files);
    }
    forall d | !(Touches(plan.transfer, plan.delete, d) && NamespaceBehind(left, source, plan.transfer, torn, d))
      ensures SameIn(left, target, d)
    {
      NamespaceSeen(left, target, source, plan, torn, now, was, root, root0, d);
    }
  }

  lemma NamespaceSeen(left: Replica, target: Replica, source: Replica, plan: Plan, torn: bool, now: Side, was: Side,
                      root: map<string, Directory>, root0: map<string, Directory>, d: string)
    requires Shows(left, now.files, root) && Shows(target, was.files, root0)
    requires NamespacesLeft(root, root0, source, plan, torn)
    ensures SameIn(left, target, d)
      || (Touches(plan.transfer, plan.delete, d) && NamespaceBehind(left, source, plan.transfer, torn, d))
  {
    forall p | Namespace(p) == Some(d)
      ensures Get(left, p) == ViewAt(map[], root, p) && Get(target, p) == ViewAt(map[], root0, p)
    {
      assert Get(left, p) == ViewAt(now.files, root, p) && Get(target, p) == ViewAt(was.files, root0, p);
    }
    assert At(root, d) == At(root0, d)
      || (Touches(plan.transfer, plan.delete, d) && NamespaceLeft(root, root0, source, plan.transfer, torn, d));
  }

  // ---------------------------------------------------------------- repeating the pull

  /**
   Outside the namespaces, what keeps a repeated pull from the end state of the first one at `p`: a
   copy at the target that is taken for good although it is not the source's, or a file whose run
   shows differently by now, so that it is sent, spared or taken away only this time.
   */
  ghost predicate Misses(source: Replica, target: Replica, left: Replica, mode: SyncMode, overwrite: OverwritePolicy,
                         scope: Scope, p: Path) {
    if Sends(source, target, overwrite, scope, p) then
      Lists(left, scope, p) && KeepsFile(source[p], left[p], overwrite) && left[p] != source[p]
    else if Lists(source, scope, p) then !Lists(left, scope, p) && Get(left, p) != Get(source, p)
    else
      && mode.Mirror? && p in left
      && (Lists(left, scope, p) <==> !Lists(target, scope, p))
  }

  lemma PlainRepeat(sm: seq<Entry>, tm: seq<Entry>, source: Replica, target: Replica, left: Replica, mode: SyncMode,
                    overwrite: OverwritePolicy, scope: Scope, plan: Plan, limit: nat,
                    torn: bool, p: Path)
    requires IsManifest(sm, source, scope) && IsManifest(tm, target, scope)
    requires IsPlan(plan, sm, tm, mode, overwrite) && LeftBehind(left, target, source, plan, mode, limit, torn)
    requires Namespace(p).None?
    ensures Final(source, left, mode, overwrite, scope, p) == Final(source, target, mode, overwrite, scope, p)
      <==> !Misses(source, target, left, mode, overwrite, scope, p)
  {
    PlanPaths(sm, tm, source, target, mode, overwrite, scope, plan, p);
    ManifestLookup(sm, source, scope, p);
    ManifestLookup(tm, target, scope, p);
    assert p in PathSet(plan.transfer) <==> ListsPath(plan.transfer, p);
  }

  /** Database files need no such care: a namespace is never mixed, so repeating the pull always settles it. */
  lemma NamespaceRepeat(sm: seq<Entry>, tm: seq<Entry>, source: Replica, target: Replica, left: Replica,
                        mode: SyncMode, overwrite: OverwritePolicy, scope: Scope, plan: Plan, limit: nat,
                        torn: bool, p: Path)
    requires scope.policy.Shaped() && IsManifest(sm, source, scope) && IsManifest(tm, target, scope)
    requires IsPlan(plan, sm, tm, mode, overwrite) && LeftBehind(left, target, source, plan, mode, limit, torn)
    requires Namespace(p).Some?
    ensures Final(source, left, mode, overwrite, scope, p) == Final(source, target, mode, overwrite, scope, p)
  {
    var d := Namespace(p).value;
    if SameIn(left, target, d) {
      KeptGroup(source, target, left, mode, overwrite, scope, p, d);
    } else {
      TouchedGroup(sm, tm, source, target, mode, overwrite, scope, plan, p, d);
      ReplacedGroup(source, target, left, mode, overwrite, scope, plan.transfer, torn, p, d);
    }
  }

  lemma KeptGroup(source: Replica, target: Replica, left: Replica, mode: SyncMode, overwrite: OverwritePolicy,
                  scope: Scope, p: Path, d: string)
    requires Namespace(p) == Some(d) && SameIn(left, target, d)
    ensures Final(source, left, mode, overwrite, scope, p) == Final(source, target, mode, overwrite, scope, p)
  {
    SameGroup(source, left, target, d);
  }

  lemma TouchedGroup(sm: seq<Entry>, tm: seq<Entry>, source: Replica, target: Replica, mode: SyncMode,
                     overwrite: OverwritePolicy, scope: Scope, plan: Plan, p: Path, d: string)
    requires scope.policy.Shaped() && IsManifest(sm, source, scope) && IsManifest(tm, target, scope)
    requires IsPlan(plan, sm, tm, mode, overwrite)
    requires Namespace(p) == Some(d) && Touches(plan.transfer, plan.delete, d)
    ensures scope.policy.ContainsPath(p)
    ensures if HoldsNamespace(source, d) then !KeepsNamespace(source, target, overwrite, d) else mode.Mirror?
  {
    NamespaceStaged(sm, tm, source, target, mode, overwrite, scope, plan, p, d);
    PreservedMeaning(sm, tm, source, target, overwrite, scope, p, d);
  }

  /** A namespace that was to be replaced holds nothing, or the source's files: the source's go in next time. */
  lemma ReplacedGroup(source: Replica, target: Replica, left: Replica, mode: SyncMode, overwrite: OverwritePolicy,
                      scope: Scope, transfer: seq<Entry>, torn: bool, p: Path, d: string)
    requires Namespace(p) == Some(d) && scope.policy.ContainsPath(p)
    requires NamespaceBehind(left, source, transfer, torn, d)
    requires if HoldsNamespace(source, d) then !KeepsNamespace(source, target, overwrite, d) else mode.Mirror?
    ensures Final(source, left, mode, overwrite, scope, p) == Final(source, target, mode, overwrite, scope, p)
  {
    forall q | Namespace(q) == Some(d) && q in left
      ensures Get(left, q) == Get(source, q)
    {
      assert Get(left, q) == if ListsPath(transfer, q) then Get(source, q) else None;
    }
    NotNewer(source, left, d);
  }

  lemma SameGroup(source: Replica, a: Replica, b: Replica, d: string)
    requires SameIn(a, b, d)
    ensures NewerNamespace(a, source, d) <==> NewerNamespace(b, source, d)
  {
    forall q | Namespace(q) == Some(d)
      ensures q in a <==> q in b
      ensures q in a ==> a[q] == b[q]
    {
      assert Get(a, q) == Get(b, q);
    }
  }

  lemma NotNewer(source: Replica, left: Replica, d: string)
    requires forall q :: Namespace(q) == Some(d) && q in left ==> Get(left, q) == Get(source, q)
    ensures !NewerNamespace(left, source, d)
  {
    forall q | q in left && Namespace(q) == Some(d)
      ensures q in source && source[q] == left[q]
    {
      assert Get(left, q) == Get(source, q);
    }
  }

  /**
   After a pull that failed anywhere, a repeated pull that succeeds reaches the end state of the first
   one at exactly the paths where it misses nothing.
   */
  lemma RepeatedPullReaches(sm: seq<Entry>, tm: seq<Entry>, source: Replica, target: Replica, left: Replica,
                            mode: SyncMode, overwrite: OverwritePolicy, scope: Scope, plan: Plan, limit: nat,
                            torn: bool, p: Path)
    requires scope.policy.Shaped() && IsManifest(sm, source, scope) && IsManifest(tm, target, scope)
    requires IsPlan(plan, sm, tm, mode, overwrite) && LeftBehind(left, target, source, plan, mode, limit, torn)
    ensures Final(source, left, mode, overwrite, scope, p) == Final(source, target, mode, overwrite, scope, p)
      <==> Namespace(p).Some? || !Misses(source, target, left, mode, overwrite, scope, p)
  {
    if Namespace(p).Some? {
      NamespaceRepeat(sm, tm, source, target, left, mode, overwrite, scope, plan, limit, torn, p);
    } else {
      PlainRepeat(sm, tm, source, target, left, mode, overwrite, scope, plan, limit, torn, p);
    }
  }

  /**
   Where no run status has changed and no tasks shared the temporary file, a repeated pull misses
   exactly the files that the failure left with a later time, under prefer-newer.
   */
  lemma OnlyLaterTimesStick(sm: seq<Entry>, tm: seq<Entry>, source: Replica, target: Replica, left: Replica,
                            mode: SyncMode, overwrite: OverwritePolicy, scope: Scope, plan: Plan, limit: nat,
                            torn: bool, p: Path)
    requires IsManifest(sm, source, scope) && IsManifest(tm, target, scope)
    requires IsPlan(plan, sm, tm, mode, overwrite) && LeftBehind(left, target, source, plan, mode, limit, torn)
    requires Namespace(p).None? && (Shown(left, scope, p) <==> Shown(target, scope, p))
    requires !CrowdedAt(plan.transfer, limit, p)
    ensures Misses(source, target, left, mode, overwrite, scope, p) <==>
      && overwrite.PreferNewer? && ListsPath(plan.transfer, p)
      && Lists(left, scope, p) && p in source && source[p].mtime < left[p].mtime
  {
    PlanPaths(sm, tm, source, target, mode, overwrite, scope, plan, p);
    ManifestLookup(sm, source, scope, p);
    ManifestLookup(tm, target, scope, p);
    assert p in PathSet(plan.transfer) <==> ListsPath(plan.transfer, p);
  }

  /**
   A failing input: one file, whose time could not be set after its rename. Prefer-newer takes the
   copy, stamped with the time of its arrival, for the target's own newer file, and keeps it.
   */
  lemma LaterTimeSticks(scope: Scope, p: Path, f: File, arrival: u64, limit: nat)
    requires scope.policy.ContainsPath(p) && Namespace(p).None? && !InRun(p) && !IsRunIndexFile(p)
    requires f.mtime < arrival
    ensures var source, left := map[p := f], map[p := f.(mtime := arrival)];
      var e := Entry(p, f.size, f.mtime);
      var plan := Plan("", scope.policy.selection, [e], [], 1, f.size);
      && IsManifest([e], source, scope) && IsManifest([], map[], scope)
      && IsPlan(plan, [e], [], Incremental, PreferNewer)
      && LeftBehind(left, map[], source, plan, Incremental, limit, false)
      && Final(source, left, Incremental, PreferNewer, scope, p) == Some(left[p])
      && Final(source, map[], Incremental, PreferNewer, scope, p) == Some(f)
  {
    var e := Entry(p, f.size, f.mtime);
    var plan := Plan("", scope.policy.selection, [e], [], 1, f.size);
    assert [e][0] == e && plan.transfer[0].path == p;
    assert Shown(map[p := f], scope, p) && Shown(map[p := f.(mtime := arrival)], scope, p);
    TransferMembers([e], [e], [], PreferNewer);
    assert [e][..0] == [];
  }
}
