/**
 What a sync does to the receiving replica, and what sequences of syncs achieve. A replica maps
 paths to files; database namespaces are replaced as units, everything else file by file. A scan
 lists only what no running agent run hides, so what a side lists depends on its own run files.
 */
module Sync {
  import opened Wrappers
  import opened Paths
  import opened Rules
  import opened Policy
  import opened Manifest
  import opened Planner

  datatype File = File(size: u64, mtime: u64, content: string)

  type Replica = map<Path, File>

  ghost function Get(r: Replica, p: Path): Option<File> {
    if p in r then Some(r[p]) else None
  }

  ghost predicate SameMeta(a: File, b: File) { a.size == b.size && a.mtime == b.mtime }

  // ---------------------------------------------------------------- what a side lists

  /** The selection, and which run file texts say that their run has ended. */
  datatype Scope = Scope(policy: ResolvedPolicy, ended: string -> bool)

  predicate InRun(p: Path) { |p| > 6 && IsRunRootDir(p[..6]) }

  /** The file that tells whether a run has ended. */
  function RunFileOf(p: Path): Path
    requires InRun(p)
  {
    p[..6] + ["run.json"]
  }

  ghost predicate EndedAt(r: Replica, scope: Scope, q: Path) { q in r && scope.ended(r[q].content) }

  /** No running agent run hides the path: its run has ended there, and so has the run an index file describes. */
  ghost predicate Shown(r: Replica, scope: Scope, p: Path) {
    && (InRun(p) ==> EndedAt(r, scope, RunFileOf(p)))
    && (IsRunIndexFile(p) ==> EndedAt(r, scope, p))
  }

  ghost predicate Lists(r: Replica, scope: Scope, p: Path) {
    p in r && scope.policy.ContainsPath(p) && Shown(r, scope, p)
  }

  /** `m` is what a scan of `r` lists, in any order. */
  ghost predicate IsManifest(m: seq<Entry>, r: Replica, scope: Scope) {
    && DistinctPaths(m)
    && (forall e :: e in m ==> Lists(r, scope, e.path) && r[e.path].size == e.size && r[e.path].mtime == e.mtime)
    && (forall p :: Lists(r, scope, p) ==> Entry(p, r[p].size, r[p].mtime) in m)
  }

  /** Database files belong to no run. */
  lemma NamespaceIsShown(r: Replica, scope: Scope, p: Path)
    requires Namespace(p).Some?
    ensures Lists(r, scope, p) <==> p in r && scope.policy.ContainsPath(p)
  {
  }

  lemma RunFileFacts(p: Path)
    requires InRun(p)
    ensures InRun(RunFileOf(p)) && RunFileOf(RunFileOf(p)) == RunFileOf(p)
    ensures Namespace(RunFileOf(p)).None? && Namespace(p).None?
    ensures !IsRunIndexFile(p) && !IsRunIndexFile(RunFileOf(p))
  {
    assert RunFileOf(p)[..6] == p[..6];
  }

  // ---------------------------------------------------------------- applying a plan

  /** The file at `p` after all planned writes, deletes and the commit, from the incoming and the old one. */
  ghost function AppliedAt(incoming: Option<File>, was: Option<File>, plan: Plan, p: Path): Option<File> {
    if ListsPath(plan.transfer, p) then incoming
    else if Namespace(p).Some? && Touches(plan.transfer, plan.delete, Namespace(p).value) then None
    else if p in plan.delete then None
    else was
  }

  ghost function Applied(source: Replica, target: Replica, plan: Plan, p: Path): Option<File> {
    AppliedAt(Get(source, p), Get(target, p), plan, p)
  }

  // ---------------------------------------------------------------- the end state

  ghost predicate HoldsNamespace(r: Replica, d: string) { exists p :: p in r && Namespace(p) == Some(d) }

  /** The latest file of the namespace in `newer` is later than all of its files in `older`. */
  ghost predicate NewerNamespace(newer: Replica, older: Replica, d: string) {
    exists p :: p in newer && Namespace(p) == Some(d)
      && forall q :: q in older && Namespace(q) == Some(d) ==> older[q].mtime < newer[p].mtime
  }

  ghost predicate KeepsFile(s: File, t: File, overwrite: OverwritePolicy) {
    SameMeta(s, t) || (overwrite.PreferNewer? && s.mtime < t.mtime)
  }

  ghost predicate KeepsNamespace(source: Replica, target: Replica, overwrite: OverwritePolicy, d: string) {
    overwrite.PreferNewer? && NewerNamespace(target, source, d)
  }

  /** Outside namespaces the source file replaces the target's unless the target lists one worth keeping. */
  ghost predicate Sends(source: Replica, target: Replica, overwrite: OverwritePolicy, scope: Scope, p: Path) {
    Lists(source, scope, p) && !(Lists(target, scope, p) && KeepsFile(source[p], target[p], overwrite))
  }

  /** The end state path by path, without mention of manifests or plans. */
  ghost function Final(source: Replica, target: Replica, mode: SyncMode, overwrite: OverwritePolicy,
                       scope: Scope, p: Path): Option<File> {
    match Namespace(p)
    case None =>
      if Sends(source, target, overwrite, scope, p) then Get(source, p)
      else if mode.Mirror? && Lists(target, scope, p) && !Lists(source, scope, p) then None
      else Get(target, p)
    case Some(d) =>
      if !scope.policy.ContainsPath(p) then Get(target, p)
      else if HoldsNamespace(source, d) then
        if KeepsNamespace(source, target, overwrite, d) then Get(target, p) else Get(source, p)
      else if mode.Incremental? then Get(target, p)
      else None
  }

  ghost function Synced(source: Replica, target: Replica, mode: SyncMode, overwrite: OverwritePolicy,
                        scope: Scope): (r: Replica)
    ensures forall p :: Get(r, p) == Final(source, target, mode, overwrite, scope, p)
  {
    map p | p in source.Keys + target.Keys && Final(source, target, mode, overwrite, scope, p).Some?
      :: Final(source, target, mode, overwrite, scope, p).value
  }

  // ---------------------------------------------------------------- plans reach the end state

  lemma ManifestLookup(m: seq<Entry>, r: Replica, scope: Scope, p: Path)
    requires IsManifest(m, r, scope)
    ensures LastFor(m, p) == if Lists(r, scope, p) then Some(Entry(p, r[p].size, r[p].mtime)) else None
    ensures ListsPath(m, p) <==> Lists(r, scope, p)
  {
    LastForMeaning(m, p);
    if Lists(r, scope, p) {
      var e := Entry(p, r[p].size, r[p].mtime);
      var i :| 0 <= i < |m| && m[i] == e;
    }
    if i :| 0 <= i < |m| && m[i].path == p {
      assert m[i] in m;
    }
  }

  /** The manifests decide which namespace is kept exactly as the replicas do. */
  lemma PreservedMeaning(sm: seq<Entry>, tm: seq<Entry>, source: Replica, target: Replica,
                         overwrite: OverwritePolicy, scope: Scope, p: Path, d: string)
    requires IsManifest(sm, source, scope) && IsManifest(tm, target, scope) && scope.policy.Shaped()
    requires Namespace(p) == Some(d) && scope.policy.ContainsPath(p)
    ensures HasNamespace(sm, d) <==> HoldsNamespace(source, d)
    ensures StrictlyNewer(tm, sm, d) <==> NewerNamespace(target, source, d)
  {
    forall q | Namespace(q) == Some(d)
      ensures scope.policy.ContainsPath(q)
      ensures Lists(source, scope, q) <==> q in source
      ensures Lists(target, scope, q) <==> q in target
    {
      NamespaceScope(scope.policy, p, q);
      NamespaceIsShown(source, scope, q);
      NamespaceIsShown(target, scope, q);
    }
    NamespaceInManifest(sm, source, scope, d);
    NamespaceInManifest(tm, target, scope, d);
    NewerInManifest(sm, tm, source, target, scope, d);
  }

  /** Exactly the files of the namespace in `r` are listed in `m`. */
  ghost predicate WholeNamespace(r: Replica, scope: Scope, d: string) {
    forall q :: Namespace(q) == Some(d) && q in r ==> Lists(r, scope, q)
  }

  lemma NewerInManifest(sm: seq<Entry>, tm: seq<Entry>, source: Replica, target: Replica, scope: Scope, d: string)
    requires IsManifest(sm, source, scope) && IsManifest(tm, target, scope)
    requires WholeNamespace(source, scope, d) && WholeNamespace(target, scope, d)
    ensures StrictlyNewer(tm, sm, d) <==> NewerNamespace(target, source, d)
  {
    if StrictlyNewer(tm, sm, d) {
      var i :| 0 <= i < |tm| && InNamespace(tm[i], d)
        && forall j :: 0 <= j < |sm| && InNamespace(sm[j], d) ==> sm[j].mtime < tm[i].mtime;
      assert tm[i] in tm;
      forall q | q in source && Namespace(q) == Some(d)
        ensures source[q].mtime < target[tm[i].path].mtime
      {
        var j :| 0 <= j < |sm| && sm[j] == Entry(q, source[q].size, source[q].mtime);
        assert InNamespace(sm[j], d);
      }
    }
    if NewerNamespace(target, source, d) {
      var q :| q in target && Namespace(q) == Some(d)
        && forall o :: o in source && Namespace(o) == Some(d) ==> source[o].mtime < target[q].mtime;
      var i :| 0 <= i < |tm| && tm[i] == Entry(q, target[q].size, target[q].mtime);
      assert InNamespace(tm[i], d);
      forall j | 0 <= j < |sm| && InNamespace(sm[j], d)
        ensures sm[j].mtime < tm[i].mtime
      {
        assert sm[j] in sm;
      }
    }
  }

  lemma NamespaceInManifest(m: seq<Entry>, r: Replica, scope: Scope, d: string)
    requires IsManifest(m, r, scope) && WholeNamespace(r, scope, d)
    ensures HasNamespace(m, d) <==> HoldsNamespace(r, d)
  {
    if i :| 0 <= i < |m| && InNamespace(m[i], d) { assert m[i] in m; }
    if q :| q in r && Namespace(q) == Some(d) {
      var i :| 0 <= i < |m| && m[i] == Entry(q, r[q].size, r[q].mtime);
      assert InNamespace(m[i], d);
    }
  }

  /**
   A path is transferred when the source lists it and it is needed; deleted when only the target lists it
   and it is doomed.
   */
  lemma PlanPaths(sm: seq<Entry>, tm: seq<Entry>, source: Replica, target: Replica, mode: SyncMode,
                  overwrite: OverwritePolicy, scope: Scope, plan: Plan, p: Path)
    requires IsManifest(sm, source, scope) && IsManifest(tm, target, scope)
    requires IsPlan(plan, sm, tm, mode, overwrite)
    ensures ListsPath(plan.transfer, p) <==>
      Lists(source, scope, p) && Needed(Entry(p, source[p].size, source[p].mtime), sm, tm, overwrite)
    ensures p in plan.delete <==>
      mode.Mirror? && Lists(target, scope, p) && !Lists(source, scope, p) && Doomed(p, sm, tm, overwrite)
  {
    TransferMembers(sm, sm, tm, overwrite);
    DeleteMembers(tm, sm, tm, overwrite);
    ManifestLookup(sm, source, scope, p);
    ManifestLookup(tm, target, scope, p);
    if ListsPath(plan.transfer, p) {
      var i :| 0 <= i < |plan.transfer| && plan.transfer[i].path == p;
      assert plan.transfer[i] in plan.transfer;
      assert plan.transfer[i] == Entry(p, source[p].size, source[p].mtime);
    }
    if Lists(source, scope, p) {
      var e := Entry(p, source[p].size, source[p].mtime);
      if Needed(e, sm, tm, overwrite) {
        var i :| 0 <= i < |plan.transfer| && plan.transfer[i] == e;
      }
    }
  }

  /**
   Whatever the mode and policy, applying the computed plan leaves exactly the described end
   state: outside namespaces each path the source lists becomes the source copy unless the target
   lists one that is unchanged or preferred; paths only the target lists stay or go with the mode;
   and every namespace ends as the whole source group or the whole old target group.
   */
  lemma PlanReachesFinal(sm: seq<Entry>, tm: seq<Entry>, source: Replica, target: Replica, mode: SyncMode,
                         overwrite: OverwritePolicy, scope: Scope, plan: Plan, p: Path)
    requires scope.policy.Shaped()
    requires IsManifest(sm, source, scope) && IsManifest(tm, target, scope)
    requires IsPlan(plan, sm, tm, mode, overwrite)
    ensures Applied(source, target, plan, p) == Final(source, target, mode, overwrite, scope, p)
  {
    PlanPaths(sm, tm, source, target, mode, overwrite, scope, plan, p);
    match Namespace(p)
    case None =>
      ManifestLookup(tm, target, scope, p);
      ManifestLookup(sm, source, scope, p);
    case Some(d) =>
      NamespaceStaged(sm, tm, source, target, mode, overwrite, scope, plan, p, d);
      NamespaceIsShown(source, scope, p);
      if scope.policy.ContainsPath(p) {
        PreservedMeaning(sm, tm, source, target, overwrite, scope, p, d);
        ManifestLookup(sm, source, scope, p);
      }
  }

  /** Exactly when a namespace is staged. */
  lemma NamespaceStaged(sm: seq<Entry>, tm: seq<Entry>, source: Replica, target: Replica, mode: SyncMode,
                        overwrite: OverwritePolicy, scope: Scope, plan: Plan, p: Path, d: string)
    requires scope.policy.Shaped() && Namespace(p) == Some(d)
    requires IsManifest(sm, source, scope) && IsManifest(tm, target, scope)
    requires IsPlan(plan, sm, tm, mode, overwrite)
    ensures Touches(plan.transfer, plan.delete, d) ==> scope.policy.ContainsPath(p) && !Preserved(sm, tm, overwrite, d)
    ensures scope.policy.ContainsPath(p) && HoldsNamespace(source, d) && !Preserved(sm, tm, overwrite, d) ==>
      Touches(plan.transfer, plan.delete, d)
    ensures Touches(plan.transfer, plan.delete, d) && !HoldsNamespace(source, d) ==> mode.Mirror?
    ensures scope.policy.ContainsPath(p) && p in target && !HoldsNamespace(source, d) && mode.Mirror? ==>
      Touches(plan.transfer, plan.delete, d)
  {
    if i :| 0 <= i < |plan.transfer| && Namespace(plan.transfer[i].path) == Some(d) {
      var q := plan.transfer[i].path;
      PlanPaths(sm, tm, source, target, mode, overwrite, scope, plan, q);
      NamespaceScope(scope.policy, p, q);
    }
    if i :| 0 <= i < |plan.delete| && Namespace(plan.delete[i]) == Some(d) {
      var q := plan.delete[i];
      assert q in plan.delete;
      PlanPaths(sm, tm, source, target, mode, overwrite, scope, plan, q);
      NamespaceScope(scope.policy, p, q);
    }
    if scope.policy.ContainsPath(p) {
      NeededIsStaged(sm, tm, source, target, mode, overwrite, scope, plan, p, d);
    }
  }

  lemma NeededIsStaged(sm: seq<Entry>, tm: seq<Entry>, source: Replica, target: Replica, mode: SyncMode,
                       overwrite: OverwritePolicy, scope: Scope, plan: Plan, p: Path, d: string)
    requires scope.policy.Shaped() && Namespace(p) == Some(d) && scope.policy.ContainsPath(p)
    requires IsManifest(sm, source, scope) && IsManifest(tm, target, scope)
    requires IsPlan(plan, sm, tm, mode, overwrite)
    ensures HoldsNamespace(source, d) && !Preserved(sm, tm, overwrite, d) ==> Touches(plan.transfer, plan.delete, d)
    ensures p in target && !HoldsNamespace(source, d) && mode.Mirror? ==> Touches(plan.transfer, plan.delete, d)
  {
    if HoldsNamespace(source, d) && !Preserved(sm, tm, overwrite, d) {
      var q :| q in source && Namespace(q) == Some(d);
      NamespaceScope(scope.policy, p, q);
      NamespaceIsShown(source, scope, q);
      PlanPaths(sm, tm, source, target, mode, overwrite, scope, plan, q);
      var i :| 0 <= i < |plan.transfer| && plan.transfer[i].path == q;
    }
    if p in target && !HoldsNamespace(source, d) && mode.Mirror? {
      PreservedMeaning(sm, tm, source, target, overwrite, scope, p, d);
      NamespaceIsShown(target, scope, p);
      PlanPaths(sm, tm, source, target, mode, overwrite, scope, plan, p);
      ManifestLookup(sm, source, scope, p);
      var i :| 0 <= i < |plan.delete| && plan.delete[i] == p;
    }
  }

  // ---------------------------------------------------------------- what is listed after a sync

  /** Whether a run file, or a run index file, says after the sync that its run has ended. */
  ghost predicate EndedAfter(source: Replica, target: Replica, mode: SyncMode, scope: Scope, q: Path) {
    Lists(source, scope, q) || (EndedAt(target, scope, q) && !(mode.Mirror? && Lists(target, scope, q)))
  }

  ghost predicate ShownAfter(source: Replica, target: Replica, mode: SyncMode, scope: Scope, p: Path) {
    && (InRun(p) ==> EndedAfter(source, target, mode, scope, RunFileOf(p)))
    && (IsRunIndexFile(p) ==> EndedAfter(source, target, mode, scope, p))
  }

  lemma StatusAfter(source: Replica, target: Replica, mode: SyncMode, overwrite: OverwritePolicy, scope: Scope, q: Path)
    requires (InRun(q) && RunFileOf(q) == q) || IsRunIndexFile(q)
    ensures EndedAt(Synced(source, target, mode, overwrite, scope), scope, q)
      <==> EndedAfter(source, target, mode, scope, q)
  {
    var r := Synced(source, target, mode, overwrite, scope);
    assert Get(r, q) == Final(source, target, mode, overwrite, scope, q);
    if InRun(q) { RunFileFacts(q); }
    assert Lists(source, scope, q) ==> EndedAt(source, scope, q);
    assert Lists(target, scope, q) ==> EndedAt(target, scope, q);
  }

  lemma ListsAfter(source: Replica, target: Replica, mode: SyncMode, overwrite: OverwritePolicy, scope: Scope, p: Path)
    ensures var r := Synced(source, target, mode, overwrite, scope);
      Lists(r, scope, p) <==> p in r && scope.policy.ContainsPath(p) && ShownAfter(source, target, mode, scope, p)
  {
    if InRun(p) {
      RunFileFacts(p);
      StatusAfter(source, target, mode, overwrite, scope, RunFileOf(p));
    }
    if IsRunIndexFile(p) { StatusAfter(source, target, mode, overwrite, scope, p); }
  }

  /**
   The source lists a file of an ended run, but the selection leaves the run file out and the
   target does not have the run as ended: the copy arrives and stays hidden there.
   */
  ghost predicate Stranded(source: Replica, target: Replica, scope: Scope, p: Path) {
    && Lists(source, scope, p) && InRun(p)
    && !scope.policy.ContainsPath(RunFileOf(p)) && !EndedAt(target, scope, RunFileOf(p))
  }

  /**
   The target alone has a selected file of a run that still runs there but has ended at the
   source: once the run file is overwritten, the file appears.
   */
  ghost predicate Surfaces(source: Replica, target: Replica, scope: Scope, p: Path) {
    && InRun(p) && p in target && p !in source
    && scope.policy.ContainsPath(p) && scope.policy.ContainsPath(RunFileOf(p))
    && EndedAt(source, scope, RunFileOf(p)) && !EndedAt(target, scope, RunFileOf(p))
  }

  ghost predicate NoneStranded(source: Replica, target: Replica, scope: Scope) {
    forall p :: !Stranded(source, target, scope, p)
  }

  ghost predicate NoneSurfaces(source: Replica, target: Replica, scope: Scope) {
    forall p :: !Surfaces(source, target, scope, p)
  }

  /** A listed source file is listed afterwards exactly if it is not stranded. */
  lemma SentIsListed(source: Replica, target: Replica, mode: SyncMode, overwrite: OverwritePolicy, scope: Scope,
                     p: Path)
    requires Namespace(p).None? && Lists(source, scope, p)
    ensures p in Synced(source, target, mode, overwrite, scope)
    ensures Lists(Synced(source, target, mode, overwrite, scope), scope, p) <==> !Stranded(source, target, scope, p)
    ensures Lists(target, scope, p) ==> !Stranded(source, target, scope, p)
  {
    var r := Synced(source, target, mode, overwrite, scope);
    assert Get(r, p) == Final(source, target, mode, overwrite, scope, p);
    ListsAfter(source, target, mode, overwrite, scope, p);
    if InRun(p) { RunFileFacts(p); }
  }

  /** Any other file listed afterwards was listed at the target, or it surfaces; under mirror only the latter. */
  lemma OthersListed(source: Replica, target: Replica, mode: SyncMode, overwrite: OverwritePolicy, scope: Scope,
                     p: Path)
    requires Namespace(p).None? && !Lists(source, scope, p)
    ensures mode.Mirror? ==>
      (Lists(Synced(source, target, mode, overwrite, scope), scope, p) <==> Surfaces(source, target, scope, p))
    ensures mode.Incremental? ==>
      (Lists(Synced(source, target, mode, overwrite, scope), scope, p) <==>
         Lists(target, scope, p) || Surfaces(source, target, scope, p))
  {
    var r := Synced(source, target, mode, overwrite, scope);
    assert Get(r, p) == Final(source, target, mode, overwrite, scope, p);
    ListsAfter(source, target, mode, overwrite, scope, p);
    if InRun(p) { RunFileFacts(p); }
  }

  // ---------------------------------------------------------------- properties of one sync

  /** A namespace is never a mix: all of its files come from the source, or all are the old target's. */
  lemma NamespaceNeverMixed(source: Replica, target: Replica, mode: SyncMode, overwrite: OverwritePolicy,
                            scope: Scope, d: string)
    requires scope.policy.Shaped()
    ensures var r := Synced(source, target, mode, overwrite, scope);
      || (forall p :: Namespace(p) == Some(d) ==> Get(r, p) == Get(source, p))
      || (forall p :: Namespace(p) == Some(d) ==> Get(r, p) == Get(target, p))
  {
    if q :| Namespace(q) == Some(d) {
      forall p | Namespace(p) == Some(d)
        ensures scope.policy.ContainsPath(p) <==> scope.policy.ContainsPath(q)
      {
        NamespaceScope(scope.policy, p, q);
      }
    }
  }

  /**
   Mirror takes away exactly what the target lists and the source does not, even a file the source has in
   a running run.
   */
  lemma MirrorTakesAway(source: Replica, target: Replica, overwrite: OverwritePolicy, scope: Scope, p: Path)
    requires Namespace(p).None? && p in target
    ensures p !in Synced(source, target, Mirror, overwrite, scope)
      <==> Lists(target, scope, p) && !Lists(source, scope, p)
  {
    assert Get(Synced(source, target, Mirror, overwrite, scope), p)
        == Final(source, target, Mirror, overwrite, scope, p);
  }

  /** Mirror with Exact reproduces the source manifest exactly when no copy is stranded and nothing surfaces. */
  lemma MirrorExactCopies(source: Replica, target: Replica, scope: Scope, sm: seq<Entry>)
    requires scope.policy.Shaped() && IsManifest(sm, source, scope)
    ensures IsManifest(sm, Synced(source, target, Mirror, Exact, scope), scope)
      <==> NoneStranded(source, target, scope) && NoneSurfaces(source, target, scope)
  {
    var r := Synced(source, target, Mirror, Exact, scope);
    forall p
      ensures Lists(source, scope, p) ==> p in r && SameMeta(r[p], source[p])
      ensures Lists(source, scope, p) ==> (Lists(r, scope, p) <==> !Stranded(source, target, scope, p))
      ensures !Lists(source, scope, p) ==> (Lists(r, scope, p) <==> Surfaces(source, target, scope, p))
    {
      MirrorExactAt(source, target, scope, p);
    }
    if IsManifest(sm, r, scope) {
      forall p
        ensures Lists(r, scope, p) <==> Lists(source, scope, p)
      {
        ManifestLookup(sm, r, scope, p);
        ManifestLookup(sm, source, scope, p);
      }
    }
  }

  lemma MirrorExactAt(source: Replica, target: Replica, scope: Scope, p: Path)
    requires scope.policy.Shaped()
    ensures var r := Synced(source, target, Mirror, Exact, scope);
      && (Lists(source, scope, p) ==> p in r && SameMeta(r[p], source[p]))
      && (Lists(source, scope, p) ==> (Lists(r, scope, p) <==> !Stranded(source, target, scope, p)))
      && (!Lists(source, scope, p) ==> (Lists(r, scope, p) <==> Surfaces(source, target, scope, p)))
  {
    var r := Synced(source, target, Mirror, Exact, scope);
    assert Get(r, p) == Final(source, target, Mirror, Exact, scope, p);
    if Namespace(p).Some? {
      NamespaceIsShown(source, scope, p);
      NamespaceIsShown(r, scope, p);
    } else if Lists(source, scope, p) {
      SentIsListed(source, target, Mirror, Exact, scope, p);
    } else {
      OthersListed(source, target, Mirror, Exact, scope, p);
    }
  }

  /** Synchronizing again changes nothing, except that mirror then takes away what had surfaced. */
  lemma SyncedTwice(source: Replica, target: Replica, mode: SyncMode, overwrite: OverwritePolicy, scope: Scope)
    requires scope.policy.Shaped()
    ensures var r := Synced(source, target, mode, overwrite, scope);
      Synced(source, r, mode, overwrite, scope) == r <==> mode.Incremental? || NoneSurfaces(source, target, scope)
  {
    var r := Synced(source, target, mode, overwrite, scope);
    var rr := Synced(source, r, mode, overwrite, scope);
    forall p
      ensures Get(rr, p) == if mode.Mirror? && Surfaces(source, target, scope, p) then None else Get(r, p)
      ensures mode.Mirror? && Surfaces(source, target, scope, p) ==> p in r
    {
      SyncedTwiceAt(source, target, mode, overwrite, scope, p);
    }
    if mode.Incremental? || NoneSurfaces(source, target, scope) {
      SameReplica(rr, r);
    } else {
      var p :| Surfaces(source, target, scope, p);
      assert Get(rr, p) != Get(r, p);
    }
  }

  lemma SyncedTwiceAt(source: Replica, target: Replica, mode: SyncMode, overwrite: OverwritePolicy, scope: Scope,
                      p: Path)
    requires scope.policy.Shaped()
    ensures var r := Synced(source, target, mode, overwrite, scope);
      && Final(source, r, mode, overwrite, scope, p)
         == (if mode.Mirror? && Surfaces(source, target, scope, p) then None else Get(r, p))
      && (mode.Mirror? && Surfaces(source, target, scope, p) ==> p in r)
  {
    var r := Synced(source, target, mode, overwrite, scope);
    assert Get(r, p) == Final(source, target, mode, overwrite, scope, p);
    if Namespace(p).Some? {
      if scope.policy.ContainsPath(p) { SettledNamespace(source, target, mode, overwrite, scope, p); }
      if InRun(p) { RunFileFacts(p); }
    } else if Lists(source, scope, p) {
      SentIsListed(source, target, mode, overwrite, scope, p);
    } else {
      OthersListed(source, target, mode, overwrite, scope, p);
    }
  }

  lemma SameReplica(a: Replica, b: Replica)
    requires forall p :: Get(a, p) == Get(b, p)
    ensures a == b
  {
    forall p
      ensures p in a <==> p in b
      ensures p in a ==> a[p] == b[p]
    {
      assert Get(a, p) == Get(b, p);
    }
  }

  /** After a sync the keep decision for a namespace gives the same files again. */
  lemma SettledNamespace(source: Replica, target: Replica, mode: SyncMode, overwrite: OverwritePolicy, scope: Scope,
                         p: Path)
    requires scope.policy.Shaped() && Namespace(p).Some? && scope.policy.ContainsPath(p)
    ensures var d := Namespace(p).value;
      var r := Synced(source, target, mode, overwrite, scope);
      HoldsNamespace(source, d) ==>
        (KeepsNamespace(source, r, overwrite, d) <==> KeepsNamespace(source, target, overwrite, d))
  {
    var d := Namespace(p).value;
    var r := Synced(source, target, mode, overwrite, scope);
    if HoldsNamespace(source, d) {
      forall q | Namespace(q) == Some(d)
        ensures Get(r, q) == if KeepsNamespace(source, target, overwrite, d) then Get(target, q) else Get(source, q)
      {
        NamespaceScope(scope.policy, p, q);
        assert Get(r, q) == Final(source, target, mode, overwrite, scope, q);
      }
      GroupDecides(r, if KeepsNamespace(source, target, overwrite, d) then target else source, source, d);
    }
  }

  /** Only the files of the namespace matter for the comparison; no replica is newer than itself. */
  lemma GroupDecides(a: Replica, b: Replica, older: Replica, d: string)
    requires forall q :: Namespace(q) == Some(d) ==> Get(a, q) == Get(b, q)
    ensures NewerNamespace(a, older, d) <==> NewerNamespace(b, older, d)
    ensures !NewerNamespace(older, older, d)
  {
    forall q | Namespace(q) == Some(d)
      ensures q in a <==> q in b
      ensures q in a ==> a[q] == b[q]
    {
      assert Get(a, q) == Get(b, q);
    }
  }

  /**
   The plan recomputed after a sync: it deletes nothing unless something surfaced under mirror, and
   outside namespaces re-sends exactly the stranded files; its effect is again the end state.
   */
  lemma SecondPlanSettles(sm: seq<Entry>, source: Replica, target: Replica, mode: SyncMode, overwrite: OverwritePolicy,
                          scope: Scope, again: seq<Entry>, plan: Plan)
    requires scope.policy.Shaped() && IsManifest(sm, source, scope)
    requires IsManifest(again, Synced(source, target, mode, overwrite, scope), scope)
    requires IsPlan(plan, sm, again, mode, overwrite)
    ensures plan.delete == [] <==> mode.Incremental? || NoneSurfaces(source, target, scope)
    ensures (forall e :: e in plan.transfer ==> Namespace(e.path).Some?) <==> NoneStranded(source, target, scope)
    ensures forall p ::
      Applied(source, Synced(source, target, mode, overwrite, scope), plan, p)
      == if mode.Mirror? && Surfaces(source, target, scope, p) then None
         else Get(Synced(source, target, mode, overwrite, scope), p)
  {
    var r := Synced(source, target, mode, overwrite, scope);
    forall p
      ensures Applied(source, r, plan, p)
        == if mode.Mirror? && Surfaces(source, target, scope, p) then None else Get(r, p)
      ensures p in plan.delete <==> mode.Mirror? && Surfaces(source, target, scope, p)
      ensures Namespace(p).None? ==> (ListsPath(plan.transfer, p) <==> Stranded(source, target, scope, p))
    {
      PlanReachesFinal(sm, again, source, r, mode, overwrite, scope, plan, p);
      SyncedTwiceAt(source, target, mode, overwrite, scope, p);
      SecondPlanAt(sm, source, target, mode, overwrite, scope, again, plan, p);
    }
    NothingIn(plan.delete);
    if p :| Stranded(source, target, scope, p) {
      RunFileFacts(p);
      var i :| 0 <= i < |plan.transfer| && plan.transfer[i].path == p;
      assert plan.transfer[i] in plan.transfer;
    }
    forall e | e in plan.transfer && NoneStranded(source, target, scope)
      ensures Namespace(e.path).Some?
    {
      var i :| 0 <= i < |plan.transfer| && plan.transfer[i] == e;
      assert ListsPath(plan.transfer, e.path);
    }
  }

  lemma NothingIn(s: seq<Path>)
    ensures s == [] <==> forall p :: p !in s
  {
    if s != [] { assert s[0] in s; }
  }

  /** Which paths the second plan touches. */
  lemma SecondPlanAt(sm: seq<Entry>, source: Replica, target: Replica, mode: SyncMode, overwrite: OverwritePolicy,
                     scope: Scope, again: seq<Entry>, plan: Plan, p: Path)
    requires scope.policy.Shaped() && IsManifest(sm, source, scope)
    requires IsManifest(again, Synced(source, target, mode, overwrite, scope), scope)
    requires IsPlan(plan, sm, again, mode, overwrite)
    ensures p in plan.delete <==> mode.Mirror? && Surfaces(source, target, scope, p)
    ensures Namespace(p).None? ==> (ListsPath(plan.transfer, p) <==> Stranded(source, target, scope, p))
  {
    var r := Synced(source, target, mode, overwrite, scope);
    PlanPaths(sm, again, source, r, mode, overwrite, scope, plan, p);
    ManifestLookup(again, r, scope, p);
    ManifestLookup(sm, source, scope, p);
    if Namespace(p).Some? {
      assert !InRun(p);
      NamespaceNotDeleted(sm, source, target, mode, overwrite, scope, again, plan, p);
    } else {
      ResentAt(source, target, mode, overwrite, scope, p);
    }
  }

  /** What a second sync would send again, and what it would take away. */
  lemma ResentAt(source: Replica, target: Replica, mode: SyncMode, overwrite: OverwritePolicy, scope: Scope, p: Path)
    requires Namespace(p).None?
    ensures var r := Synced(source, target, mode, overwrite, scope);
      && (Sends(source, r, overwrite, scope, p) <==> Stranded(source, target, scope, p))
      && (mode.Mirror? ==>
            (Lists(r, scope, p) && !Lists(source, scope, p) <==>
               !Lists(source, scope, p) && Surfaces(source, target, scope, p)))
      && (Surfaces(source, target, scope, p) ==> !Lists(source, scope, p))
  {
    var r := Synced(source, target, mode, overwrite, scope);
    assert Get(r, p) == Final(source, target, mode, overwrite, scope, p);
    if Lists(source, scope, p) {
      SentIsListed(source, target, mode, overwrite, scope, p);
    } else {
      OthersListed(source, target, mode, overwrite, scope, p);
    }
  }

  lemma NamespaceNotDeleted(sm: seq<Entry>, source: Replica, target: Replica, mode: SyncMode,
                            overwrite: OverwritePolicy,
                            scope: Scope, again: seq<Entry>, plan: Plan, p: Path)
    requires scope.policy.Shaped() && IsManifest(sm, source, scope) && Namespace(p).Some?
    requires IsManifest(again, Synced(source, target, mode, overwrite, scope), scope)
    requires IsPlan(plan, sm, again, mode, overwrite)
    ensures p !in plan.delete
  {
    var r := Synced(source, target, mode, overwrite, scope);
    assert Get(r, p) == Final(source, target, mode, overwrite, scope, p);
    PlanPaths(sm, again, source, r, mode, overwrite, scope, plan, p);
    NamespaceIsShown(source, scope, p);
    NamespaceIsShown(r, scope, p);
    if scope.policy.ContainsPath(p) && p in r && p !in source {
      PreservedMeaning(sm, again, source, r, overwrite, scope, p, Namespace(p).value);
      SettledNamespace(source, target, mode, overwrite, scope, p);
    }
  }

  // ---------------------------------------------------------------- two-way convergence

  /** Two replicas a scan cannot tell apart. */
  ghost predicate SameScope(a: Replica, b: Replica, scope: Scope) {
    forall p :: SameAt(a, b, scope, p)
  }

  ghost predicate SameAt(a: Replica, b: Replica, scope: Scope, p: Path) {
    (Lists(a, scope, p) <==> Lists(b, scope, p)) && (Lists(a, scope, p) && Lists(b, scope, p) ==> SameMeta(a[p], b[p]))
  }

  lemma SameScopeSameManifest(m: seq<Entry>, a: Replica, b: Replica, scope: Scope)
    requires SameScope(a, b, scope) && IsManifest(m, a, scope)
    ensures IsManifest(m, b, scope)
  {
    forall e | e in m
      ensures Lists(b, scope, e.path) && b[e.path].size == e.size && b[e.path].mtime == e.mtime
    {
      assert SameAt(a, b, scope, e.path);
    }
    forall p | Lists(b, scope, p)
      ensures Entry(p, b[p].size, b[p].mtime) in m
    {
      assert SameAt(a, b, scope, p);
      assert Entry(p, a[p].size, a[p].mtime) in m;
    }
  }

  lemma SameScopeSymmetric(a: Replica, b: Replica, scope: Scope)
    requires SameScope(a, b, scope)
    ensures SameScope(b, a, scope)
  {
    forall p
      ensures SameAt(b, a, scope, p)
    {
      assert SameAt(a, b, scope, p);
    }
  }

  /**
   An Incremental, PreferNewer pull followed by the same push leaves both sides with the same
   listed paths, sizes and modification times exactly when no copy is stranded on either way and
   nothing surfaces at the remote; every manifest of one side is then a manifest of the other.
   */
  lemma PullThenPushConverges(local: Replica, remote: Replica, scope: Scope)
    requires scope.policy.Shaped()
    ensures var pulled := Synced(remote, local, Incremental, PreferNewer, scope);
      var pushed := Synced(pulled, remote, Incremental, PreferNewer, scope);
      && (SameScope(pulled, pushed, scope) <==>
            NoneStranded(remote, local, scope) && NoneStranded(local, remote, scope)
            && NoneSurfaces(local, remote, scope))
      && (SameScope(pulled, pushed, scope) ==>
            forall m :: IsManifest(m, pulled, scope) <==> IsManifest(m, pushed, scope))
  {
    var pulled := Synced(remote, local, Incremental, PreferNewer, scope);
    var pushed := Synced(pulled, remote, Incremental, PreferNewer, scope);
    if NoneStranded(remote, local, scope) && NoneStranded(local, remote, scope) && NoneSurfaces(local, remote, scope) {
      forall p
        ensures SameAt(pulled, pushed, scope, p)
      {
        ConvergesAt(local, remote, scope, p);
      }
    }
    if SameScope(pulled, pushed, scope) {
      SameManifests(pulled, pushed, scope);
      forall p
        ensures !Stranded(remote, local, scope, p) && !Stranded(local, remote, scope, p)
        ensures !Surfaces(local, remote, scope, p)
      {
        assert SameAt(pulled, pushed, scope, p);
        ConvergesAt(local, remote, scope, p);
      }
    }
  }

  lemma SameManifests(a: Replica, b: Replica, scope: Scope)
    requires SameScope(a, b, scope)
    ensures forall m :: IsManifest(m, a, scope) <==> IsManifest(m, b, scope)
  {
    SameScopeSymmetric(a, b, scope);
    forall m
      ensures IsManifest(m, a, scope) <==> IsManifest(m, b, scope)
    {
      if IsManifest(m, a, scope) { SameScopeSameManifest(m, a, b, scope); }
      if IsManifest(m, b, scope) { SameScopeSameManifest(m, b, a, scope); }
    }
  }

  lemma ConvergesAt(local: Replica, remote: Replica, scope: Scope, p: Path)
    requires scope.policy.Shaped()
    ensures var pulled := Synced(remote, local, Incremental, PreferNewer, scope);
      var pushed := Synced(pulled, remote, Incremental, PreferNewer, scope);
      SameAt(pulled, pushed, scope, p) <==>
        !Stranded(remote, local, scope, p) && !Stranded(local, remote, scope, p) && !Surfaces(local, remote, scope, p)
  {
    var pulled := Synced(remote, local, Incremental, PreferNewer, scope);
    var pushed := Synced(pulled, remote, Incremental, PreferNewer, scope);
    if Namespace(p).Some? {
      NamespaceIsShown(pulled, scope, p);
      NamespaceIsShown(pushed, scope, p);
      if InRun(p) { RunFileFacts(p); }
      if scope.policy.ContainsPath(p) { ConvergedNamespace(local, remote, scope, p); }
    } else {
      assert Get(pulled, p) == Final(remote, local, Incremental, PreferNewer, scope, p);
      assert Get(pushed, p) == Final(pulled, remote, Incremental, PreferNewer, scope, p);
      ListsAfter(remote, local, Incremental, PreferNewer, scope, p);
      ListsAfter(pulled, remote, Incremental, PreferNewer, scope, p);
      if InRun(p) { ConvergesInRun(local, remote, scope, p); }
    }
  }

  lemma ConvergesInRun(local: Replica, remote: Replica, scope: Scope, p: Path)
    requires InRun(p)
    ensures var pulled := Synced(remote, local, Incremental, PreferNewer, scope);
      var q := RunFileOf(p);
      EndedAfter(pulled, remote, Incremental, scope, q) <==>
        EndedAt(remote, scope, q) || (scope.policy.ContainsPath(q) && EndedAt(local, scope, q))
  {
    var q := RunFileOf(p);
    RunFileFacts(p);
    StatusAfter(remote, local, Incremental, PreferNewer, scope, q);
    ListsAfter(remote, local, Incremental, PreferNewer, scope, q);
  }

  /** After the pull the namespace is the local group if that was newer or alone, else the remote one. */
  lemma PulledNamespace(local: Replica, remote: Replica, scope: Scope, p: Path, keep: bool)
    requires scope.policy.Shaped() && scope.policy.ContainsPath(p) && Namespace(p).Some?
    requires keep <==> !HoldsNamespace(remote, Namespace(p).value) || NewerNamespace(local, remote, Namespace(p).value)
    ensures forall q :: Namespace(q) == Namespace(p) ==>
      Get(Synced(remote, local, Incremental, PreferNewer, scope), q) == if keep then Get(local, q) else Get(remote, q)
  {
    forall q | Namespace(q) == Namespace(p)
      ensures Get(Synced(remote, local, Incremental, PreferNewer, scope), q)
        == if keep then Get(local, q) else Get(remote, q)
    {
      NamespaceScope(scope.policy, p, q);
      assert Get(Synced(remote, local, Incremental, PreferNewer, scope), q)
          == Final(remote, local, Incremental, PreferNewer, scope, q);
    }
  }

  lemma ConvergedNamespace(local: Replica, remote: Replica, scope: Scope, p: Path)
    requires scope.policy.Shaped() && scope.policy.ContainsPath(p) && Namespace(p).Some?
    ensures var pulled := Synced(remote, local, Incremental, PreferNewer, scope);
      Get(pulled, p) == Get(Synced(pulled, remote, Incremental, PreferNewer, scope), p)
  {
    var d := Namespace(p).value;
    var pulled := Synced(remote, local, Incremental, PreferNewer, scope);
    var keep := !HoldsNamespace(remote, d) || NewerNamespace(local, remote, d);
    PulledNamespace(local, remote, scope, p, keep);
    SameHolding(pulled, if keep then local else remote, d);
    RemoteNotNewer(local, remote, pulled, d, keep);
    assert Get(Synced(pulled, remote, Incremental, PreferNewer, scope), p)
        == Final(pulled, remote, Incremental, PreferNewer, scope, p);
    assert Get(pulled, p) == if keep then Get(local, p) else Get(remote, p);
  }

  lemma SameHolding(a: Replica, b: Replica, d: string)
    requires forall q :: Namespace(q) == Some(d) ==> Get(a, q) == Get(b, q)
    ensures HoldsNamespace(a, d) <==> HoldsNamespace(b, d)
  {
    forall q | Namespace(q) == Some(d)
      ensures q in a <==> q in b
    {
      assert Get(a, q) == Get(b, q);
    }
  }

  lemma RemoteNotNewer(local: Replica, remote: Replica, pulled: Replica, d: string, keep: bool)
    requires forall q :: Namespace(q) == Some(d) ==> Get(pulled, q) == if keep then Get(local, q) else Get(remote, q)
    requires keep ==> !HoldsNamespace(remote, d) || NewerNamespace(local, remote, d)
    ensures !NewerNamespace(remote, pulled, d)
  {
    forall q | Namespace(q) == Some(d)
      ensures q in pulled <==> if keep then q in local else q in remote
      ensures q in pulled ==> pulled[q] == if keep then local[q] else remote[q]
    {
      assert Get(pulled, q) == if keep then Get(local, q) else Get(remote, q);
    }
  }

  // ---------------------------------------------------------------- monotone runs

  /**
   Outside namespaces no path of `before` is lost or goes back in time; for each file of a
   namespace a file at least as late is there.
   */
  ghost predicate Dominates(now: Replica, before: Replica) {
    && (forall p :: p in before && Namespace(p).None? ==> p in now && before[p].mtime <= now[p].mtime)
    && (forall p :: p in before && Namespace(p).Some? ==> NotOlder(now, before, p))
  }

  ghost predicate NotOlder(now: Replica, before: Replica, p: Path)
    requires p in before
  {
    exists q :: q in now && Namespace(q) == Namespace(p) && before[p].mtime <= now[q].mtime
  }

  /** The source lists an older copy of a file that a run still running at the target hides there. */
  ghost predicate Rewinds(source: Replica, target: Replica, scope: Scope, p: Path) {
    && Namespace(p).None? && Lists(source, scope, p)
    && p in target && !Shown(target, scope, p) && source[p].mtime < target[p].mtime
  }

  /** An Incremental, PreferNewer sync takes nothing back in time exactly when no such file exists. */
  lemma SyncDominates(source: Replica, target: Replica, scope: Scope)
    requires scope.policy.Shaped()
    ensures Dominates(Synced(source, target, Incremental, PreferNewer, scope), target)
      <==> forall p :: !Rewinds(source, target, scope, p)
  {
    var r := Synced(source, target, Incremental, PreferNewer, scope);
    forall p | p in target && Namespace(p).None?
      ensures p in r && (target[p].mtime <= r[p].mtime <==> !Rewinds(source, target, scope, p))
    {
      assert Get(r, p) == Final(source, target, Incremental, PreferNewer, scope, p);
    }
    forall p | p in target && Namespace(p).Some?
      ensures NotOlder(r, target, p)
    {
      NamespaceNotOlder(source, target, scope, p);
    }
  }

  lemma NamespaceNotOlder(source: Replica, target: Replica, scope: Scope, p: Path)
    requires scope.policy.Shaped() && p in target && Namespace(p).Some?
    ensures NotOlder(Synced(source, target, Incremental, PreferNewer, scope), target, p)
  {
    var r := Synced(source, target, Incremental, PreferNewer, scope);
    assert Get(r, p) == Final(source, target, Incremental, PreferNewer, scope, p);
    var d := Namespace(p).value;
    if scope.policy.ContainsPath(p) && HoldsNamespace(source, d) && !NewerNamespace(target, source, d) {
      var q :| q in source && Namespace(q) == Some(d) && !(source[q].mtime < target[p].mtime);
      NamespaceScope(scope.policy, p, q);
      assert Get(r, q) == Final(source, target, Incremental, PreferNewer, scope, q);
    }
  }

  lemma DominatesTransitive(a: Replica, b: Replica, c: Replica)
    requires Dominates(b, a) && Dominates(c, b)
    ensures Dominates(c, a)
  {
    forall p | p in a && Namespace(p).Some?
      ensures NotOlder(c, a, p)
    {
      var q :| q in b && Namespace(q) == Namespace(p) && a[p].mtime <= b[q].mtime;
      assert NotOlder(c, b, q);
      var o :| o in c && Namespace(o) == Namespace(q) && b[q].mtime <= c[o].mtime;
    }
  }

  lemma DominatesReflexive(r: Replica)
    ensures Dominates(r, r)
  {
    assert forall p :: p in r ==> NotOlder(r, r, p);
  }

  type System = seq<Replica>

  /** One pull or push between two replicas of a system. */
  datatype Move = Move(source: nat, target: nat, scope: Scope)

  ghost predicate MoveAt(run: seq<System>, moves: seq<Move>, n: nat)
    requires n < |moves| && |run| == |moves| + 1
  {
    var a, m := run[n], moves[n];
    && m.source < |a| && m.target < |a| && m.scope.policy.Shaped()
    && run[n + 1] == a[m.target := Synced(a[m.source], a[m.target], Incremental, PreferNewer, m.scope)]
  }

  /** A run of Incremental, PreferNewer syncs among any number of replicas, under any scopes. */
  ghost predicate IsRun(run: seq<System>, moves: seq<Move>) {
    |run| == |moves| + 1 && forall n :: 0 <= n < |moves| ==> MoveAt(run, moves, n)
  }

  /** Move `n` takes a file of a running run back in time. */
  ghost predicate RewindsAt(run: seq<System>, moves: seq<Move>, n: nat)
    requires n < |moves| && |run| == |moves| + 1
  {
    && moves[n].source < |run[n]| && moves[n].target < |run[n]|
    && exists p :: Rewinds(run[n][moves[n].source], run[n][moves[n].target], moves[n].scope, p)
  }

  lemma MoveForward(run: seq<System>, moves: seq<Move>, n: nat, k: nat)
    requires IsRun(run, moves) && n < |moves| && k < |run[n]|
    ensures |run[n + 1]| == |run[n]|
    ensures !RewindsAt(run, moves, n) ==> Dominates(run[n + 1][k], run[n][k])
    ensures k == moves[n].target && RewindsAt(run, moves, n) ==> !Dominates(run[n + 1][k], run[n][k])
  {
    assert MoveAt(run, moves, n);
    var a, m := run[n], moves[n];
    DominatesReflexive(a[k]);
    SyncDominates(a[m.source], a[m.target], m.scope);
  }

  lemma {:induction false} RunForward(run: seq<System>, moves: seq<Move>, m: nat, n: nat, k: nat)
    requires IsRun(run, moves) && m <= n < |run| && k < |run[m]|
    requires forall i :: 0 <= i < |moves| ==> !RewindsAt(run, moves, i)
    ensures ForwardAt(run, m, n, k)
    decreases n
  {
    if m == n {
      DominatesReflexive(run[m][k]);
    } else {
      RunForward(run, moves, m, n - 1, k);
      MoveForward(run, moves, n - 1, k);
      DominatesTransitive(run[m][k], run[n - 1][k], run[n][k]);
    }
  }

  /** Every replica only moves forward over the whole run. */
  ghost predicate OnlyForward(run: seq<System>) {
    forall m, n, k :: 0 <= m <= n < |run| && 0 <= k < |run[m]| ==> ForwardAt(run, m, n, k)
  }

  ghost predicate ForwardAt(run: seq<System>, m: nat, n: nat, k: nat)
    requires m < |run| && n < |run| && k < |run[m]|
  {
    |run[n]| == |run[m]| && Dominates(run[n][k], run[m][k])
  }

  /** Over any run every replica only moves forward exactly when no move rewinds a running run. */
  lemma RunsMoveForward(run: seq<System>, moves: seq<Move>)
    requires IsRun(run, moves)
    ensures OnlyForward(run) <==> forall n :: 0 <= n < |moves| ==> !RewindsAt(run, moves, n)
  {
    if forall n :: 0 <= n < |moves| ==> !RewindsAt(run, moves, n) {
      forall m, n, k | 0 <= m <= n < |run| && 0 <= k < |run[m]|
        ensures ForwardAt(run, m, n, k)
      {
        RunForward(run, moves, m, n, k);
      }
    }
    forall n | 0 <= n < |moves| && OnlyForward(run)
      ensures !RewindsAt(run, moves, n)
    {
      assert MoveAt(run, moves, n);
      var k := moves[n].target;
      MoveForward(run, moves, n, k);
      assert ForwardAt(run, n, n + 1, k);
    }
  }

  // ---------------------------------------------------------------- file trees

  /** No file lies below another file. */
  ghost predicate IsTree(r: Replica) { forall p, q :: p in r && q in r ==> !(p < q) }

  /** A file the sync brings lies below a target file, or has one below it. */
  ghost predicate Obstructed(source: Replica, target: Replica, mode: SyncMode, overwrite: OverwritePolicy,
                             scope: Scope) {
    exists p, q :: ObstructedBy(source, target, mode, overwrite, scope, p, q)
  }

  ghost predicate ObstructedBy(source: Replica, target: Replica, mode: SyncMode, overwrite: OverwritePolicy,
                               scope: Scope,
                               p: Path, q: Path) {
    && p in source && Final(source, target, mode, overwrite, scope, p) == Some(source[p])
    && q in target && Get(target, q) == Final(source, target, mode, overwrite, scope, q)
    && (p < q || q < p)
  }

  /** Two trees sync into a tree exactly when nothing that arrives meets something that stays. */
  lemma SyncedIsTree(source: Replica, target: Replica, mode: SyncMode, overwrite: OverwritePolicy, scope: Scope)
    requires IsTree(source) && IsTree(target)
    ensures IsTree(Synced(source, target, mode, overwrite, scope))
      <==> !Obstructed(source, target, mode, overwrite, scope)
  {
    var r := Synced(source, target, mode, overwrite, scope);
    if !Obstructed(source, target, mode, overwrite, scope) {
      forall p, q | p in r && q in r
        ensures !(p < q)
      {
        UnobstructedPair(source, target, mode, overwrite, scope, p, q);
      }
    }
    if p, q :| ObstructedBy(source, target, mode, overwrite, scope, p, q) {
      assert Get(r, p) == Final(source, target, mode, overwrite, scope, p);
      assert Get(r, q) == Final(source, target, mode, overwrite, scope, q);
    }
  }

  lemma UnobstructedPair(source: Replica, target: Replica, mode: SyncMode, overwrite: OverwritePolicy, scope: Scope,
                         p: Path, q: Path)
    requires IsTree(source) && IsTree(target)
    requires p in Synced(source, target, mode, overwrite, scope) && q in Synced(source, target, mode, overwrite, scope)
    requires !Obstructed(source, target, mode, overwrite, scope)
    ensures !(p < q)
  {
    var r := Synced(source, target, mode, overwrite, scope);
    assert Get(r, p) == Final(source, target, mode, overwrite, scope, p);
    assert Get(r, q) == Final(source, target, mode, overwrite, scope, q);
    ComesFrom(source, target, mode, overwrite, scope, p);
    ComesFrom(source, target, mode, overwrite, scope, q);
    assert !ObstructedBy(source, target, mode, overwrite, scope, p, q);
    assert !ObstructedBy(source, target, mode, overwrite, scope, q, p);
  }

  lemma ComesFrom(source: Replica, target: Replica, mode: SyncMode, overwrite: OverwritePolicy, scope: Scope, p: Path)
    ensures var f := Final(source, target, mode, overwrite, scope, p);
      f.Some? ==> f == Get(source, p) || f == Get(target, p)
  {
  }
}
