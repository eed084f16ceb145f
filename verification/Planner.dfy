/** Plan computation: diff two manifests under a sync mode and an overwrite policy. */
module Planner {
  import opened Wrappers
  import opened Seqs
  import opened Paths
  import opened Policy
  import opened Manifest

  // ---------------------------------------------------------------- what a plan should hold

  predicate InNamespace(e: Entry, d: string) { Namespace(e.path) == Some(d) }

  ghost predicate HasNamespace(m: seq<Entry>, d: string) {
    exists i :: 0 <= i < |m| && InNamespace(m[i], d)
  }

  /** Some file of the namespace in `newer` is later than every file of it in `older`. */
  ghost predicate StrictlyNewer(newer: seq<Entry>, older: seq<Entry>, d: string) {
    exists i :: 0 <= i < |newer| && InNamespace(newer[i], d)
      && forall j :: 0 <= j < |older| && InNamespace(older[j], d) ==> older[j].mtime < newer[i].mtime
  }

  /** The target keeps its copy of a namespace the source also has. */
  ghost predicate Preserved(source: seq<Entry>, target: seq<Entry>, overwrite: OverwritePolicy, d: string) {
    overwrite.PreferNewer? && HasNamespace(source, d) && StrictlyNewer(target, source, d)
  }

  /** The last entry for a path, as a map collected from the list would keep it. */
  function LastFor(m: seq<Entry>, p: Path): Option<Entry> {
    if m == [] then None
    else if m[|m| - 1].path == p then Some(m[|m| - 1])
    else LastFor(m[..|m| - 1], p)
  }

  predicate FileNeeded(e: Entry, there: Option<Entry>, overwrite: OverwritePolicy) {
    match there
    case None => true
    case Some(t) =>
      && (t.size != e.size || t.mtime != e.mtime)
      && (overwrite.PreferNewer? ==> t.mtime <= e.mtime)
  }

  ghost predicate Needed(e: Entry, source: seq<Entry>, target: seq<Entry>, overwrite: OverwritePolicy) {
    match Namespace(e.path)
    case Some(d) => !Preserved(source, target, overwrite, d)
    case None => FileNeeded(e, LastFor(target, e.path), overwrite)
  }

  ghost predicate Doomed(p: Path, source: seq<Entry>, target: seq<Entry>, overwrite: OverwritePolicy) {
    && LastFor(source, p).None?
    && (Namespace(p).Some? ==> !Preserved(source, target, overwrite, Namespace(p).value))
  }

  /** The needed entries among `part`, in order. */
  ghost function Transfers(part: seq<Entry>, source: seq<Entry>, target: seq<Entry>,
                           overwrite: OverwritePolicy): seq<Entry> {
    if part == [] then []
    else
      var last := part[|part| - 1];
      Transfers(part[..|part| - 1], source, target, overwrite)
      + (if Needed(last, source, target, overwrite) then [last] else [])
  }

  /** The paths of `part` the source no longer has, in order. */
  ghost function Deletes(part: seq<Entry>, source: seq<Entry>, target: seq<Entry>,
                         overwrite: OverwritePolicy): seq<Path> {
    if part == [] then []
    else
      var last := part[|part| - 1];
      Deletes(part[..|part| - 1], source, target, overwrite)
      + (if Doomed(last.path, source, target, overwrite) then [last.path] else [])
  }

  ghost predicate IsPlan(plan: Plan, source: seq<Entry>, target: seq<Entry>, mode: SyncMode,
                         overwrite: OverwritePolicy) {
    && plan.transfer == Transfers(source, source, target, overwrite)
    && plan.delete == (if mode.Mirror? then Deletes(target, source, target, overwrite) else [])
    && plan.filesTotal == |plan.transfer|
  }

  // ---------------------------------------------------------------- computing it

  ghost predicate IsMaxMtime(m: seq<Entry>, d: string, t: u64) {
    && (exists i :: 0 <= i < |m| && InNamespace(m[i], d) && m[i].mtime == t)
    && (forall i :: 0 <= i < |m| && InNamespace(m[i], d) ==> m[i].mtime <= t)
  }

  ghost predicate HasMtimes(times: map<string, u64>, m: seq<Entry>) {
    && (forall d :: d in times <==> HasNamespace(m, d))
    && (forall d :: d in times ==> IsMaxMtime(m, d, times[d]))
  }

  /** The times with one more entry noted. */
  function Noted(times: map<string, u64>, e: Entry): map<string, u64> {
    match Namespace(e.path)
    case None => times
    case Some(d) =>
      var modified := if d in times then times[d] else 0;
      times[d := if e.mtime > modified then e.mtime else modified]
  }

  /** `database_mtimes`: the latest modification time of every namespace present. */
  method DatabaseMtimes(m: seq<Entry>) returns (times: map<string, u64>)
    ensures HasMtimes(times, m)
  {
    times := map[];
    for i := 0 to |m|
      invariant HasMtimes(times, m[..i])
    {
      MtimesStep(m, i, times);
      times := Noted(times, m[i]);
    }
    assert m[..|m|] == m;
  }

  lemma ExtendNamespace(a: seq<Entry>, e: Entry, d: string)
    ensures HasNamespace(a + [e], d) <==> HasNamespace(a, d) || InNamespace(e, d)
  {
    var b := a + [e];
    assert forall k :: 0 <= k < |a| ==> b[k] == a[k];
    assert b[|a|] == e;
  }

  lemma ExtendMax(a: seq<Entry>, e: Entry, d: string, t: u64)
    requires IsMaxMtime(a, d, t)
    ensures IsMaxMtime(a + [e], d, if InNamespace(e, d) && e.mtime > t then e.mtime else t)
  {
    var b := a + [e];
    assert b[|a|] == e;
    var i :| 0 <= i < |a| && InNamespace(a[i], d) && a[i].mtime == t;
    assert b[i] == a[i];
  }

  lemma FirstMax(a: seq<Entry>, e: Entry, d: string)
    requires !HasNamespace(a, d) && InNamespace(e, d)
    ensures IsMaxMtime(a + [e], d, e.mtime)
  {
    assert (a + [e])[|a|] == e;
  }

  /** What one more entry does to the maximum of one namespace. */
  lemma MaxStep(a: seq<Entry>, e: Entry, before: map<string, u64>, after: map<string, u64>, d: string)
    requires d in before <==> HasNamespace(a, d)
    requires d in before ==> IsMaxMtime(a, d, before[d])
    requires if InNamespace(e, d) then d in after && after[d]
      == (if d in before && before[d] >= e.mtime then before[d] else e.mtime)
      else (d in after <==> d in before) && (d in after ==> after[d] == before[d])
    ensures d in after <==> HasNamespace(a + [e], d)
    ensures d in after ==> IsMaxMtime(a + [e], d, after[d])
  {
    ExtendNamespace(a, e, d);
    if d in before {
      ExtendMax(a, e, d, before[d]);
    } else if InNamespace(e, d) {
      FirstMax(a, e, d);
    }
  }

  lemma MtimesStep(m: seq<Entry>, i: nat, times: map<string, u64>)
    requires i < |m| && HasMtimes(times, m[..i])
    ensures HasMtimes(Noted(times, m[i]), m[..i + 1])
  {
    var a, e := m[..i], m[i];
    forall d
      ensures d in Noted(times, e) <==> HasNamespace(a + [e], d)
      ensures d in Noted(times, e) ==> IsMaxMtime(a + [e], d, Noted(times, e)[d])
    {
      MaxStep(a, e, times, Noted(times, e), d);
    }
    assert m[..i + 1] == a + [e];
  }

  /** `target_index`: path to size and mtime, the last entry winning. */
  method IndexEntries(m: seq<Entry>) returns (index: map<Path, Entry>)
    ensures forall p :: p in index <==> LastFor(m, p).Some?
    ensures forall p :: p in index ==> LastFor(m, p) == Some(index[p])
  {
    index := map[];
    for i := 0 to |m|
      invariant forall p :: p in index <==> LastFor(m[..i], p).Some?
      invariant forall p :: p in index ==> LastFor(m[..i], p) == Some(index[p])
    {
      assert m[..i + 1][..i] == m[..i];
      index := index[m[i].path := m[i]];
    }
    assert m[..|m|] == m;
  }

  /** `preserved_databases`: namespaces whose target maximum beats the source maximum. */
  method PreservedDatabases(source: seq<Entry>, target: seq<Entry>, overwrite: OverwritePolicy)
    returns (kept: set<string>)
    ensures forall d :: d in kept <==> Preserved(source, target, overwrite, d)
  {
    var sourceDatabases := DatabaseMtimes(source);
    var targetDatabases := DatabaseMtimes(target);
    kept := set d | d in targetDatabases && overwrite == PreferNewer && d in sourceDatabases
                    && targetDatabases[d] > sourceDatabases[d];
    forall d
      ensures d in kept <==> Preserved(source, target, overwrite, d)
    {
      if d in sourceDatabases && d in targetDatabases {
        MaximaDecide(source, target, d, sourceDatabases[d], targetDatabases[d]);
      }
    }
  }

  lemma MaximaDecide(source: seq<Entry>, target: seq<Entry>, d: string, s: u64, t: u64)
    requires IsMaxMtime(source, d, s) && IsMaxMtime(target, d, t)
    ensures t > s <==> StrictlyNewer(target, source, d)
  {
    var i :| 0 <= i < |target| && InNamespace(target[i], d) && target[i].mtime == t;
    var j :| 0 <= j < |source| && InNamespace(source[j], d) && source[j].mtime == s;
  }

  predicate TransferNeeded(entry: Entry, overwrite: OverwritePolicy, targetIndex: map<Path, Entry>,
                           preserved: set<string>) {
    match Namespace(entry.path)
    case Some(directory) => directory !in preserved
    case None =>
      if entry.path in targetIndex then
        var there := targetIndex[entry.path];
        var changed := there.size != entry.size || there.mtime != entry.mtime;
        (match overwrite
         case Exact => changed
         case PreferNewer => changed && there.mtime <= entry.mtime)
      else true
  }

  /** What a wrapping sum of that value holds. */
  ghost function Wrapped(n: nat): u64 {
    if n < U64_LIMIT then n else Wrapped(n - U64_LIMIT)
  }

  lemma {:induction false} WrappedPlus(n: nat, b: u64)
    ensures WrappingAdd(Wrapped(n), b) == Wrapped(n + b)
  {
    if n >= U64_LIMIT { WrappedPlus(n - U64_LIMIT, b); }
  }

  lemma WrappedAdd(entries: seq<Entry>, total: u64, e: Entry)
    requires total == Wrapped(SumSizes(entries))
    ensures WrappingAdd(total, e.size) == Wrapped(SumSizes(entries + [e]))
  {
    assert (entries + [e])[..|entries|] == entries;
    WrappedPlus(SumSizes(entries), e.size);
  }

  /** The indexes describe the manifests they were built from. */
  ghost predicate Indexed(source: seq<Entry>, target: seq<Entry>, overwrite: OverwritePolicy,
                          targetIndex: map<Path, Entry>, preserved: set<string>) {
    && (forall p :: LastFor(target, p) == if p in targetIndex then Some(targetIndex[p]) else None)
    && (forall d :: d in preserved <==> Preserved(source, target, overwrite, d))
  }

  lemma TransferStep(source: seq<Entry>, target: seq<Entry>, overwrite: OverwritePolicy, i: nat,
                     targetIndex: map<Path, Entry>, preserved: set<string>)
    requires i < |source| && Indexed(source, target, overwrite, targetIndex, preserved)
    ensures Transfers(source[..i + 1], source, target, overwrite) == Transfers(source[..i], source, target, overwrite)
      + if TransferNeeded(source[i], overwrite, targetIndex, preserved) then [source[i]] else []
  {
    assert source[..i + 1][..i] == source[..i];
    assert source[..i + 1][i] == source[i];
    assert TransferNeeded(source[i], overwrite, targetIndex, preserved) == Needed(source[i], source, target, overwrite);
  }

  /** The transfer loop of `compute_plan`; `bytesTotal` wraps like the u64 it is kept in. */
  method SelectTransfers(source: seq<Entry>, target: seq<Entry>, overwrite: OverwritePolicy,
                         targetIndex: map<Path, Entry>, preserved: set<string>)
    returns (transfer: seq<Entry>, bytesTotal: u64)
    requires Indexed(source, target, overwrite, targetIndex, preserved)
    ensures transfer == Transfers(source, source, target, overwrite)
    ensures bytesTotal == Wrapped(SumSizes(transfer))
  {
    transfer, bytesTotal := [], 0;
    for i := 0 to |source|
      invariant transfer == Transfers(source[..i], source, target, overwrite)
      invariant bytesTotal == Wrapped(SumSizes(transfer))
    {
      TransferStep(source, target, overwrite, i, targetIndex, preserved);
      if TransferNeeded(source[i], overwrite, targetIndex, preserved) {
        WrappedAdd(transfer, bytesTotal, source[i]);
        bytesTotal := WrappingAdd(bytesTotal, source[i].size);
        transfer := transfer + [source[i]];
      }
    }
    assert source[..|source|] == source;
  }

  /** The Mirror deletion list of `compute_plan`. */
  method SelectDeletes(source: seq<Entry>, target: seq<Entry>, overwrite: OverwritePolicy,
                       sourceIndex: map<Path, Entry>, preserved: set<string>)
    returns (delete: seq<Path>)
    requires forall p :: p in sourceIndex <==> LastFor(source, p).Some?
    requires forall d :: d in preserved <==> Preserved(source, target, overwrite, d)
    ensures delete == Deletes(target, source, target, overwrite)
  {
    delete := [];
    for i := 0 to |target|
      invariant delete == Deletes(target[..i], source, target, overwrite)
    {
      var path := target[i].path;
      assert target[..i + 1][..i] == target[..i];
      if path !in sourceIndex && (Namespace(path).None? || Namespace(path).value !in preserved) {
        delete := delete + [path];
      }
    }
    assert target[..|target|] == target;
  }

  /** `compute_plan`; `bytesTotal` wraps like the u64 it is kept in. */
  method ComputePlan(id: string, source: seq<Entry>, target: seq<Entry>, mode: SyncMode,
                     selection: seq<string>, overwrite: OverwritePolicy) returns (plan: Plan)
    ensures IsPlan(plan, source, target, mode, overwrite)
    ensures plan.id == id && plan.selection == selection
    ensures plan.bytesTotal == Wrapped(SumSizes(plan.transfer))
  {
    var sourceIndex := IndexEntries(source);
    var targetIndex := IndexEntries(target);
    var preserved := PreservedDatabases(source, target, overwrite);
    var transfer, bytesTotal := SelectTransfers(source, target, overwrite, targetIndex, preserved);
    var delete: seq<Path> := [];
    if mode == Mirror {
      delete := SelectDeletes(source, target, overwrite, sourceIndex, preserved);
    }
    plan := Plan(id, selection, transfer, delete, |transfer|, bytesTotal);
  }

  // ---------------------------------------------------------------- scope validation

  ghost predicate ScopedManifest(m: seq<Entry>, policy: ResolvedPolicy) {
    && DistinctPaths(m)
    && forall i :: 0 <= i < |m| ==> policy.ContainsPath(m[i].path)
  }

  ghost function PathSet(m: seq<Entry>): set<Path> { set k | 0 <= k < |m| :: m[k].path }

  lemma ScopeStep(m: seq<Entry>, i: nat, policy: ResolvedPolicy)
    requires i < |m|
    ensures PathSet(m[..i + 1]) == PathSet(m[..i]) + {m[i].path}
    ensures ScopedManifest(m[..i + 1], policy) <==>
      ScopedManifest(m[..i], policy) && m[i].path !in PathSet(m[..i]) && policy.ContainsPath(m[i].path)
    ensures ScopedManifest(m, policy) ==> ScopedManifest(m[..i + 1], policy)
  {
    var a, b := m[..i], m[..i + 1];
    assert b == a + [m[i]];
    assert forall k :: 0 <= k < i ==> b[k] == a[k];
  }

  /** `validate_manifest_scope` rejects a repeated or out-of-scope path, and nothing else. */
  method ValidateManifestScope(m: seq<Entry>, policy: ResolvedPolicy) returns (r: Result<()>)
    ensures r.Ok? <==> ScopedManifest(m, policy)
    ensures r.Err? ==> r.error == InvalidData
  {
    var seen: set<Path> := {};
    for i := 0 to |m|
      invariant seen == PathSet(m[..i])
      invariant ScopedManifest(m[..i], policy)
    {
      ScopeStep(m, i, policy);
      if m[i].path in seen || !policy.ContainsPath(m[i].path) {
        return Err(InvalidData);
      }
      seen := seen + {m[i].path};
    }
    assert m[..|m|] == m;
    return Ok(());
  }

  ghost predicate DisjointFrom(s: seq<Path>, entries: seq<Entry>) {
    forall i, j :: 0 <= i < |s| && 0 <= j < |entries| ==> s[i] != entries[j].path
  }

  /** A plan both ends accept: in scope, duplicate-free, disjoint, with exact totals. */
  ghost predicate ScopedPlan(plan: Plan, policy: ResolvedPolicy) {
    && plan.selection == policy.selection
    && plan.filesTotal == |plan.transfer|
    && ScopedManifest(plan.transfer, policy)
    && plan.bytesTotal == SumSizes(plan.transfer)
    && Distinct(plan.delete)
    && DisjointFrom(plan.delete, plan.transfer)
    && forall i :: 0 <= i < |plan.delete| ==> policy.AllowsDelete(plan.delete[i])
  }

  lemma {:induction false} SumSizesMonotone(entries: seq<Entry>, n: nat)
    requires n <= |entries|
    ensures SumSizes(entries[..n]) <= SumSizes(entries)
    decreases |entries|
  {
    if n < |entries| {
      var init := entries[..|entries| - 1];
      SumSizesMonotone(init, n);
      assert init[..n] == entries[..n];
    } else {
      assert entries[..n] == entries;
    }
  }

  /** The transfer half of `validate_plan_scope`, with the checked addition. */
  method ValidateTransfers(transfer: seq<Entry>, policy: ResolvedPolicy) returns (r: Result<(set<Path>, u64)>)
    ensures r.Ok? <==> ScopedManifest(transfer, policy) && SumSizes(transfer) < U64_LIMIT
    ensures r.Ok? ==> r.value.0 == PathSet(transfer) && r.value.1 == SumSizes(transfer)
    ensures r.Err? ==> r.error == InvalidData
  {
    var bytesTotal: u64 := 0;
    var paths: set<Path> := {};
    for i := 0 to |transfer|
      invariant paths == PathSet(transfer[..i])
      invariant ScopedManifest(transfer[..i], policy)
      invariant bytesTotal == SumSizes(transfer[..i])
    {
      var entry := transfer[i];
      ScopeStep(transfer, i, policy);
      assert transfer[..i + 1][..i] == transfer[..i];
      if entry.path in paths {
        return Err(InvalidData);
      }
      paths := paths + {entry.path};
      if bytesTotal + entry.size >= U64_LIMIT {
        SumSizesMonotone(transfer, i + 1);
        return Err(InvalidData);
      }
      bytesTotal := bytesTotal + entry.size;
      if !policy.ContainsPath(entry.path) {
        return Err(InvalidData);
      }
    }
    assert transfer[..|transfer|] == transfer;
    return Ok((paths, bytesTotal));
  }

  /** `validate_plan_scope` accepts exactly the scoped plans. */
  method ValidatePlanScope(plan: Plan, policy: ResolvedPolicy) returns (r: Result<()>)
    ensures r.Ok? <==> ScopedPlan(plan, policy)
    ensures r.Err? ==> r.error == InvalidData
  {
    if plan.selection != policy.selection || plan.filesTotal != |plan.transfer| {
      return Err(InvalidData);
    }
    var validated :- ValidateTransfers(plan.transfer, policy);
    var (transferPaths, bytesTotal) := validated;
    if plan.bytesTotal != bytesTotal {
      return Err(InvalidData);
    }
    var deletePaths: set<Path> := {};
    for i := 0 to |plan.delete|
      invariant deletePaths == set k | 0 <= k < i :: plan.delete[k]
      invariant forall k, l :: 0 <= k < l < i ==> plan.delete[k] != plan.delete[l]
      invariant forall k :: 0 <= k < i ==> plan.delete[k] !in transferPaths && policy.AllowsDelete(plan.delete[k])
    {
      var path := plan.delete[i];
      if path in deletePaths || path in transferPaths || !policy.AllowsDelete(path) {
        return Err(InvalidData);
      }
      deletePaths := deletePaths + {path};
    }
    return Ok(());
  }

  function Deletable(delete: seq<Path>, policy: ResolvedPolicy): seq<Path> {
    if delete == [] then []
    else
      var last := delete[|delete| - 1];
      Deletable(delete[..|delete| - 1], policy) + (if policy.AllowsDelete(last) then [last] else [])
  }

  lemma {:induction false} AllDeletable(delete: seq<Path>, policy: ResolvedPolicy)
    requires forall i :: 0 <= i < |delete| ==> policy.AllowsDelete(delete[i])
    ensures Deletable(delete, policy) == delete
  {
    if delete != [] {
      AllDeletable(delete[..|delete| - 1], policy);
      assert delete == delete[..|delete| - 1] + [delete[|delete| - 1]];
    }
  }

  /** `plan.delete.retain(allows_delete)`. */
  method RetainDeletable(delete: seq<Path>, policy: ResolvedPolicy) returns (out: seq<Path>)
    ensures out == Deletable(delete, policy)
  {
    out := [];
    for i := 0 to |delete|
      invariant out == Deletable(delete[..i], policy)
    {
      assert delete[..i + 1][..i] == delete[..i];
      if policy.AllowsDelete(delete[i]) {
        out := out + [delete[i]];
      }
    }
    assert delete[..|delete|] == delete;
  }

  /**
   `compute_plan_for_policy`: it fails exactly when a manifest repeats a path or leaves the
   scope, or when the sizes to transfer do not fit in 64 bits; otherwise the plan is the one
   specified and passes validation with exact totals.
   */
  method ComputePlanForPolicy(id: string, source: seq<Entry>, target: seq<Entry>, mode: SyncMode,
                              policy: ResolvedPolicy, overwrite: OverwritePolicy) returns (r: Result<Plan>)
    ensures r.Ok? <==>
      && ScopedManifest(source, policy)
      && ScopedManifest(target, policy)
      && SumSizes(Transfers(source, source, target, overwrite)) < U64_LIMIT
    ensures r.Err? ==> r.error == InvalidData
    ensures r.Ok? ==> r.value.id == id && IsPlan(r.value, source, target, mode, overwrite)
    ensures r.Ok? ==> ScopedPlan(r.value, policy)
  {
    var _ :- ValidateManifestScope(source, policy);
    var _ :- ValidateManifestScope(target, policy);
    var plan := ComputePlan(id, source, target, mode, policy.selection, overwrite);
    PlanInScope(plan, source, target, mode, overwrite, policy);
    if mode == Mirror {
      var retained := RetainDeletable(plan.delete, policy);
      AllDeletable(plan.delete, policy);
      plan := plan.(delete := retained);
    }
    var _ :- ValidatePlanScope(plan, policy);
    return Ok(plan);
  }

  // ---------------------------------------------------------------- facts about plans

  lemma {:induction false} TransferMembers(part: seq<Entry>, source: seq<Entry>, target: seq<Entry>,
                                           overwrite: OverwritePolicy)
    ensures forall e ::
      e in Transfers(part, source, target, overwrite) <==> e in part && Needed(e, source, target, overwrite)
  {
    if part != [] {
      var n := |part| - 1;
      TransferMembers(part[..n], source, target, overwrite);
      assert part == part[..n] + [part[n]];
    }
  }

  lemma {:induction false} TransferDistinct(part: seq<Entry>, source: seq<Entry>, target: seq<Entry>,
                                            overwrite: OverwritePolicy)
    requires DistinctPaths(part)
    ensures DistinctPaths(Transfers(part, source, target, overwrite))
  {
    if part != [] {
      var n := |part| - 1;
      TransferDistinct(part[..n], source, target, overwrite);
      TransferMembers(part[..n], source, target, overwrite);
      var t := Transfers(part[..n], source, target, overwrite);
      forall i | 0 <= i < |t|
        ensures t[i].path != part[n].path
      {
        assert t[i] in part[..n];
      }
    }
  }

  ghost predicate ListsPath(m: seq<Entry>, p: Path) { exists i :: 0 <= i < |m| && m[i].path == p }

  lemma {:induction false} LastForMeaning(m: seq<Entry>, p: Path)
    ensures LastFor(m, p).Some? <==> ListsPath(m, p)
    ensures LastFor(m, p).Some? ==> LastFor(m, p).value in m && LastFor(m, p).value.path == p
  {
    if m != [] {
      var n := |m| - 1;
      LastForMeaning(m[..n], p);
      assert m == m[..n] + [m[n]];
      if ListsPath(m, p) && m[n].path != p {
        var i :| 0 <= i < |m| && m[i].path == p;
        assert m[..n][i].path == p;
      }
      if LastFor(m[..n], p).Some? {
        var i :| 0 <= i < n && m[..n][i].path == p;
        assert m[i].path == p;
      }
    }
  }

  lemma {:induction false} DeleteMembers(part: seq<Entry>, source: seq<Entry>, target: seq<Entry>,
                                         overwrite: OverwritePolicy)
    ensures forall p ::
      p in Deletes(part, source, target, overwrite) <==> ListsPath(part, p) && Doomed(p, source, target, overwrite)
    ensures DistinctPaths(part) ==> Distinct(Deletes(part, source, target, overwrite))
  {
    if part != [] {
      var n := |part| - 1;
      DeleteMembers(part[..n], source, target, overwrite);
      forall p
        ensures ListsPath(part, p) <==> ListsPath(part[..n], p) || part[n].path == p
      {
        if i :| 0 <= i < |part| && part[i].path == p { if i < n { assert part[..n][i].path == p; } }
        if i :| 0 <= i < n && part[..n][i].path == p { assert part[i].path == p; }
      }
      if DistinctPaths(part) {
        var d := Deletes(part[..n], source, target, overwrite);
        forall i | 0 <= i < |d|
          ensures d[i] != part[n].path
        {
          assert d[i] in d;
          var k :| 0 <= k < n && part[..n][k].path == d[i];
          assert part[k].path != part[n].path;
        }
      }
    }
  }

  lemma TransferScope(source: seq<Entry>, target: seq<Entry>, overwrite: OverwritePolicy, policy: ResolvedPolicy)
    requires ScopedManifest(source, policy)
    ensures var t := Transfers(source, source, target, overwrite);
      ScopedManifest(t, policy) && forall i :: 0 <= i < |t| ==> ListsPath(source, t[i].path)
  {
    TransferMembers(source, source, target, overwrite);
    TransferDistinct(source, source, target, overwrite);
    var t := Transfers(source, source, target, overwrite);
    forall i | 0 <= i < |t|
      ensures policy.ContainsPath(t[i].path) && ListsPath(source, t[i].path)
    {
      assert t[i] in t;
      var k :| 0 <= k < |source| && source[k] == t[i];
    }
  }

  lemma DeleteScope(source: seq<Entry>, target: seq<Entry>, overwrite: OverwritePolicy, policy: ResolvedPolicy)
    requires ScopedManifest(target, policy)
    ensures var l := Deletes(target, source, target, overwrite);
      Distinct(l) && forall i :: 0 <= i < |l| ==> policy.AllowsDelete(l[i]) && !ListsPath(source, l[i])
  {
    DeleteMembers(target, source, target, overwrite);
    var l := Deletes(target, source, target, overwrite);
    forall i | 0 <= i < |l|
      ensures policy.AllowsDelete(l[i]) && !ListsPath(source, l[i])
    {
      assert l[i] in l;
      LastForMeaning(source, l[i]);
      var k :| 0 <= k < |target| && target[k].path == l[i];
    }
  }

  /** Plans of scoped manifests are themselves scoped, as long as their total fits in a u64. */
  lemma PlanInScope(plan: Plan, source: seq<Entry>, target: seq<Entry>, mode: SyncMode, overwrite: OverwritePolicy,
                    policy: ResolvedPolicy)
    requires IsPlan(plan, source, target, mode, overwrite)
    requires ScopedManifest(source, policy) && ScopedManifest(target, policy)
    requires plan.selection == policy.selection && plan.bytesTotal == Wrapped(SumSizes(plan.transfer))
    ensures ScopedPlan(plan, policy) <==> SumSizes(plan.transfer) < U64_LIMIT
    ensures forall i :: 0 <= i < |plan.delete| ==> policy.AllowsDelete(plan.delete[i])
  {
    TransferScope(source, target, overwrite, policy);
    DeleteScope(source, target, overwrite, policy);
  }
}
