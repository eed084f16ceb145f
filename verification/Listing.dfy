/**
 What a scan lists of a side, and four concrete pairs of sides on which running agent runs make
 the sync miss what it otherwise achieves.
 */
module Listing {
  import opened Wrappers
  import opened Paths
  import opened Rules
  import opened Catalog
  import opened Policy
  import opened Manifest
  import opened Sync
  import opened WireRules
  import Scan
  import Text

  // ---------------------------------------------------------------- the scan lists the side

  /** A regular file where a scan looks: below a scan root, or an exact file of the selection. */
  ghost predicate OnDisk(e: Entry, located: Scan.Located, policy: ResolvedPolicy) {
    || (exists i :: 0 <= i < |policy.scanRoots| && Under(e, policy.scanRoots[i], located))
    || (e.path in policy.files && located(e.path) == Some(Scan.File(e.size, e.mtime)))
  }

  ghost predicate Under(e: Entry, root: Path, located: Scan.Located) {
    located(root).Some? && located(root).value.Dir? && e in Scan.AllFiles(located(root).value, root)
  }

  /** The local trees and run files a scan meets are those of the replica. */
  ghost predicate Reflects(r: Replica, located: Scan.Located, statuses: Scan.Statuses, scope: Scope) {
    && (forall p :: statuses(p) == Scan.Terminal <==> EndedAt(r, scope, p))
    && (forall e: Entry :: scope.policy.ContainsPath(e.path) ==>
          (OnDisk(e, located, scope.policy) <==> e.path in r && r[e.path].size == e.size && r[e.path].mtime == e.mtime))
  }

  /** The naive scan should list exactly what the replica lists. */
  lemma ShouldListIsListed(e: Entry, r: Replica, located: Scan.Located, statuses: Scan.Statuses, scope: Scope)
    requires scope.policy.Shaped() && Reflects(r, located, statuses, scope)
    ensures Scan.ShouldList(e, located, scope.policy, statuses) <==>
      Lists(r, scope, e.path) && r[e.path].size == e.size && r[e.path].mtime == e.mtime
  {
    assert Scan.InScope(scope.policy, statuses, e.path)
      <==> scope.policy.ContainsPath(e.path) && Shown(r, scope, e.path);
    if e.path in scope.policy.files {
      var i :| 0 <= i < |scope.policy.files| && scope.policy.files[i] == e.path;
      assert FileShape(scope.policy.files[i]);
      assert CHATS[0] != "default-user" && RUN_INDEX[0] != "default-user";
    }
    var roots := scope.policy.scanRoots;
    if i :| 0 <= i < |roots| && Under(e, roots[i], located) && Scan.InScope(scope.policy, statuses, e.path) {
      assert Scan.BelowRoot(e, scope.policy.scanRoots[i], located, scope.policy, statuses);
    }
    if i :| 0 <= i < |roots| && Scan.BelowRoot(e, roots[i], located, scope.policy, statuses) {
      assert Under(e, scope.policy.scanRoots[i], located);
    }
  }

  /** What `ScanManifest` returns is a manifest of the side, running runs left out. */
  lemma ScanIsManifest(m: seq<Entry>, r: Replica, located: Scan.Located, statuses: Scan.Statuses, scope: Scope)
    requires scope.policy.Shaped() && Reflects(r, located, statuses, scope)
    requires DistinctPaths(m) && forall e :: e in m <==> Scan.ShouldList(e, located, scope.policy, statuses)
    ensures IsManifest(m, r, scope)
  {
    forall e
      ensures e in m <==> Lists(r, scope, e.path) && r[e.path].size == e.size && r[e.path].mtime == e.mtime
    {
      ShouldListIsListed(e, r, located, statuses, scope);
    }
  }

  // ---------------------------------------------------------------- what is listed, from the selection

  /** Not part of an agent run that is still going, by the program's tests on the text. */
  ghost predicate NotRunning(statuses: Scan.Statuses, p: Path)
    requires |p| >= 1
  {
    && (|p| > 6 && RunRootText(Render(p[..6])) ==> statuses(p[..6] + ["run.json"]) == Scan.Terminal)
    && (RunIndexText(Render(p)) ==> statuses(p) == Scan.Terminal)
  }

  lemma InScopeMeaning(policy: ResolvedPolicy, statuses: Scan.Statuses, table: seq<Definition>, ids: seq<string>,
                       p: Path)
    requires Resolves(policy, table, ids) && WireReady(policy) && ValidPath(p)
    ensures Scan.InScope(policy, statuses, p) <==>
      !ExcludedText(Render(p)) && SelectsText(table, ids, Render(p)) && NotRunning(statuses, p)
  {
    ScopeMeaning(policy, table, ids, p);
    RunTestsMeaning(p);
    if |p| > 6 { RunTestsMeaning(p[..6]); }
  }

  /** An exact file belongs to no run. */
  lemma ExactFileNotRunning(policy: ResolvedPolicy, statuses: Scan.Statuses, p: Path)
    requires policy.Shaped() && p in policy.files
    ensures Scan.InScope(policy, statuses, p) <==> policy.ContainsPath(p)
  {
    var i :| 0 <= i < |policy.files| && policy.files[i] == p;
    assert FileShape(policy.files[i]);
    assert CHATS[0] != "default-user" && RUN_INDEX[0] != "default-user";
  }

  /**
   What a scan should list, without mention of rules or policies: the regular files where it looks that
   some dataset of the selection selects, that nothing excludes, and that belong to no running run.
   */
  lemma ListedMeaning(e: Entry, located: Scan.Located, policy: ResolvedPolicy, statuses: Scan.Statuses,
                      table: seq<Definition>, ids: seq<string>)
    requires policy.Shaped() && Resolves(policy, table, ids) && WireReady(policy) && ValidPath(e.path)
    ensures Scan.ShouldList(e, located, policy, statuses) <==>
      && OnDisk(e, located, policy)
      && !ExcludedText(Render(e.path)) && SelectsText(table, ids, Render(e.path)) && NotRunning(statuses, e.path)
  {
    InScopeMeaning(policy, statuses, table, ids, e.path);
    if e.path in policy.files { ExactFileNotRunning(policy, statuses, e.path); }
    var roots := policy.scanRoots;
    forall i | 0 <= i < |roots|
      ensures Scan.BelowRoot(e, roots[i], located, policy, statuses)
        <==> Under(e, roots[i], located) && Scan.InScope(policy, statuses, e.path)
    {
    }
    ShouldListFromDisk(e, located, policy, statuses);
  }

  lemma ShouldListFromDisk(e: Entry, located: Scan.Located, policy: ResolvedPolicy, statuses: Scan.Statuses)
    requires e.path in policy.files ==> (Scan.InScope(policy, statuses, e.path) <==> policy.ContainsPath(e.path))
    ensures Scan.ShouldList(e, located, policy, statuses) <==>
      OnDisk(e, located, policy) && Scan.InScope(policy, statuses, e.path)
  {
    var roots := policy.scanRoots;
    if i :| 0 <= i < |roots| && Scan.BelowRoot(e, roots[i], located, policy, statuses) {
      assert Under(e, roots[i], located);
    }
    if Scan.InScope(policy, statuses, e.path) {
      if i :| 0 <= i < |roots| && Under(e, roots[i], located) {
        assert Scan.BelowRoot(e, roots[i], located, policy, statuses);
      }
    }
  }

  /** A scan lists every regular file below a directory of a selected public dataset that nothing excludes or hides. */
  lemma PublicFilesListed(m: seq<Entry>, located: Scan.Located, policy: ResolvedPolicy, statuses: Scan.Statuses,
                          table: seq<Definition>, ids: seq<string>, id: string, dirs: seq<Path>, files: seq<Path>,
                          d: Path, e: Entry)
    requires policy.Shaped() && Resolves(policy, table, ids) && WireReady(policy) && ValidPath(e.path)
    requires forall x :: x in m <==> Scan.ShouldList(x, located, policy, statuses)
    requires id in ids && FindDefinition(table, id) == Some(Public(id, dirs, files))
    requires d in dirs && d <= e.path && !ExcludedText(Render(e.path)) && NotRunning(statuses, e.path)
    requires forall root :: root in policy.scanRoots && root <= d ==> Under(e, root, located)
    ensures e in m
  {
    ExcludedMeaning(e.path);
    PublicDirectoryInScope(policy, table, ids, id, dirs, files, d, e.path);
    ScopeMeaning(policy, table, ids, e.path);
    PublicRootAbove(policy, table, ids, id, dirs, files, d);
    var j :| 0 <= j < |policy.scanRoots| && policy.scanRoots[j] <= d;
    assert Under(e, policy.scanRoots[j], located);
    ListedMeaning(e, located, policy, statuses, table, ids);
  }

  // ---------------------------------------------------------------- running runs

  const RUN: Path := ["_tauritavern", "agent-workspaces", "chats", "c", "runs", "r"]
  const RUN_FILE: Path := ["_tauritavern", "agent-workspaces", "chats", "c", "runs", "r", "run.json"]
  const EVENTS: Path := ["_tauritavern", "agent-workspaces", "chats", "c", "runs", "r", "events.jsonl"]
  const OUTPUT: Path := ["_tauritavern", "agent-workspaces", "chats", "c", "runs", "r", "output", "a"]

  /** The dataset `agent.run_journal`, part of the default selection. */
  const JOURNAL: ResolvedPolicy := ResolvedPolicy(["agent.run_journal"], [RUN_INDEX, CHATS], [],
                                                  [Prefix(RUN_INDEX), RunFile("run.json"), RunFile("events.jsonl")])

  /** The dataset `agent.workspace_outputs` alone, without the run files. */
  const OUTPUTS: ResolvedPolicy := ResolvedPolicy(["agent.workspace_outputs"], [CHATS], [], [RunComponent("output")])

  function Completed(): string -> bool { text => text == "completed" }

  lemma RunPaths(p: Path)
    requires p in {RUN_FILE, EVENTS, OUTPUT}
    ensures InRun(p) && RunFileOf(p) == RUN_FILE && Namespace(p).None? && !IsRunIndexFile(p)
    ensures !GloballyExcluded(p)
  {
    assert p[..6] == RUN;
    assert CHATS <= RUN;
    forall i | 0 <= i < |p|
      ensures !ExcludedComponent(p[i])
    {
      PlainNames(p[i]);
    }
    assert p[0] == "_tauritavern" && p[1] == "agent-workspaces";
    assert EXCLUDED_PREFIXES[0][0] == "default-user" && EXCLUDED_PREFIXES[3][0] == "_cache";
    assert EXCLUDED_PREFIXES[1][1] == "prompt-cache" && EXCLUDED_PREFIXES[2][1] == ".ios-policy.json";
  }

  lemma PlainNames(name: string)
    requires name in {"_tauritavern", "agent-workspaces", "chats", "c", "runs", "r", "run.json", "events.jsonl",
                      "output", "a"}
    ensures !ExcludedComponent(name)
  {
    assert name[0] != '.' && name[|name| - 1] != 'p';
    if Text.EndsWith(name, ".ttsync.tmp") { TemporarySuffix(name); }
  }

  lemma AgentRoots()
    ensures RootShape(CHATS) && RootShape(RUN_INDEX) && Apart(RUN_INDEX, CHATS)
    ensures !(DATABASE_ROOT <= CHATS) && !(DATABASE_ROOT <= RUN_INDEX)
  {
    assert CHATS[1] == RUN_INDEX[1] == "agent-workspaces" != DATABASE_ROOT[1];
    assert CHATS[2] == "chats" != "index" == RUN_INDEX[2];
    assert CHATS[0] == RUN_INDEX[0] == "_tauritavern" != "default-user";
  }

  lemma JournalShaped()
    ensures JOURNAL.Shaped()
  {
    AgentRoots();
    assert JOURNAL.scanRoots[0] == RUN_INDEX && JOURNAL.scanRoots[1] == CHATS;
    forall i | 0 <= i < |JOURNAL.rules|
      ensures exists j :: 0 <= j < 2 && JOURNAL.scanRoots[j] <= JOURNAL.rules[i].Root()
    {
      assert JOURNAL.scanRoots[if i == 0 then 0 else 1] == JOURNAL.rules[i].Root();
    }
  }

  lemma OutputsShaped()
    ensures OUTPUTS.Shaped()
  {
    AgentRoots();
    assert OUTPUTS.scanRoots[0] == CHATS == OUTPUTS.rules[0].Root();
  }

  lemma JournalSelects()
    ensures JOURNAL.ContainsPath(RUN_FILE) && JOURNAL.ContainsPath(EVENTS) && JOURNAL.Shaped()
  {
    JournalShaped();
    SelectedBy(JOURNAL, 1, RUN_FILE);
    SelectedBy(JOURNAL, 2, EVENTS);
  }

  lemma SelectedBy(policy: ResolvedPolicy, i: nat, p: Path)
    requires p in {RUN_FILE, EVENTS, OUTPUT} && i < |policy.rules|
    requires (policy.rules[i] == RunFile(p[6]) && |p| == 7) || policy.rules[i] == RunComponent(p[6])
    ensures policy.ContainsPath(p)
  {
    RunPaths(p);
    assert p[..3] == CHATS && p[4] == "runs";
    assert policy.rules[i].Matches(p);
  }

  lemma OutputsSelect()
    ensures OUTPUTS.ContainsPath(OUTPUT) && !OUTPUTS.ContainsPath(RUN_FILE) && OUTPUTS.Shaped()
  {
    OutputsShaped();
    SelectedBy(OUTPUTS, 0, OUTPUT);
    assert RUN_FILE[6] == "run.json" != "output";
  }

  ghost predicate RunPair(policy: ResolvedPolicy, runFile: Path, extra: Path) {
    && policy.Shaped() && policy.ContainsPath(extra)
    && InRun(runFile) && RunFileOf(runFile) == runFile
    && InRun(extra) && RunFileOf(extra) == runFile && extra != runFile
  }

  /** A newer file of a run resumed at the target is overwritten by the older copy of the ended run. */
  lemma ResumedRunIsRewound()
    ensures var source: Replica := map[RUN_FILE := File(9, 5, "completed")];
      var target: Replica := map[RUN_FILE := File(7, 8, "running")];
      var scope := Scope(JOURNAL, Completed());
      && Rewinds(source, target, scope, RUN_FILE)
      && Get(Synced(source, target, Incremental, PreferNewer, scope), RUN_FILE) == Some(File(9, 5, "completed"))
      && !Dominates(Synced(source, target, Incremental, PreferNewer, scope), target)
  {
    JournalSelects();
    RunPaths(RUN_FILE);
    Rewound(JOURNAL, RUN_FILE);
  }

  lemma Rewound(policy: ResolvedPolicy, q: Path)
    requires policy.Shaped() && policy.ContainsPath(q) && InRun(q) && RunFileOf(q) == q
    ensures var source: Replica := map[q := File(9, 5, "completed")];
      var target: Replica := map[q := File(7, 8, "running")];
      var scope := Scope(policy, Completed());
      && Rewinds(source, target, scope, q)
      && Get(Synced(source, target, Incremental, PreferNewer, scope), q) == Some(File(9, 5, "completed"))
      && !Dominates(Synced(source, target, Incremental, PreferNewer, scope), target)
  {
    var source: Replica := map[q := File(9, 5, "completed")];
    var target: Replica := map[q := File(7, 8, "running")];
    var scope := Scope(policy, Completed());
    RunFileFacts(q);
    assert Rewinds(source, target, scope, q);
    SyncDominates(source, target, scope);
    assert Get(Synced(source, target, Incremental, PreferNewer, scope), q)
      == Final(source, target, Incremental, PreferNewer, scope, q);
  }

  /**
   The event log that only the target has of a run it still runs: after the ended run arrives, the
   mirrored manifest differs, a second mirror takes the log away, and a pull followed by a push
   leaves the two sides apart.
   */
  lemma ExtraFileSurfaces(sm: seq<Entry>)
    ensures var source: Replica := map[RUN_FILE := File(9, 8, "completed")];
      var target: Replica := map[RUN_FILE := File(7, 5, "running"), EVENTS := File(3, 5, "started")];
      var scope := Scope(JOURNAL, Completed());
      var mirrored := Synced(source, target, Mirror, Exact, scope);
      var pulled := Synced(target, source, Incremental, PreferNewer, scope);
      && Surfaces(source, target, scope, EVENTS)
      && (IsManifest(sm, source, scope) ==> !IsManifest(sm, mirrored, scope))
      && Synced(source, mirrored, Mirror, Exact, scope) != mirrored
      && !SameScope(pulled, Synced(pulled, target, Incremental, PreferNewer, scope), scope)
  {
    JournalSelects();
    RunPaths(RUN_FILE);
    RunPaths(EVENTS);
    assert RUN_FILE[6] != EVENTS[6];
    Surfaced(JOURNAL, RUN_FILE, EVENTS, sm);
  }

  lemma Surfaced(policy: ResolvedPolicy, q: Path, extra: Path, sm: seq<Entry>)
    requires RunPair(policy, q, extra) && policy.ContainsPath(q)
    ensures var source: Replica := map[q := File(9, 8, "completed")];
      var target: Replica := map[q := File(7, 5, "running"), extra := File(3, 5, "started")];
      var scope := Scope(policy, Completed());
      var mirrored := Synced(source, target, Mirror, Exact, scope);
      var pulled := Synced(target, source, Incremental, PreferNewer, scope);
      && Surfaces(source, target, scope, extra)
      && (IsManifest(sm, source, scope) ==> !IsManifest(sm, mirrored, scope))
      && Synced(source, mirrored, Mirror, Exact, scope) != mirrored
      && !SameScope(pulled, Synced(pulled, target, Incremental, PreferNewer, scope), scope)
  {
    var source: Replica := map[q := File(9, 8, "completed")];
    var target: Replica := map[q := File(7, 5, "running"), extra := File(3, 5, "started")];
    var scope := Scope(policy, Completed());
    assert Surfaces(source, target, scope, extra);
    if IsManifest(sm, source, scope) { MirrorExactCopies(source, target, scope, sm); }
    SyncedTwice(source, target, Mirror, Exact, scope);
    PullThenPushConverges(source, target, scope);
  }

  /** Outputs selected without the run files arrive at a side that lacks the run, and stay hidden there. */
  lemma OutputIsStranded()
    ensures var source: Replica := map[RUN_FILE := File(9, 8, "completed"), OUTPUT := File(3, 5, "text")];
      var scope := Scope(OUTPUTS, Completed());
      && Stranded(source, map[], scope, OUTPUT)
      && OUTPUT in Synced(source, map[], Incremental, PreferNewer, scope)
      && !Lists(Synced(source, map[], Incremental, PreferNewer, scope), scope, OUTPUT)
  {
    OutputsSelect();
    RunPaths(RUN_FILE);
    RunPaths(OUTPUT);
    assert RUN_FILE[6] != OUTPUT[6];
    StrandedAlone(OUTPUTS, RUN_FILE, OUTPUT);
  }

  lemma StrandedAlone(policy: ResolvedPolicy, q: Path, p: Path)
    requires RunPair(policy, q, p) && !policy.ContainsPath(q)
    ensures var source: Replica := map[q := File(9, 8, "completed"), p := File(3, 5, "text")];
      var scope := Scope(policy, Completed());
      && Stranded(source, map[], scope, p)
      && p in Synced(source, map[], Incremental, PreferNewer, scope)
      && !Lists(Synced(source, map[], Incremental, PreferNewer, scope), scope, p)
  {
    var source: Replica := map[q := File(9, 8, "completed"), p := File(3, 5, "text")];
    var scope := Scope(policy, Completed());
    RunFileFacts(p);
    assert Stranded(source, map[], scope, p);
    SentIsListed(source, map[], Incremental, PreferNewer, scope, p);
  }

  /** A run that has ended at the target but runs at the source is taken away by mirror, though the source has it. */
  lemma RestartedRunIsTakenAway()
    ensures var source: Replica := map[RUN_FILE := File(7, 9, "running")];
      var target: Replica := map[RUN_FILE := File(9, 5, "completed")];
      var scope := Scope(JOURNAL, Completed());
      RUN_FILE in source && RUN_FILE in target && RUN_FILE !in Synced(source, target, Mirror, PreferNewer, scope)
  {
    var source: Replica := map[RUN_FILE := File(7, 9, "running")];
    var target: Replica := map[RUN_FILE := File(9, 5, "completed")];
    JournalSelects();
    RunPaths(RUN_FILE);
    MirrorTakesAway(source, target, PreferNewer, Scope(JOURNAL, Completed()), RUN_FILE);
  }
}
