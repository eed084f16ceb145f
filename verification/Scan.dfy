/** Manifest scanning: a pruned walk of the scan roots that finds exactly the in-scope files. */
module Scan {
  import opened Wrappers
  import opened Text
  import opened Paths
  import opened Order
  import opened Rules
  import opened Catalog
  import opened Policy
  import opened Manifest

  /** A directory entry as the walk sees it; children come in the order the system lists them. */
  datatype Node = File(size: u64, mtime: u64) | Dir(children: seq<(string, Node)>) | Symlink

  /** What `agent_run_file_is_terminal` finds at a wire path. */
  datatype RunStatus = Terminal | Active | Missing | Unreadable

  type Statuses = Path -> RunStatus

  // ---------------------------------------------------------------- the naive walk

  /** Every regular file reachable without crossing a symlink. */
  function AllFiles(node: Node, at: Path): seq<Entry>
    decreases node, if node.Dir? then |node.children| + 1 else 0
  {
    match node
    case File(size, mtime) => [Entry(at, size, mtime)]
    case Dir(children) => AllChildren(node, |children|, at)
    case Symlink => []
  }

  /** The files below the first `n` children. */
  function AllChildren(node: Node, n: nat, at: Path): seq<Entry>
    requires node.Dir? && n <= |node.children|
    decreases node, n
  {
    if n == 0 then []
    else AllChildren(node, n - 1, at) + AllFiles(node.children[n - 1].1, at + [node.children[n - 1].0])
  }

  /** A file of the tree: follow one child name after another. */
  ghost predicate Reaches(node: Node, rel: Path, size: u64, mtime: u64)
    decreases node
  {
    match node
    case File(s, m) => rel == [] && s == size && m == mtime
    case Dir(children) =>
      rel != []
      && exists i :: 0 <= i < |children| && children[i].0 == rel[0] && Reaches(children[i].1, rel[1..], size, mtime)
    case Symlink => false
  }

  /** Selected and not part of an agent run that is still going. */
  predicate InScope(policy: ResolvedPolicy, statuses: Statuses, p: Path) {
    && policy.ContainsPath(p)
    && (|p| > 6 && IsRunRootDir(p[..6]) ==> statuses(p[..6] + ["run.json"]) == Terminal)
    && (IsRunIndexFile(p) ==> statuses(p) == Terminal)
  }

  function Keep(entries: seq<Entry>, policy: ResolvedPolicy, statuses: Statuses): seq<Entry> {
    if entries == [] then []
    else
      var last := entries[|entries| - 1];
      Keep(entries[..|entries| - 1], policy, statuses) + (if InScope(policy, statuses, last.path) then [last] else [])
  }

  // ---------------------------------------------------------------- the pruned walk

  /** Directories the walk is inside: below a scan root, and in no running agent run. */
  ghost predicate Walkable(dir: Path, root: Path, statuses: Statuses) {
    && RootShape(root) && root <= dir
    && (|dir| >= 6 && IsRunRootDir(dir[..6]) ==> statuses(dir[..6] + ["run.json"]) == Terminal)
  }

  ghost predicate FilesOutside(policy: ResolvedPolicy, root: Path) {
    forall i :: 0 <= i < |policy.files| ==> !(root <= policy.files[i])
  }

  predicate CleanName(name: string) { IsUtf8(name) && ValidSegment(name) }

  /** Names a scan accepts: UTF-8 and usable in a wire path. */
  ghost predicate CleanTree(node: Node)
    decreases node
  {
    node.Dir? ==>
      forall i :: 0 <= i < |node.children| ==> CleanName(node.children[i].0) && CleanTree(node.children[i].1)
  }

  /** Every run file that is there can be read. */
  ghost predicate AllReadable(statuses: Statuses) { forall p :: statuses(p) != Unreadable }

  function IsTerminal(status: RunStatus): Result<bool> {
    match status
    case Missing => Ok(false)
    case Unreadable => Err(InvalidData)
    case Active => Ok(false)
    case Terminal => Ok(true)
  }

  function MakeEntry(p: Path, size: u64, mtime: u64): (r: Result<Entry>)
    ensures r.Ok? <==> ValidPath(p)
    ensures r.Ok? ==> r.value == Entry(p, size, mtime)
  {
    if ValidPath(p) then Ok(Entry(p, size, mtime)) else Err(InvalidData)
  }

  /**
   `scan_dir_recursive_inner`: skipping symlinks, excluded names, running agent runs and
   directories no rule can match below, it appends exactly what filtering the naive walk keeps.
   */
  method ScanDir(node: Node, dir: Path, policy: ResolvedPolicy, statuses: Statuses,
                 entries: seq<Entry>, reliable: bool, ghost root: Path)
    returns (r: Result<seq<Entry>>, ghost faulted: bool)
    requires node.Dir? && FilesOutside(policy, root) && Walkable(dir, root, statuses)
    ensures r.Ok? ==> Scanned(r.value, entries, node, dir, policy, statuses)
    ensures faulted ==> r == Err(Io) && !reliable
    ensures CleanTree(node) && ValidPath(dir) && AllReadable(statuses) && !faulted ==> r.Ok?
    decreases node, 0
  {
    var fault := FaultUnless(reliable);
    faulted := fault;
    if fault {
      return Err(Io), faulted;
    }
    var out := entries;
    assert entries + [] == entries;
    for i := 0 to |node.children|
      invariant ScannedPart(out, entries, node, i, dir, policy, statuses) && !faulted
    {
      var (name, child) := node.children[i];
      var next;
      next, faulted := ScanEntry(name, child, dir, policy, statuses, out, reliable, root);
      if next.Err? {
        return next, faulted;
      }
      ScanStep(node, i, dir, policy, statuses, entries, out, next.value);
      out := next.value;
    }
    return Ok(out), faulted;
  }

  /** Whether the path is hidden is known: its run's file, and the file itself if it describes a run, can be read. */
  ghost predicate Decided(statuses: Statuses, p: Path) {
    && (|p| > 6 && IsRunRootDir(p[..6]) ==> statuses(p[..6] + ["run.json"]) != Unreadable)
    && (IsRunIndexFile(p) ==> statuses(p) != Unreadable)
  }

  ghost predicate AllDecided(found: seq<Entry>, policy: ResolvedPolicy, statuses: Statuses) {
    forall e :: e in found && policy.ContainsPath(e.path) ==> Decided(statuses, e.path)
  }

  lemma DecidedAppend(a: seq<Entry>, b: seq<Entry>, policy: ResolvedPolicy, statuses: Statuses)
    requires AllDecided(a, policy, statuses) && AllDecided(b, policy, statuses)
    ensures AllDecided(a + b, policy, statuses)
  {
  }

  /** The walk of the first `n` children appended exactly their in-scope files, under acceptable paths. */
  ghost predicate ScannedPart(out: seq<Entry>, entries: seq<Entry>, node: Node, n: nat, at: Path,
                              policy: ResolvedPolicy, statuses: Statuses)
    requires node.Dir? && n <= |node.children|
  {
    match node
    case Dir(_) =>
      && out == entries + Keep(AllChildren(node, n, at), policy, statuses)
      && AllDecided(AllChildren(node, n, at), policy, statuses)
      && forall k :: |entries| <= k < |out| ==> ValidPath(out[k].path)
    case _ => false
  }

  lemma ScanStep(node: Node, i: nat, dir: Path, policy: ResolvedPolicy, statuses: Statuses,
                 entries: seq<Entry>, before: seq<Entry>, after: seq<Entry>)
    requires node.Dir? && i < |node.children|
    requires ScannedPart(before, entries, node, i, dir, policy, statuses)
    requires Scanned(after, before, node.children[i].1, dir + [node.children[i].0], policy, statuses)
    ensures ScannedPart(after, entries, node, i + 1, dir, policy, statuses)
  {
    var a, b := AllChildren(node, i, dir), AllFiles(node.children[i].1, dir + [node.children[i].0]);
    assert AllChildren(node, i + 1, dir) == a + b;
    DecidedAppend(a, b, policy, statuses);
    KeepAppend(a, b, policy, statuses);
    AppendTwice(entries, Keep(a, policy, statuses), Keep(b, policy, statuses), before, after);
  }

  lemma AppendTwice(entries: seq<Entry>, a: seq<Entry>, b: seq<Entry>, before: seq<Entry>, after: seq<Entry>)
    requires before == entries + a && after == before + b
    requires forall k :: |entries| <= k < |before| ==> ValidPath(before[k].path)
    requires forall k :: |before| <= k < |after| ==> ValidPath(after[k].path)
    ensures after == entries + (a + b)
    ensures forall k :: |entries| <= k < |after| ==> ValidPath(after[k].path)
  {
    forall k | |entries| <= k < |after|
      ensures ValidPath(after[k].path)
    {
      if k < |before| { assert after[k] == before[k]; }
    }
  }

  /** One directory entry of the walk; its type and its metadata may turn out unreadable. */
  method ScanEntry(name: string, child: Node, dir: Path, policy: ResolvedPolicy, statuses: Statuses,
                   entries: seq<Entry>, reliable: bool, ghost root: Path)
    returns (r: Result<seq<Entry>>, ghost faulted: bool)
    requires FilesOutside(policy, root) && Walkable(dir, root, statuses)
    ensures r.Ok? ==> Scanned(r.value, entries, child, dir + [name], policy, statuses)
    ensures faulted ==> r == Err(Io) && !reliable
    ensures CleanName(name) && CleanTree(child) && ValidPath(dir) && AllReadable(statuses) && !faulted ==> r.Ok?
    decreases child, 2
  {
    var wirePath := dir + [name];
    var fault := FaultUnless(reliable);
    faulted := fault;
    if fault {
      return Err(Io), faulted;
    }
    if child.Symlink? {
      return Ok(entries), faulted;
    }
    if !IsUtf8(name) {
      return Err(InvalidData), faulted;
    }
    if GloballyExcluded(wirePath) {
      SkipExcluded(child, wirePath, policy, statuses);
      return Ok(entries), faulted;
    }
    match child {
      case Dir(_) =>
        r, faulted := ScanSubdirectory(child, dir, name, policy, statuses, entries, reliable, root);
      case File(size, mtime) =>
        r := ScanFile(size, mtime, dir, name, policy, statuses, entries, root);
    }
  }

  method ScanSubdirectory(child: Node, dir: Path, name: string, policy: ResolvedPolicy, statuses: Statuses,
                          entries: seq<Entry>, reliable: bool, ghost root: Path)
    returns (r: Result<seq<Entry>>, ghost faulted: bool)
    requires child.Dir? && FilesOutside(policy, root) && Walkable(dir, root, statuses)
    ensures r.Ok? ==> Scanned(r.value, entries, child, dir + [name], policy, statuses)
    ensures faulted ==> r == Err(Io) && !reliable
    ensures CleanName(name) && CleanTree(child) && ValidPath(dir) && AllReadable(statuses) && !faulted ==> r.Ok?
    decreases child, 1
  {
    var wirePath := dir + [name];
    faulted := false;
    if IsRunRootDir(wirePath) {
      var terminal := IsTerminal(statuses(wirePath + ["run.json"]));
      if terminal.Err? {
        return Err(terminal.error), faulted;
      }
      if !terminal.value {
        SkipRunning(child, wirePath, policy, statuses);
        return Ok(entries), faulted;
      }
    }
    if !policy.ShouldDescendDir(wirePath) {
      SkipBarren(child, wirePath, root, policy, statuses);
      return Ok(entries), faulted;
    }
    StillWalkable(dir, name, root, statuses);
    r, faulted := ScanDir(child, wirePath, policy, statuses, entries, reliable, root);
  }

  method ScanFile(size: u64, mtime: u64, dir: Path, name: string, policy: ResolvedPolicy, statuses: Statuses,
                  entries: seq<Entry>, ghost root: Path)
    returns (r: Result<seq<Entry>>)
    requires FilesOutside(policy, root) && Walkable(dir, root, statuses)
    ensures r.Ok? ==> Scanned(r.value, entries, File(size, mtime), dir + [name], policy, statuses)
    ensures CleanName(name) && ValidPath(dir) && AllReadable(statuses) ==> r.Ok?
  {
    var wirePath := dir + [name];
    KeepFile(dir, name, size, mtime, root, policy, statuses);
    FileDecided(dir, name, size, mtime, root, policy, statuses);
    if IsRunIndexFile(wirePath) {
      var terminal :- IsTerminal(statuses(wirePath));
      if !terminal {
        return Ok(entries);
      }
    }
    if policy.ContainsPath(wirePath) {
      var entry :- MakeEntry(wirePath, size, mtime);
      return Ok(entries + [entry]);
    }
    return Ok(entries);
  }

  /** The walk of `node` appended exactly its in-scope files, under acceptable paths. */
  ghost predicate Scanned(out: seq<Entry>, entries: seq<Entry>, node: Node, at: Path, policy: ResolvedPolicy,
                          statuses: Statuses) {
    && out == entries + Keep(AllFiles(node, at), policy, statuses)
    && AllDecided(AllFiles(node, at), policy, statuses)
    && forall i :: |entries| <= i < |out| ==> ValidPath(out[i].path)
  }

  // ---------------------------------------------------------------- lemmas of the walk

  lemma {:induction false} KeepAppend(a: seq<Entry>, b: seq<Entry>, policy: ResolvedPolicy, statuses: Statuses)
    ensures Keep(a + b, policy, statuses) == Keep(a, policy, statuses) + Keep(b, policy, statuses)
  {
    if b == [] {
      assert a + b == a;
    } else {
      var init := b[..|b| - 1];
      assert (a + b)[..|a + b| - 1] == a + init;
      KeepAppend(a, init, policy, statuses);
    }
  }

  lemma {:induction false} KeepNone(entries: seq<Entry>, policy: ResolvedPolicy, statuses: Statuses)
    requires forall e :: e in entries ==> !InScope(policy, statuses, e.path)
    ensures Keep(entries, policy, statuses) == []
  {
    if entries != [] {
      KeepNone(entries[..|entries| - 1], policy, statuses);
    }
  }

  lemma {:induction false} KeepMembers(entries: seq<Entry>, policy: ResolvedPolicy, statuses: Statuses)
    ensures forall e :: e in Keep(entries, policy, statuses) <==> e in entries && InScope(policy, statuses, e.path)
  {
    if entries != [] {
      var n := |entries| - 1;
      KeepMembers(entries[..n], policy, statuses);
      assert entries == entries[..n] + [entries[n]];
    }
  }

  lemma StillWalkable(dir: Path, name: string, root: Path, statuses: Statuses)
    requires Walkable(dir, root, statuses)
    requires IsRunRootDir(dir + [name]) ==> statuses(dir + [name] + ["run.json"]) == Terminal
    ensures Walkable(dir + [name], root, statuses)
  {
    var next := dir + [name];
    if |dir| >= 6 { assert next[..6] == dir[..6]; } else if |dir| == 5 { assert next[..6] == next; }
  }

  /** For a file inside a walkable directory only its own status can keep it out of scope. */
  lemma KeepFile(dir: Path, name: string, size: u64, mtime: u64, root: Path, policy: ResolvedPolicy, statuses: Statuses)
    requires Walkable(dir, root, statuses)
    ensures var p := dir + [name];
      var found := AllFiles(File(size, mtime), p);
      Keep(found, policy, statuses)
      == if policy.ContainsPath(p) && (IsRunIndexFile(p) ==> statuses(p) == Terminal) then [Entry(p, size, mtime)]
         else []
  {
    var p := dir + [name];
    var found := AllFiles(File(size, mtime), p);
    assert found[..0] == [];
    if |p| > 6 { assert p[..6] == dir[..6]; }
  }

  lemma FileDecided(dir: Path, name: string, size: u64, mtime: u64, root: Path, policy: ResolvedPolicy,
                    statuses: Statuses)
    requires Walkable(dir, root, statuses)
    ensures var p := dir + [name];
      (IsRunIndexFile(p) ==> statuses(p) != Unreadable) ==>
        AllDecided(AllFiles(File(size, mtime), p), policy, statuses)
  {
    var p := dir + [name];
    if |p| > 6 { assert p[..6] == dir[..6]; }
  }

  lemma {:induction false} FilesBelow(node: Node, at: Path)
    ensures forall e :: e in AllFiles(node, at) ==> at <= e.path
    ensures node.Dir? ==> forall e :: e in AllFiles(node, at) ==> at < e.path
    decreases node, if node.Dir? then |node.children| + 1 else 0
  {
    if node.Dir? { ChildrenBelow(node, |node.children|, at); }
  }

  lemma {:induction false} ChildrenBelow(node: Node, n: nat, at: Path)
    requires node.Dir? && n <= |node.children|
    ensures forall e :: e in AllChildren(node, n, at) ==> at < e.path
    decreases node, n
  {
    if n > 0 {
      var last := node.children[n - 1];
      ChildrenBelow(node, n - 1, at);
      FilesBelow(last.1, at + [last.0]);
    }
  }

  lemma SkipExcluded(node: Node, at: Path, policy: ResolvedPolicy, statuses: Statuses)
    requires GloballyExcluded(at)
    ensures Keep(AllFiles(node, at), policy, statuses) == [] && AllDecided(AllFiles(node, at), policy, statuses)
  {
    FilesBelow(node, at);
    forall e | e in AllFiles(node, at)
      ensures !policy.ContainsPath(e.path)
    {
      ExclusionInherited(at, e.path);
    }
    KeepNone(AllFiles(node, at), policy, statuses);
  }

  lemma SkipRunning(node: Node, at: Path, policy: ResolvedPolicy, statuses: Statuses)
    requires node.Dir? && IsRunRootDir(at) && statuses(at + ["run.json"]) !in {Terminal, Unreadable}
    ensures Keep(AllFiles(node, at), policy, statuses) == [] && AllDecided(AllFiles(node, at), policy, statuses)
  {
    FilesBelow(node, at);
    forall e | e in AllFiles(node, at)
      ensures !InScope(policy, statuses, e.path) && Decided(statuses, e.path)
    {
      assert e.path[..6] == at;
    }
    KeepNone(AllFiles(node, at), policy, statuses);
  }

  lemma SkipBarren(node: Node, at: Path, root: Path, policy: ResolvedPolicy, statuses: Statuses)
    requires node.Dir? && FilesOutside(policy, root) && root <= at
    requires !policy.ShouldDescendDir(at)
    ensures Keep(AllFiles(node, at), policy, statuses) == [] && AllDecided(AllFiles(node, at), policy, statuses)
  {
    FilesBelow(node, at);
    forall e | e in AllFiles(node, at)
      ensures !policy.ContainsPath(e.path)
    {
      BarrenPath(e.path, at, root, policy);
    }
    KeepNone(AllFiles(node, at), policy, statuses);
  }

  lemma BarrenPath(p: Path, at: Path, root: Path, policy: ResolvedPolicy)
    requires FilesOutside(policy, root) && root <= at < p
    ensures policy.ContainsPath(p) ==> policy.ShouldDescendDir(at)
  {
    if policy.ContainsPath(p) {
      AncestorsDescended(policy, p, at);
    }
  }

  /** No exact file of the policy lies in a scan root. */
  lemma RootsHoldNoExactFile(policy: ResolvedPolicy, root: Path)
    requires policy.Shaped() && RootShape(root)
    ensures FilesOutside(policy, root)
  {
    forall i | 0 <= i < |policy.files|
      ensures !(root <= policy.files[i])
    {
      FilesOutsideRoots(policy, root, policy.files[i]);
    }
  }

  // ---------------------------------------------------------------- meaning of the naive walk

  /** The naive walk lists exactly the files that following child names reaches. */
  lemma {:induction false} AllFilesMeaning(node: Node, at: Path, e: Entry)
    ensures e in AllFiles(node, at) <==> at <= e.path && Reaches(node, e.path[|at|..], e.size, e.mtime)
    decreases node, if node.Dir? then |node.children| + 1 else 0
  {
    if node.Dir? {
      var n := |node.children|;
      ChildrenReach(node, n, at, e);
      if at < e.path {
        var rel := e.path[|at|..];
        assert rel[1..] == e.path[|at| + 1..] && at + [rel[0]] <= e.path;
        assert forall i :: 0 <= i < n ==>
          (ChildReaches(node, at, e, i) <==>
             node.children[i].0 == rel[0] && Reaches(node.children[i].1, rel[1..], e.size, e.mtime));
      }
    } else if at <= e.path && e.path[|at|..] == [] {
      assert e.path == at;
    }
  }

  ghost predicate ChildReaches(node: Node, at: Path, e: Entry, i: nat)
    requires node.Dir? && i < |node.children|
  {
    at + [node.children[i].0] <= e.path && Reaches(node.children[i].1, e.path[|at| + 1..], e.size, e.mtime)
  }

  lemma {:induction false} ChildrenReach(node: Node, n: nat, at: Path, e: Entry)
    requires node.Dir? && n <= |node.children|
    ensures e in AllChildren(node, n, at) <==> exists i :: 0 <= i < n && ChildReaches(node, at, e, i)
    decreases node, n
  {
    if n > 0 {
      var last := node.children[n - 1];
      ChildrenReach(node, n - 1, at, e);
      AllFilesMeaning(last.1, at + [last.0], e);
      assert e in AllFiles(last.1, at + [last.0]) <==> ChildReaches(node, at, e, n - 1);
    }
  }

  // ---------------------------------------------------------------- sorting

  function Key(e: Entry): string { TextOf(e.path) }

  predicate Before(a: Entry, b: Entry) { TextLeq(Key(a), Key(b)) }

  ghost predicate Renderable(entries: seq<Entry>) { forall i :: 0 <= i < |entries| ==> ValidPath(entries[i].path) }

  ghost predicate Sorted(entries: seq<Entry>) {
    forall i, j :: 0 <= i < j < |entries| ==> TextLeq(TextOf(entries[i].path), TextOf(entries[j].path))
  }

  /** `sort_by` on the rendered path. */
  method SortEntries(entries: seq<Entry>) returns (out: seq<Entry>)
    ensures Sorted(out)
    ensures multiset(out) == multiset(entries)
  {
    out := [];
    for i := 0 to |entries|
      invariant Sorted(out)
      invariant multiset(out) == multiset(entries[..i])
    {
      assert entries[..i + 1] == entries[..i] + [entries[i]];
      out := InsertEntry(out, entries[i]);
    }
    assert entries[..|entries|] == entries;
  }

  method InsertEntry(sorted: seq<Entry>, e: Entry) returns (out: seq<Entry>)
    requires Sorted(sorted)
    ensures Sorted(out)
    ensures multiset(out) == multiset(sorted) + multiset{e}
  {
    var k := |sorted|;
    while k > 0 && !Before(sorted[k - 1], e)
      invariant 0 <= k <= |sorted|
      invariant k < |sorted| ==> Before(e, sorted[k])
    {
      TextLeqTotal(Key(sorted[k - 1]), Key(e));
      k := k - 1;
    }
    InsertionPoint(sorted, k, e);
    InsertedBag(sorted, k, e);
    out := sorted[..k] + [e] + sorted[k..];
  }

  lemma InsertedBag(s: seq<Entry>, k: nat, e: Entry)
    requires k <= |s|
    ensures multiset(s[..k] + [e] + s[k..]) == multiset(s) + multiset{e}
  {
    assert s == s[..k] + s[k..];
  }

  lemma InsertionPoint(sorted: seq<Entry>, k: nat, e: Entry)
    requires Sorted(sorted) && k <= |sorted|
    requires k < |sorted| ==> Before(e, sorted[k])
    requires k > 0 ==> Before(sorted[k - 1], e)
    ensures Sorted(sorted[..k] + [e] + sorted[k..])
  {
    forall j | 0 <= j < k
      ensures Before(sorted[j], e)
    {
      if j < k - 1 {
        TextLeqTransitive(Key(sorted[j]), Key(sorted[k - 1]), Key(e));
      }
    }
    forall j | k <= j < |sorted|
      ensures Before(e, sorted[j])
    {
      if j > k {
        TextLeqTransitive(Key(e), Key(sorted[k]), Key(sorted[j]));
      }
    }
  }

  // ---------------------------------------------------------------- the whole scan

  /** What a wire path resolves to locally, symlinks followed. */
  type Located = Path -> Option<Node>

  ghost predicate BelowRoot(e: Entry, root: Path, located: Located, policy: ResolvedPolicy, statuses: Statuses) {
    && located(root).Some? && located(root).value.Dir?
    && e in AllFiles(located(root).value, root)
    && InScope(policy, statuses, e.path)
  }

  /** Below one of the first `n` scan roots. */
  ghost predicate BelowRoots(e: Entry, n: nat, located: Located, policy: ResolvedPolicy, statuses: Statuses)
    requires n <= |policy.scanRoots|
  {
    && n > 0
    && (|| BelowRoots(e, n - 1, located, policy, statuses)
        || BelowRoot(e, policy.scanRoots[n - 1], located, policy, statuses))
  }

  lemma {:induction false} BelowRootsMeaning(e: Entry, n: nat, located: Located, policy: ResolvedPolicy,
                                             statuses: Statuses)
    requires n <= |policy.scanRoots|
    ensures BelowRoots(e, n, located, policy, statuses)
      <==> exists k :: 0 <= k < n && BelowRoot(e, policy.scanRoots[k], located, policy, statuses)
  {
    if n > 0 {
      BelowRootsMeaning(e, n - 1, located, policy, statuses);
    }
  }

  ghost predicate IsExactFile(e: Entry, located: Located, policy: ResolvedPolicy) {
    e.path in policy.files && policy.ContainsPath(e.path) && located(e.path) == Some(File(e.size, e.mtime))
  }

  /** The naive scan: every file of every scan root, filtered, and the exact files that exist. */
  ghost predicate ShouldList(e: Entry, located: Located, policy: ResolvedPolicy, statuses: Statuses) {
    || (exists i :: 0 <= i < |policy.scanRoots| && BelowRoot(e, policy.scanRoots[i], located, policy, statuses))
    || IsExactFile(e, located, policy)
  }

  /** Directories list each name once. */
  ghost predicate DistinctNames(node: Node)
    decreases node
  {
    node.Dir? ==>
      && (forall i, j :: 0 <= i < j < |node.children| ==> node.children[i].0 != node.children[j].0)
      && (forall i :: 0 <= i < |node.children| ==> DistinctNames(node.children[i].1))
  }

  /** Nothing stands in the way of a scan: scan roots are directories of usable names, and run files are readable. */
  ghost predicate Scannable(located: Located, policy: ResolvedPolicy, statuses: Statuses) {
    && (forall i :: 0 <= i < |policy.scanRoots| ==> CleanRoot(policy.scanRoots[i], located))
    && (forall i :: 0 <= i < |policy.files| ==> ValidPath(policy.files[i]))
    && AllReadable(statuses)
  }

  ghost predicate CleanRoot(root: Path, located: Located) {
    ValidPath(root) && (located(root).Some? ==> located(root).value.Dir? && CleanTree(located(root).value))
  }

  /** The root is missing, or a directory whose selected files are all known to be hidden or not. */
  ghost predicate RootDecided(root: Path, located: Located, policy: ResolvedPolicy, statuses: Statuses) {
    located(root).Some? ==>
      located(root).value.Dir? && AllDecided(AllFiles(located(root).value, root), policy, statuses)
  }

  /** What the walk of the first `n` scan roots has found, and what it has made sure of. */
  ghost predicate RootsScanned(entries: seq<Entry>, n: nat, located: Located, policy: ResolvedPolicy,
                               statuses: Statuses)
    requires n <= |policy.scanRoots|
  {
    && Renderable(entries) && DistinctPaths(entries)
    && (forall e :: e in entries <==> BelowRoots(e, n, located, policy, statuses))
    && (forall k :: 0 <= k < n ==> RootDecided(policy.scanRoots[k], located, policy, statuses))
  }

  lemma RootMissing(entries: seq<Entry>, n: nat, located: Located, policy: ResolvedPolicy, statuses: Statuses)
    requires n < |policy.scanRoots| && located(policy.scanRoots[n]).None?
    requires RootsScanned(entries, n, located, policy, statuses)
    ensures RootsScanned(entries, n + 1, located, policy, statuses)
  {
  }

  lemma OneMoreRoot(before: seq<Entry>, after: seq<Entry>, n: nat, located: Located, policy: ResolvedPolicy,
                    statuses: Statuses)
    requires policy.Shaped() && n < |policy.scanRoots| && RootsScanned(before, n, located, policy, statuses)
    requires located(policy.scanRoots[n]).Some? && located(policy.scanRoots[n]).value.Dir?
    requires DistinctNames(located(policy.scanRoots[n]).value)
    requires Scanned(after, before, located(policy.scanRoots[n]).value, policy.scanRoots[n], policy, statuses)
    ensures RootsScanned(after, n + 1, located, policy, statuses)
  {
    RootScanned(located, policy, statuses, n, before, after);
  }

  method ScanRoots(located: Located, policy: ResolvedPolicy, statuses: Statuses, reliable: bool)
    returns (r: Result<seq<Entry>>, ghost faulted: bool)
    requires policy.Shaped()
    requires forall p :: located(p).Some? ==> DistinctNames(located(p).value)
    ensures r.Ok? ==> RootsScanned(r.value, |policy.scanRoots|, located, policy, statuses)
    ensures faulted ==> r == Err(Io) && !reliable
    ensures Scannable(located, policy, statuses) && !faulted ==> r.Ok?
  {
    var entries: seq<Entry> := [];
    faulted := false;
    for i := 0 to |policy.scanRoots|
      invariant !faulted && RootsScanned(entries, i, located, policy, statuses)
    {
      var root := policy.scanRoots[i];
      assert Scannable(located, policy, statuses) ==> CleanRoot(root, located);
      if located(root).None? {
        RootMissing(entries, i, located, policy, statuses);
      } else {
        var node := located(root).value;
        if !node.Dir? {
          return Err(InvalidData), faulted;
        }
        RootsHoldNoExactFile(policy, root);
        var next;
        next, faulted := ScanDir(node, root, policy, statuses, entries, reliable, root);
        if next.Err? {
          return next, faulted;
        }
        OneMoreRoot(entries, next.value, i, located, policy, statuses);
        entries := next.value;
      }
    }
    return Ok(entries), faulted;
  }

  method ScanExactFiles(located: Located, policy: ResolvedPolicy, statuses: Statuses, walked: seq<Entry>,
                        reliable: bool)
    returns (r: Result<seq<Entry>>, ghost faulted: bool)
    requires policy.Shaped() && Renderable(walked) && DistinctPaths(walked)
    requires forall e :: e in walked <==> BelowRoots(e, |policy.scanRoots|, located, policy, statuses)
    ensures r.Ok? ==> Renderable(r.value) && DistinctPaths(r.value)
    ensures r.Ok? ==> forall e :: e in r.value <==> e in walked || IsExactFile(e, located, policy)
    ensures faulted ==> r == Err(Io) && !reliable
    ensures Scannable(located, policy, statuses) && !faulted ==> r.Ok?
  {
    var entries := walked;
    faulted := false;
    for i := 0 to |policy.files|
      invariant Renderable(entries) && DistinctPaths(entries) && !faulted
      invariant forall e ::
        e in entries <==> e in walked || (e.path in policy.files[..i] && IsExactFile(e, located, policy))
    {
      var wireFile := policy.files[i];
      assert policy.files[..i + 1] == policy.files[..i] + [wireFile];
      if policy.ContainsPath(wireFile) && located(wireFile).Some? && located(wireFile).value.File? {
        var fault := FaultUnless(reliable);
        faulted := fault;
        var file := located(wireFile).value;
        var entry := if fault then Err(Io) else MakeEntry(wireFile, file.size, file.mtime);
        if entry.Err? {
          return Err(entry.error), faulted;
        }
        ExactFileIsNew(located, policy, statuses, walked, entries, i);
        entries := entries + [entry.value];
      }
    }
    assert policy.files[..|policy.files|] == policy.files;
    return Ok(entries), faulted;
  }

  /**
   `scan_manifest_sync`: a successful scan returns, sorted and without repetition, exactly the
   files the naive scan lists; it fails only by a read error or where something stands in its way, and
   it does fail where a scan root is no directory, or a run file cannot be read that decides whether
   some selected file is hidden.
   */
  method ScanManifest(located: Located, policy: ResolvedPolicy, statuses: Statuses, reliable: bool)
    returns (r: Result<seq<Entry>>, ghost faulted: bool)
    requires policy.Shaped()
    requires forall p :: located(p).Some? ==> DistinctNames(located(p).value)
    ensures r.Ok? ==> Renderable(r.value) && Sorted(r.value) && DistinctPaths(r.value)
    ensures r.Ok? ==> forall e :: e in r.value <==> ShouldList(e, located, policy, statuses)
    ensures r.Ok? ==> forall i :: 0 <= i < |policy.scanRoots| ==>
      RootDecided(policy.scanRoots[i], located, policy, statuses)
    ensures faulted ==> r == Err(Io) && !reliable
    ensures Scannable(located, policy, statuses) && !faulted ==> r.Ok?
  {
    var walked;
    walked, faulted := ScanRoots(located, policy, statuses, reliable);
    if walked.Err? {
      return walked, faulted;
    }
    var entries;
    entries, faulted := ScanExactFiles(located, policy, statuses, walked.value, reliable);
    if entries.Err? {
      return entries, faulted;
    }
    var sorted := SortEntries(entries.value);
    SortedMembers(entries.value, sorted);
    forall e
      ensures e in sorted <==> ShouldList(e, located, policy, statuses)
    {
      BelowRootsMeaning(e, |policy.scanRoots|, located, policy, statuses);
    }
    return Ok(sorted), faulted;
  }

  lemma SortedMembers(a: seq<Entry>, b: seq<Entry>)
    requires multiset(a) == multiset(b) && DistinctPaths(a)
    ensures DistinctPaths(b)
    ensures forall e :: e in b <==> e in a
    ensures Renderable(a) ==> Renderable(b)
  {
    assert Renderable(a) ==> forall e :: e in a ==> ValidPath(e.path);
    assert forall k :: 0 <= k < |b| ==> b[k] in b;
    assert forall e :: e in a <==> e in multiset(a);
    assert forall e :: e in b <==> e in multiset(b);
    forall i, j | 0 <= i < j < |b|
      ensures b[i].path != b[j].path
    {
      TwiceInMultiset(b, i, j);
      if b[i] == b[j] { OnceInDistinct(a, b[i]); }
      assert b[i] in a && b[j] in a;
    }
  }

  lemma TwiceInMultiset(s: seq<Entry>, i: nat, j: nat)
    requires i < j < |s|
    ensures s[i] == s[j] ==> multiset(s)[s[i]] >= 2
  {
    assert s == s[..i] + [s[i]] + s[i + 1..j] + [s[j]] + s[j + 1..];
  }

  lemma {:induction false} OnceInDistinct(s: seq<Entry>, e: Entry)
    requires DistinctPaths(s)
    ensures multiset(s)[e] <= 1
  {
    if s != [] {
      var n := |s| - 1;
      assert s == s[..n] + [s[n]];
      OnceInDistinct(s[..n], e);
      if e == s[n] { assert forall k :: 0 <= k < n ==> s[k] != s[n]; assert e !in s[..n]; }
    }
  }

  lemma {:induction false} DistinctFiles(node: Node, at: Path)
    requires DistinctNames(node)
    ensures DistinctPaths(AllFiles(node, at))
    decreases node, if node.Dir? then |node.children| + 1 else 0
  {
    if node.Dir? { DistinctChildren(node, |node.children|, at); }
  }

  lemma {:induction false} DistinctChildren(node: Node, n: nat, at: Path)
    requires node.Dir? && n <= |node.children| && DistinctNames(node)
    ensures DistinctPaths(AllChildren(node, n, at))
    ensures forall e :: e in AllChildren(node, n, at) ==>
      at < e.path && exists k :: 0 <= k < n && e.path[|at|] == node.children[k].0
    decreases node, n
  {
    if n > 0 {
      var last := node.children[n - 1];
      var a, b := AllChildren(node, n - 1, at), AllFiles(last.1, at + [last.0]);
      DistinctChildren(node, n - 1, at);
      DistinctFiles(last.1, at + [last.0]);
      FilesBelow(last.1, at + [last.0]);
      forall i, j | 0 <= i < |a| && 0 <= j < |b|
        ensures a[i].path != b[j].path
      {
        assert a[i] in a && b[j] in b;
        assert b[j].path[|at|] == last.0;
      }
      forall e | e in b
        ensures at < e.path && e.path[|at|] == last.0
      {
        assert (at + [last.0])[|at|] == last.0;
      }
    }
  }

  lemma {:induction false} KeepDistinct(entries: seq<Entry>, policy: ResolvedPolicy, statuses: Statuses)
    requires DistinctPaths(entries)
    ensures DistinctPaths(Keep(entries, policy, statuses))
  {
    if entries != [] {
      var n := |entries| - 1;
      KeepDistinct(entries[..n], policy, statuses);
      KeepMembers(entries[..n], policy, statuses);
      var kept := Keep(entries[..n], policy, statuses);
      forall i | 0 <= i < |kept|
        ensures kept[i].path != entries[n].path
      {
        assert kept[i] in entries[..n];
      }
    }
  }

  /** Scanning one more root adds exactly its in-scope files; roots lie apart, so nothing repeats. */
  lemma RootScanned(located: Located, policy: ResolvedPolicy, statuses: Statuses, i: nat, before: seq<Entry>,
                    after: seq<Entry>)
    requires policy.Shaped() && i < |policy.scanRoots|
    requires located(policy.scanRoots[i]).Some? && located(policy.scanRoots[i]).value.Dir?
    requires DistinctNames(located(policy.scanRoots[i]).value)
    requires Scanned(after, before, located(policy.scanRoots[i]).value, policy.scanRoots[i], policy, statuses)
    requires Renderable(before) && DistinctPaths(before)
    requires forall e :: e in before <==> BelowRoots(e, i, located, policy, statuses)
    ensures Renderable(after) && DistinctPaths(after)
    ensures forall e :: e in after <==> BelowRoots(e, i + 1, located, policy, statuses)
  {
    var root := policy.scanRoots[i];
    var node := located(root).value;
    var found := Keep(AllFiles(node, root), policy, statuses);
    KeepMembers(AllFiles(node, root), policy, statuses);
    DistinctFiles(node, root);
    KeepDistinct(AllFiles(node, root), policy, statuses);
    forall e | e in found
      ensures BelowRoot(e, root, located, policy, statuses) && root <= e.path
    {
      FilesBelow(node, root);
    }
    forall m, n | 0 <= m < |before| && 0 <= n < |found|
      ensures before[m].path != found[n].path
    {
      assert before[m] in before && found[n] in found;
      BelowRootsMeaning(before[m], i, located, policy, statuses);
      var k :| 0 <= k < i && BelowRoot(before[m], policy.scanRoots[k], located, policy, statuses);
      FilesBelow(located(policy.scanRoots[k]).value, policy.scanRoots[k]);
      ApartPaths(policy.scanRoots[k], root, before[m].path, found[n].path);
    }
    assert forall k :: 0 <= k < |before| ==> after[k] == before[k];
    forall e
      ensures e in after <==> BelowRoots(e, i + 1, located, policy, statuses)
    {
      assert e in after <==> e in before || e in found;
      assert e in found <==> BelowRoot(e, root, located, policy, statuses);
    }
  }

  lemma ApartPaths(a: Path, b: Path, p: Path, q: Path)
    requires Apart(a, b) && a <= p && b <= q
    ensures p != q
  {
    assert forall k :: 0 <= k < |a| ==> a[k] == p[k];
    assert forall k :: 0 <= k < |b| ==> b[k] == q[k];
  }

  /** An exact file is not below any scan root, so it is not listed yet. */
  lemma ExactFileIsNew(located: Located, policy: ResolvedPolicy, statuses: Statuses, walked: seq<Entry>,
                       entries: seq<Entry>, i: nat)
    requires policy.Shaped() && i < |policy.files|
    requires forall e :: e in walked <==> BelowRoots(e, |policy.scanRoots|, located, policy, statuses)
    requires forall e ::
      e in entries <==> e in walked || (e.path in policy.files[..i] && IsExactFile(e, located, policy))
    ensures forall k :: 0 <= k < |entries| ==> entries[k].path != policy.files[i]
  {
    forall e | e in entries
      ensures e.path != policy.files[i]
    {
      if e in walked {
        BelowRootsMeaning(e, |policy.scanRoots|, located, policy, statuses);
        var k :| 0 <= k < |policy.scanRoots| && BelowRoot(e, policy.scanRoots[k], located, policy, statuses);
        FilesBelow(located(policy.scanRoots[k]).value, policy.scanRoots[k]);
        FilesOutsideRoots(policy, policy.scanRoots[k], policy.files[i]);
      }
    }
    assert forall k :: 0 <= k < |entries| ==> entries[k] in entries;
  }
}
