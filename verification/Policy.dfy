/** Resolved dataset policies: scope tests, compacted scan roots, and the prune boundary. */
module Policy {
  import opened Wrappers
  import opened Seqs
  import opened Paths
  import opened Order
  import opened Rules
  import opened Catalog
  import opened Profiles

  const POLICY_VERSION := 1

  datatype ResolvedPolicy = ResolvedPolicy(
    selection: seq<string>,
    scanRoots: seq<Path>,
    files: seq<Path>,
    rules: seq<Rule>)
  {
    predicate ContainsPath(p: Path) {
      && !GloballyExcluded(p)
      && (p in files || exists i :: 0 <= i < |rules| && rules[i].Matches(p))
    }

    predicate ShouldDescendDir(dir: Path) {
      && !GloballyExcluded(dir)
      && exists i :: 0 <= i < |rules| && rules[i].MayMatchDescendant(dir)
    }

    predicate AllowsDelete(p: Path) { ContainsPath(p) }

    /** What the table guarantees of every resolved policy. */
    ghost predicate Shaped() {
      && (forall i :: 0 <= i < |scanRoots| ==> RootShape(scanRoots[i]))
      && (forall i :: 0 <= i < |files| ==> FileShape(files[i]))
      && (forall i, j :: 0 <= i < j < |files| ==> files[i] != files[j])
      && (forall i :: 0 <= i < |rules| ==> exists j :: 0 <= j < |scanRoots| && scanRoots[j] <= rules[i].Root())
      && (forall i :: 0 <= i < |rules| && rules[i].Prefix? ==> !(DATABASE_ROOT <= rules[i].root))
      && (forall i, j :: 0 <= i < j < |scanRoots| ==> Apart(scanRoots[i], scanRoots[j]))
    }
  }

  predicate Apart(p: Path, q: Path) { !(p <= q) && !(q <= p) }

  /** `roots` keeps exactly the minimal members of `inserted`, each once. */
  ghost predicate IsCompaction(roots: seq<Path>, inserted: set<Path>) {
    && (forall i, j :: 0 <= i < j < |roots| ==> Apart(roots[i], roots[j]))
    && (forall r :: r in roots <==> r in inserted && forall q :: q in inserted ==> !(q < r))
  }

  /** Inserting one root keeps the list the minimal roots of everything inserted so far. */
  method PushCompactRoot(roots: seq<Path>, root: Path, ghost inserted: set<Path>) returns (out: seq<Path>)
    requires IsCompaction(roots, inserted)
    ensures IsCompaction(out, inserted + {root})
  {
    if exists existing :: existing in roots && existing <= root {
      CompactKeep(roots, root, inserted);
      return roots;
    }
    out := [];
    for i := 0 to |roots|
      invariant forall r :: r in out <==> r in roots[..i] && !(root < r)
      invariant forall k, l :: 0 <= k < l < |out| ==> Apart(out[k], out[l])
    {
      if !Under(roots[i], root) {
        forall k | 0 <= k < |out|
          ensures Apart(out[k], roots[i])
        {
          assert out[k] in roots[..i];
        }
        out := out + [roots[i]];
      }
    }
    assert roots[..|roots|] == roots;
    CompactInsert(roots, root, inserted, out);
    out := out + [root];
  }

  lemma CompactKeep(roots: seq<Path>, root: Path, inserted: set<Path>)
    requires IsCompaction(roots, inserted)
    requires exists existing :: existing in roots && existing <= root
    ensures IsCompaction(roots, inserted + {root})
  {
    var e :| e in roots && e <= root;
    assert forall r :: r in roots ==> !(e < r);
    forall r | r in inserted + {root} && forall q :: q in inserted + {root} ==> !(q < r)
      ensures r in roots
    {
      if r == root { assert !(e < root) && e == root; }
    }
  }

  lemma CompactInsert(roots: seq<Path>, root: Path, inserted: set<Path>, kept: seq<Path>)
    requires IsCompaction(roots, inserted)
    requires forall existing :: existing in roots ==> !(existing <= root)
    requires forall r :: r in kept <==> r in roots && !(root < r)
    requires forall k, l :: 0 <= k < l < |kept| ==> Apart(kept[k], kept[l])
    ensures IsCompaction(kept + [root], inserted + {root})
  {
    forall q | q in inserted
      ensures !(q < root)
    {
      MinimalBelowOne(roots, inserted, q);
    }
    var out := kept + [root];
    forall i, j | 0 <= i < j < |out|
      ensures Apart(out[i], out[j])
    {
      if j == |kept| { assert kept[i] in roots; }
    }
    forall r | r in inserted + {root} && forall q :: q in inserted + {root} ==> !(q < r)
      ensures r in out
    {
      if r != root { assert r in roots && r in kept; }
    }
  }

  /** Every inserted root has a kept one above it or at it. */
  lemma {:induction false} MinimalBelow(roots: seq<Path>, inserted: set<Path>)
    requires IsCompaction(roots, inserted)
    ensures forall r :: r in inserted ==> exists q :: q in roots && q <= r
  {
    forall r | r in inserted
      ensures exists q :: q in roots && q <= r
    {
      MinimalBelowOne(roots, inserted, r);
    }
  }

  lemma {:induction false} MinimalBelowOne(roots: seq<Path>, inserted: set<Path>, r: Path)
    requires IsCompaction(roots, inserted) && r in inserted
    ensures exists q :: q in roots && q <= r
    decreases |r|
  {
    if r !in roots {
      var q :| q in inserted && q < r;
      MinimalBelowOne(roots, inserted, q);
    }
  }

  // ---------------------------------------------------------------- policy resolution

  ghost predicate UsesRoot(table: seq<Definition>, ids: seq<string>, r: Path) {
    exists i :: 0 <= i < |ids| && KnownId(table, ids[i]) && r in FindDefinition(table, ids[i]).value.scanRoots
  }

  ghost predicate UsesFile(table: seq<Definition>, ids: seq<string>, f: Path) {
    exists i :: 0 <= i < |ids| && KnownId(table, ids[i]) && f in FindDefinition(table, ids[i]).value.files
  }

  ghost predicate UsesRule(table: seq<Definition>, ids: seq<string>, rule: Rule) {
    exists i :: 0 <= i < |ids| && KnownId(table, ids[i]) && rule in FindDefinition(table, ids[i]).value.rules
  }

  ghost predicate TableShaped(table: seq<Definition>) {
    forall d :: d in table ==> DefinitionShape(d)
  }

  /** Roots, files and rules gathered from the first `i` dataset ids. */
  ghost predicate Gathered(table: seq<Definition>, ids: seq<string>, inserted: set<Path>, files: seq<Path>,
                           rules: seq<Rule>) {
    && (forall p :: p in inserted <==> UsesRoot(table, ids, p))
    && (forall f :: f in files <==> UsesFile(table, ids, f))
    && (forall rule :: rule in rules <==> UsesRule(table, ids, rule))
    && Distinct(files)
  }

  method AddRoots(roots: seq<Path>, more: seq<Path>, ghost inserted: set<Path>)
    returns (out: seq<Path>, ghost all: set<Path>)
    requires IsCompaction(roots, inserted)
    ensures IsCompaction(out, all)
    ensures forall p :: p in all <==> p in inserted || p in more
  {
    out, all := roots, inserted;
    assert inserted + Elems(more[..0]) == inserted;
    for k := 0 to |more|
      invariant IsCompaction(out, all) && all == inserted + Elems(more[..k])
    {
      out := PushCompactRoot(out, more[k], all);
      all := all + {more[k]};
      ElemsStep(more, k);
    }
    assert more[..|more|] == more;
  }

  /** The iteration order of a `BTreeSet`: ascending by text, each file once. */
  ghost predicate SortedFiles(files: seq<Path>) {
    && Distinct(files)
    && forall m, n :: 0 <= m < n < |files| ==> TextLeq(TextOf(files[m]), TextOf(files[n]))
  }

  method InsertFile(files: seq<Path>, f: Path) returns (out: seq<Path>)
    requires SortedFiles(files)
    ensures SortedFiles(out) && forall x :: x in out <==> x in files || x == f
  {
    if f in files {
      return files;
    }
    var k := 0;
    while k < |files| && TextLeq(TextOf(files[k]), TextOf(f))
      invariant k <= |files| && forall m :: 0 <= m < k ==> TextLeq(TextOf(files[m]), TextOf(f))
    {
      k := k + 1;
    }
    if k < |files| { TextLeqTotal(TextOf(files[k]), TextOf(f)); }
    InsertedAt(files, k, f);
    SplicedMeaning(files, k, f);
    return Spliced(files, k, f);
  }

  function Spliced<T>(s: seq<T>, k: nat, x: T): seq<T>
    requires k <= |s|
  {
    s[..k] + [x] + s[k..]
  }

  lemma SplicedMeaning<T>(s: seq<T>, k: nat, x: T)
    requires k <= |s|
    ensures |Spliced(s, k, x)| == |s| + 1
    ensures forall i :: 0 <= i <= |s| ==> Spliced(s, k, x)[i] == if i < k then s[i] else if i == k then x else s[i - 1]
    ensures forall y :: y in Spliced(s, k, x) <==> y in s || y == x
  {
    assert s == s[..k] + s[k..];
  }

  /** Between the files up to it and those after it, a new file keeps the order. */
  lemma InsertedAt(files: seq<Path>, k: nat, f: Path)
    requires SortedFiles(files) && f !in files && k <= |files|
    requires forall m :: 0 <= m < k ==> TextLeq(TextOf(files[m]), TextOf(f))
    requires k < |files| ==> TextLeq(TextOf(f), TextOf(files[k]))
    ensures SortedFiles(Spliced(files, k, f))
  {
    SplicedMeaning(files, k, f);
    forall n | k <= n < |files|
      ensures TextLeq(TextOf(f), TextOf(files[n]))
    {
      if n > k { TextLeqTransitive(TextOf(f), TextOf(files[k]), TextOf(files[n])); }
    }
  }

  method AddFiles(files: seq<Path>, more: seq<Path>) returns (out: seq<Path>)
    requires SortedFiles(files)
    ensures SortedFiles(out) && forall f :: f in out <==> f in files || f in more
  {
    out := files;
    for k := 0 to |more|
      invariant SortedFiles(out) && forall f :: f in out <==> f in files || f in more[..k]
    {
      out := InsertFile(out, more[k]);
      assert more[..k + 1] == more[..k] + [more[k]];
    }
    assert more[..|more|] == more;
  }

  /** What the gathering loop has collected. */
  datatype Gathering = Gathering(scanRoots: seq<Path>, files: seq<Path>, rules: seq<Rule>)

  ghost predicate GatheredFrom(table: seq<Definition>, ids: seq<string>, g: Gathering, inserted: set<Path>) {
    IsCompaction(g.scanRoots, inserted) && Gathered(table, ids, inserted, g.files, g.rules) && SortedFiles(g.files)
  }

  /** The dataset's roots, files and rules added, what is gathered is that of one dataset more. */
  lemma GatheredStep(table: seq<Definition>, ids: seq<string>, i: nat, inserted: set<Path>, g: Gathering,
                     all: set<Path>, files: seq<Path>)
    requires i < |ids| && KnownId(table, ids[i]) && Gathered(table, ids[..i], inserted, g.files, g.rules)
    requires Distinct(files)
    requires var d := FindDefinition(table, ids[i]).value;
      && (forall p :: p in all <==> p in inserted || p in d.scanRoots)
      && (forall f :: f in files <==> f in g.files || f in d.files)
    ensures Gathered(table, ids[..i + 1], all, files, g.rules + FindDefinition(table, ids[i]).value.rules)
  {
    UsesStep(table, ids, i);
  }

  /** One turn of the gathering loop. */
  method GatherOne(table: seq<Definition>, datasetIds: seq<string>, i: nat, g: Gathering, ghost inserted: set<Path>)
    returns (out: Gathering, ghost all: set<Path>)
    requires i < |datasetIds| && KnownId(table, datasetIds[i]) && GatheredFrom(table, datasetIds[..i], g, inserted)
    ensures GatheredFrom(table, datasetIds[..i + 1], out, all)
  {
    var definition := FindDefinition(table, datasetIds[i]).value;
    var roots;
    roots, all := AddRoots(g.scanRoots, definition.scanRoots, inserted);
    var files := AddFiles(g.files, definition.files);
    GatheredStep(table, datasetIds, i, inserted, g, all, files);
    out := Gathering(roots, files, g.rules + definition.rules);
  }

  /** The gathering loop of `from_selection`; a profile may name a dataset that the table does not have. */
  method GatherDefinitions(table: seq<Definition>, datasetIds: seq<string>)
    returns (r: Option<Gathering>, ghost inserted: set<Path>)
    ensures r.Some? <==> forall k :: 0 <= k < |datasetIds| ==> KnownId(table, datasetIds[k])
    ensures r.Some? ==> GatheredFrom(table, datasetIds, r.value, inserted)
  {
    var g := Gathering([], [], []);
    inserted := {};
    for i := 0 to |datasetIds|
      invariant GatheredFrom(table, datasetIds[..i], g, inserted)
      invariant forall k :: 0 <= k < i ==> KnownId(table, datasetIds[k])
    {
      if FindDefinition(table, datasetIds[i]).None? {
        return None, inserted;
      }
      g, inserted := GatherOne(table, datasetIds, i, g, inserted);
    }
    assert datasetIds[..|datasetIds|] == datasetIds;
    return Some(g), inserted;
  }

  lemma {:induction false} SelectedIsLeaf(t: ProfileTable, ids: seq<string>, i: nat)
    requires i < |ids|
    ensures forall id :: id in LeavesOf(t, ids[i]) ==> id in Leaves(t, ids)
    decreases |ids|
  {
    var init := ids[..|ids| - 1];
    if i < |init| { SelectedIsLeaf(t, init, i); }
  }

  /**
   `from_selection` over a table and its profiles: it fails on a foreign version, an unknown id or
   an empty selection; otherwise the policy selects each dataset once, in the order of first
   appearance, and has exactly their rules, their files in order, and the minimal ones of their
   scan roots.
   */
  method FromTable(table: seq<Definition>, t: ProfileTable, version: int, ids: seq<string>)
    returns (r: Result<ResolvedPolicy>)
    requires TableShaped(table)
    ensures r.Ok? <==>
      && version == POLICY_VERSION && Leaves(t, ids) != []
      && forall id :: id in Leaves(t, ids) ==> KnownId(table, id)
    ensures r.Err? ==> r.error == InvalidData
    ensures r.Ok? ==> r.value.selection == Firsts(Leaves(t, ids)) && SortedFiles(r.value.files)
    ensures r.Ok? ==> Resolves(r.value, table, Leaves(t, ids))
    ensures r.Ok? ==> r.value.Shaped()
  {
    if version != POLICY_VERSION {
      return Err(InvalidData);
    }
    forall i | 0 <= i < |ids|
      ensures forall id :: id in LeavesOf(t, ids[i]) ==> id in Leaves(t, ids)
    {
      SelectedIsLeaf(t, ids, i);
    }
    var datasetIds :- ExpandDatasetIds(table, t, ids);
    SelectedOnce(t, ids);
    if datasetIds == [] {
      return Err(InvalidData);
    }
    var gathered, inserted := GatherDefinitions(table, datasetIds);
    if gathered.None? {
      return Err(InvalidData);
    }
    var g := gathered.value;
    GatheredShape(table, datasetIds, inserted, g.files, g.rules, g.scanRoots);
    SameUses(table, datasetIds, Leaves(t, ids));
    return Ok(ResolvedPolicy(datasetIds, g.scanRoots, g.files, g.rules));
  }

  lemma SelectedOnce(t: ProfileTable, ids: seq<string>)
    ensures Distinct(Firsts(Leaves(t, ids)))
    ensures forall id :: id in Firsts(Leaves(t, ids)) <==> id in Leaves(t, ids)
    ensures Firsts(Leaves(t, ids)) == [] <==> Leaves(t, ids) == []
  {
    FirstsMeaning(Leaves(t, ids));
    assert forall id :: id in Firsts(Leaves(t, ids)) <==> id in Elems(Firsts(Leaves(t, ids)));
  }

  /** The policy is the one the selected ids describe. */
  ghost predicate Resolves(policy: ResolvedPolicy, table: seq<Definition>, ids: seq<string>) {
    && (forall id :: id in policy.selection <==> id in ids)
    && Distinct(policy.selection)
    && (forall rule :: rule in policy.rules <==> UsesRule(table, ids, rule))
    && (forall f :: f in policy.files <==> UsesFile(table, ids, f))
    && (forall p :: p in policy.scanRoots
          <==> UsesRoot(table, ids, p) && forall q :: UsesRoot(table, ids, q) ==> !(q < p))
  }

  lemma UsesStep(table: seq<Definition>, ids: seq<string>, i: nat)
    requires i < |ids| && KnownId(table, ids[i])
    ensures var d := FindDefinition(table, ids[i]).value;
      && (forall p :: UsesRoot(table, ids[..i + 1], p) <==> UsesRoot(table, ids[..i], p) || p in d.scanRoots)
      && (forall f :: UsesFile(table, ids[..i + 1], f) <==> UsesFile(table, ids[..i], f) || f in d.files)
      && (forall rule :: UsesRule(table, ids[..i + 1], rule) <==> UsesRule(table, ids[..i], rule) || rule in d.rules)
  {
    var next, prev := ids[..i + 1], ids[..i];
    assert next == prev + [ids[i]];
    assert forall k :: 0 <= k < i ==> next[k] == prev[k];
    assert next[i] == ids[i];
  }

  lemma SameUses(table: seq<Definition>, a: seq<string>, b: seq<string>)
    requires forall id :: id in a <==> id in b
    ensures forall p :: UsesRoot(table, a, p) <==> UsesRoot(table, b, p)
    ensures forall f :: UsesFile(table, a, f) <==> UsesFile(table, b, f)
    ensures forall rule :: UsesRule(table, a, rule) <==> UsesRule(table, b, rule)
  {
    assert forall i :: 0 <= i < |a| ==> a[i] in b;
    assert forall i :: 0 <= i < |b| ==> b[i] in a;
  }

  ghost predicate Anchored(rule: Rule, scanRoots: seq<Path>) {
    && (exists j :: 0 <= j < |scanRoots| && scanRoots[j] <= rule.Root())
    && (rule.Prefix? ==> !(DATABASE_ROOT <= rule.root))
  }

  /** A gathered rule is anchored at or below a kept scan root. */
  lemma GatheredRule(table: seq<Definition>, ids: seq<string>, inserted: set<Path>, scanRoots: seq<Path>, rule: Rule)
    requires TableShaped(table) && IsCompaction(scanRoots, inserted) && UsesRule(table, ids, rule)
    requires forall p :: p in inserted <==> UsesRoot(table, ids, p)
    ensures Anchored(rule, scanRoots)
  {
    var k :| 0 <= k < |ids| && KnownId(table, ids[k]) && rule in FindDefinition(table, ids[k]).value.rules;
    var d := FindDefinition(table, ids[k]).value;
    assert DefinitionShape(d);
    assert rule.Root() in d.scanRoots;
    assert UsesRoot(table, ids, rule.Root());
    MinimalBelowOne(scanRoots, inserted, rule.Root());
  }

  /** Gathered roots and files have the shape of their definitions. */
  lemma GatheredPaths(table: seq<Definition>, ids: seq<string>)
    requires TableShaped(table)
    ensures forall p :: UsesRoot(table, ids, p) ==> RootShape(p)
    ensures forall f :: UsesFile(table, ids, f) ==> FileShape(f)
  {
  }

  lemma GatheredRules(table: seq<Definition>, ids: seq<string>, inserted: set<Path>, scanRoots: seq<Path>,
                      rules: seq<Rule>)
    requires TableShaped(table) && IsCompaction(scanRoots, inserted)
    requires forall p :: p in inserted <==> UsesRoot(table, ids, p)
    requires forall rule :: rule in rules ==> UsesRule(table, ids, rule)
    ensures forall i :: 0 <= i < |rules| ==> Anchored(rules[i], scanRoots)
  {
    forall i | 0 <= i < |rules|
      ensures Anchored(rules[i], scanRoots)
    {
      assert rules[i] in rules;
      GatheredRule(table, ids, inserted, scanRoots, rules[i]);
    }
  }

  lemma GatheredShape(table: seq<Definition>, ids: seq<string>, inserted: set<Path>, files: seq<Path>, rules: seq<Rule>,
                      scanRoots: seq<Path>)
    requires TableShaped(table) && Gathered(table, ids, inserted, files, rules)
    requires IsCompaction(scanRoots, inserted)
    ensures ResolvedPolicy(ids, scanRoots, files, rules).Shaped()
  {
    GatheredPaths(table, ids);
    GatheredRules(table, ids, inserted, scanRoots, rules);
    assert forall i :: 0 <= i < |scanRoots| ==> scanRoots[i] in inserted;
    assert forall i :: 0 <= i < |files| ==> UsesFile(table, ids, files[i]);
  }

  // ---------------------------------------------------------------- facts about scope

  /** With the rules of a shaped policy, a path not listed as an exact file lies below a scan root. */
  lemma ScopeUnderRoots(policy: ResolvedPolicy, p: Path)
    requires policy.Shaped() && policy.ContainsPath(p) && p !in policy.files
    ensures exists j :: 0 <= j < |policy.scanRoots| && policy.scanRoots[j] <= p
  {
    var i :| 0 <= i < |policy.rules| && policy.rules[i].Matches(p);
    MatchUnderRoot(policy.rules[i], p);
    var j :| 0 <= j < |policy.scanRoots| && policy.scanRoots[j] <= policy.rules[i].Root();
    assert policy.scanRoots[j] <= p;
  }

  /** Exact files never lie at or below a scan root. */
  lemma FilesOutsideRoots(policy: ResolvedPolicy, root: Path, f: Path)
    requires RootShape(root) && FileShape(f)
    ensures !(root <= f)
  {
  }

  /** Every directory between a scan root and an in-scope file is descended into. */
  lemma AncestorsDescended(policy: ResolvedPolicy, p: Path, dir: Path)
    requires policy.ContainsPath(p) && p !in policy.files && dir < p
    ensures policy.ShouldDescendDir(dir)
  {
    if GloballyExcluded(dir) { ExclusionInherited(dir, p); }
    var i :| 0 <= i < |policy.rules| && policy.rules[i].Matches(p);
    AncestorMayMatch(policy.rules[i], p, dir);
  }

  /** The files of one database namespace are in scope together. */
  lemma NamespaceScope(policy: ResolvedPolicy, p: Path, q: Path)
    requires policy.Shaped() && Namespace(p).Some? && Namespace(p) == Namespace(q)
    ensures policy.ContainsPath(p) <==> policy.ContainsPath(q)
  {
    if policy.ContainsPath(p) { NamespaceScopeHalf(policy, p, q); }
    if policy.ContainsPath(q) { NamespaceScopeHalf(policy, q, p); }
  }

  lemma TemporarySuffix(s: string)
    requires Text.EndsWith(s, ".ttsync.tmp")
    ensures Text.EndsWith(s, ".tmp") && s[|s| - 4] == '.' && s[|s| - 1] == 'p'
  {
    assert s[|s| - 4..] == s[|s| - 11..][7..];
  }

  lemma NamespaceNotExcluded(p: Path)
    requires Namespace(p).Some?
    ensures !GloballyExcluded(p)
  {
    NamespacePathShape(p);
    NamespaceComponents(p);
    assert p[0] == "_tauritavern" && p[1] == "databases";
    assert forall i :: 0 <= i < |EXCLUDED_PREFIXES| ==> !(EXCLUDED_PREFIXES[i] <= p) by {
      assert EXCLUDED_PREFIXES[0][0] == "default-user" && EXCLUDED_PREFIXES[3][0] == "_cache";
      assert EXCLUDED_PREFIXES[1][1] == "prompt-cache" != p[1];
      assert EXCLUDED_PREFIXES[2][1] == ".ios-policy.json" != p[1];
      assert p[0] != "default-user" && p[0] != "_cache";
    }
  }

  lemma NamespaceComponents(p: Path)
    requires Namespace(p).Some?
    ensures forall i :: 0 <= i < |p| ==> !ExcludedComponent(p[i])
  {
    NamespacePathShape(p);
    var name, file := p[2], p[3];
    assert p[0] == "_tauritavern" && p[1] == "databases";
    assert "db-" <= name && name[0] == 'd';
    assert file[0] == 'd' by {
      if file != "database.tdb" {
        assert "database.tdb." <= file;
        assert file[0] == "database.tdb."[0];
      }
    }
    forall i | 0 <= i < |p|
      ensures !ExcludedComponent(p[i])
    {
      assert p[i] == "_tauritavern" || p[i] == "databases" || p[i] == name || p[i] == file;
      NamespacePartIsPlain(p[i], name, file);
    }
  }

  lemma NamespacePartIsPlain(part: string, name: string, file: string)
    requires IsNamespaceName(name) && IsDatabaseFile(file) && name[0] == 'd' && file[0] == 'd'
    requires part == "_tauritavern" || part == "databases" || part == name || part == file
    ensures !ExcludedComponent(part)
  {
    assert part[0] != '.';
    if Text.EndsWith(part, ".ttsync.tmp") {
      TemporarySuffix(part);
    }
  }

  lemma NamespaceScopeHalf(policy: ResolvedPolicy, p: Path, q: Path)
    requires policy.Shaped() && Namespace(p).Some? && Namespace(p) == Namespace(q)
    requires policy.ContainsPath(p)
    ensures policy.ContainsPath(q)
  {
    NamespaceNotExcluded(q);
    NamespacePathShape(p);
    assert p[0] == "_tauritavern" != "default-user";
    assert p !in policy.files;
    var i :| 0 <= i < |policy.rules| && policy.rules[i].Matches(p);
    NamespaceMatchesTogether(policy.rules[i], p, q);
  }

  // ---------------------------------------------------------------- the prune boundary

  predicate HasMatch(d: Definition, p: Path) { exists i :: 0 <= i < |d.rules| && d.rules[i].Matches(p) }

  predicate ExactFile(table: seq<Definition>, p: Path) { exists d :: d in table && p in d.files }

  /** A path the catalog knows: exact file or rule match, and not globally excluded. */
  predicate InCatalog(table: seq<Definition>, p: Path) {
    !GloballyExcluded(p) && (ExactFile(table, p) || exists d :: d in table && HasMatch(d, p))
  }

  /** `b` is a scan root of a definition matching `p`, and the deepest such root above `p`. */
  ghost predicate DeepestRoot(table: seq<Definition>, p: Path, b: Path) {
    && b <= p
    && (exists d :: d in table && HasMatch(d, p) && b in d.scanRoots)
    && forall d, r :: d in table && HasMatch(d, p) && r in d.scanRoots && r <= p ==> r <= b
  }

  /** The longest root at or above the path, as the `max_by_key` chain finds it. */
  method LongestRoot(roots: seq<Path>, p: Path) returns (r: Option<Path>)
    ensures r.None? <==> forall q :: q in roots ==> !(q <= p)
    ensures r.Some? ==> r.value in roots && r.value <= p && forall q :: q in roots && q <= p ==> q <= r.value
  {
    r := None;
    for i := 0 to |roots|
      invariant r.None? ==> forall q :: q in roots[..i] ==> !(q <= p)
      invariant r.Some? ==> r.value in roots[..i] && r.value <= p && forall q :: q in roots[..i] && q <= p ==>
        q <= r.value
    {
      assert roots[..i + 1] == roots[..i] + [roots[i]];
      assert forall q :: q <= p ==> q == p[..|q|];
      if SameOrUnder(p, roots[i]) && (r.None? || |roots[i]| >= |r.value|) {
        r := Some(roots[i]);
      }
    }
    assert roots[..|roots|] == roots;
  }

  /** `prune_boundary_for_path`: an error outside the catalog, nothing for exact files, else the deepest root. */
  method PruneBoundaryForPath(table: seq<Definition>, p: Path) returns (r: Result<Option<Path>>)
    requires TableShaped(table)
    ensures r.Ok? <==> InCatalog(table, p)
    ensures r.Err? ==> r.error == InvalidData
    ensures r.Ok? ==> (r.value.None? <==> ExactFile(table, p))
    ensures r.Ok? && r.value.Some? ==> DeepestRoot(table, p, r.value.value)
  {
    if GloballyExcluded(p) {
      return Err(InvalidData);
    }
    if ExactFile(table, p) {
      return Ok(None);
    }
    var boundary: Option<Path> := None;
    for i := 0 to |table|
      invariant boundary.None? <==> forall d :: d in table[..i] ==> !HasMatch(d, p)
      invariant boundary.Some? ==> DeepestRoot(table[..i], p, boundary.value)
    {
      var d := table[i];
      assert table[..i + 1] == table[..i] + [d];
      if HasMatch(d, p) {
        RootAboveMatch(d, p);
        var matching := LongestRoot(d.scanRoots, p);
        if boundary.None? || |matching.value| > |boundary.value| {
          boundary := matching;
        }
      }
    }
    assert table[..|table|] == table;
    return if boundary.Some? then Ok(boundary) else Err(InvalidData);
  }

  lemma RootAboveMatch(d: Definition, p: Path)
    requires DefinitionShape(d) && HasMatch(d, p)
    ensures exists q :: q in d.scanRoots && q <= p
  {
    var i :| 0 <= i < |d.rules| && d.rules[i].Matches(p);
    MatchUnderRoot(d.rules[i], p);
  }

  /** A path a policy lets a plan delete always has a prune decision. */
  lemma DeletableInCatalog(policy: ResolvedPolicy, table: seq<Definition>, ids: seq<string>, p: Path)
    requires Resolves(policy, table, ids) && policy.AllowsDelete(p)
    ensures InCatalog(table, p)
  {
    if p in policy.files {
      assert UsesFile(table, ids, p);
    } else {
      var i :| 0 <= i < |policy.rules| && policy.rules[i].Matches(p);
      assert UsesRule(table, ids, policy.rules[i]);
      var k :| 0 <= k < |ids| && KnownId(table, ids[k]) && policy.rules[i] in FindDefinition(table, ids[k]).value.rules;
      var d := FindDefinition(table, ids[k]).value;
      var m :| 0 <= m < |d.rules| && d.rules[m] == policy.rules[i];
      assert HasMatch(d, p);
    }
  }
}
