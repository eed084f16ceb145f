/**
 The tests of rules and exclusions as the program runs them, on the wire text of a path, and what
 they select: the directories and files of the datasets named, and nothing else.
 */
module WireRules {
  import opened Wrappers
  import opened Text
  import opened Paths
  import opened Rules
  import opened Catalog
  import opened Policy

  /** `is_same_or_under`. */
  predicate SameOrUnderText(text: string, prefix: string) { text == prefix || IsUnderText(text, prefix) }

  const EXCLUDED_TEXTS: seq<string> := [
    "default-user/user/lan-sync",
    "_tauritavern/prompt-cache",
    "_tauritavern/.ios-policy.json",
    "_cache"
  ]

  /** `is_globally_excluded`. */
  predicate ExcludedText(text: string) {
    || (exists i :: 0 <= i < |EXCLUDED_TEXTS| && SameOrUnderText(text, EXCLUDED_TEXTS[i]))
    || exists part :: part in Split(text, '/')
         && (part == ".staging" || ".tmp-" <= part || EndsWith(part, ".ttsync.tmp"))
  }

  /** `is_agent_workspace_path`. */
  predicate WorkspaceParts(parts: seq<string>) {
    |parts| > 4 && parts[0] == "_tauritavern" && parts[1] == "agent-workspaces" && parts[2] == "chats"
  }

  /** `is_agent_run_path`. */
  predicate RunParts(parts: seq<string>) { WorkspaceParts(parts) && parts[4] == "runs" }

  /** `DatasetRule::matches`. */
  predicate RuleAccepts(rule: Rule, text: string) {
    var parts := Split(text, '/');
    match rule
    case Prefix(root) => SameOrUnderText(text, TextOf(root))
    case Database => NamespaceDirectory(text).Some?
    case WorkspaceComponent(component) => WorkspaceParts(parts) && |parts| > 5 && parts[4] == component
    case RunFile(fileName) => RunParts(parts) && |parts| == 7 && parts[6] == fileName
    case RunComponent(component) => RunParts(parts) && |parts| > 6 && parts[6] == component
  }

  /** `is_agent_run_root_dir`. */
  predicate RunRootText(text: string) {
    var parts := Split(text, '/');
    |parts| == 6 && RunParts(parts)
  }

  /** `is_agent_run_index_file`. */
  predicate RunIndexText(text: string) {
    var parts := Split(text, '/');
    && |parts| == 5 && parts[0] == "_tauritavern" && parts[1] == "agent-workspaces" && parts[2] == "index"
    && parts[3] == "runs" && EndsWith(parts[4], ".json")
  }

  // ---------------------------------------------------------------- the same on segments

  lemma SameOrUnderMeaning(p: Path, q: Path)
    requires ValidPath(p) && ValidPath(q)
    ensures SameOrUnderText(Render(p), Render(q)) <==> SameOrUnder(p, q)
  {
    IsUnderMeaning(p, q);
  }

  lemma TwoParts(a: string, b: string)
    ensures Render([a, b]) == a + "/" + b
  {
    assert [a, b][1..] == [b];
    assert Join([b], '/') == b;
  }

  lemma ThreeParts(a: string, b: string, c: string)
    ensures Render([a, b, c]) == a + "/" + (b + "/" + c)
  {
    assert [a, b, c][1..] == [b, c];
    TwoParts(b, c);
  }

  lemma LanSyncText()
    ensures ValidPath(EXCLUDED_PREFIXES[0]) && Render(EXCLUDED_PREFIXES[0]) == EXCLUDED_TEXTS[0]
  {
    ThreeParts("default-user", "user", "lan-sync");
    assert EXCLUDED_PREFIXES[0] == ["default-user", "user", "lan-sync"];
    assert "default-user" + "/" + ("user" + "/" + "lan-sync") == EXCLUDED_TEXTS[0];
  }

  lemma PromptCacheText()
    ensures ValidPath(EXCLUDED_PREFIXES[1]) && Render(EXCLUDED_PREFIXES[1]) == EXCLUDED_TEXTS[1]
  {
    TwoParts("_tauritavern", "prompt-cache");
    assert EXCLUDED_PREFIXES[1] == ["_tauritavern", "prompt-cache"];
    assert "_tauritavern" + "/" + "prompt-cache" == EXCLUDED_TEXTS[1];
  }

  lemma PolicyFileText()
    ensures ValidPath(EXCLUDED_PREFIXES[2]) && Render(EXCLUDED_PREFIXES[2]) == EXCLUDED_TEXTS[2]
  {
    TwoParts("_tauritavern", ".ios-policy.json");
    assert EXCLUDED_PREFIXES[2] == ["_tauritavern", ".ios-policy.json"];
    assert "_tauritavern" + "/" + ".ios-policy.json" == EXCLUDED_TEXTS[2];
  }

  lemma CacheText()
    ensures ValidPath(EXCLUDED_PREFIXES[3]) && Render(EXCLUDED_PREFIXES[3]) == EXCLUDED_TEXTS[3]
  {
    assert EXCLUDED_PREFIXES[3] == ["_cache"];
  }

  lemma ExcludedPrefixText(i: nat)
    requires i < |EXCLUDED_PREFIXES|
    ensures i < |EXCLUDED_TEXTS| && ValidPath(EXCLUDED_PREFIXES[i]) && Render(EXCLUDED_PREFIXES[i]) == EXCLUDED_TEXTS[i]
  {
    LanSyncText();
    PromptCacheText();
    PolicyFileText();
    CacheText();
  }

  /** Exclusion on segments is the program's test on the text. */
  lemma ExcludedMeaning(p: Path)
    requires ValidPath(p)
    ensures GloballyExcluded(p) <==> ExcludedText(Render(p))
  {
    SegmentsOfRender(p);
    forall i | 0 <= i < |EXCLUDED_PREFIXES|
      ensures i < |EXCLUDED_TEXTS|
      ensures SameOrUnder(p, EXCLUDED_PREFIXES[i]) <==> SameOrUnderText(Render(p), EXCLUDED_TEXTS[i])
    {
      ExcludedPrefixText(i);
      SameOrUnderMeaning(p, EXCLUDED_PREFIXES[i]);
    }
    assert |EXCLUDED_TEXTS| == |EXCLUDED_PREFIXES|;
    assert forall i :: 0 <= i < |p| ==> p[i] in Split(Render(p), '/');
  }

  /** A rule matches a path exactly if the program's test accepts its text. */
  lemma RuleMeaning(rule: Rule, p: Path)
    requires ValidPath(p) && (rule.Prefix? ==> ValidPath(rule.root))
    ensures rule.Matches(p) <==> RuleAccepts(rule, Render(p))
  {
    SegmentsOfRender(p);
    match rule
    case Prefix(root) => SameOrUnderMeaning(p, root);
    case Database => NamespaceDirectoryMeaning(Render(p));
    case _ => assert CHATS <= p <==> |p| >= 3 && p[0] == CHATS[0] && p[1] == CHATS[1] && p[2] == CHATS[2];
  }

  lemma RunTestsMeaning(p: Path)
    requires ValidPath(p)
    ensures IsRunRootDir(p) <==> RunRootText(Render(p))
    ensures IsRunIndexFile(p) <==> RunIndexText(Render(p))
  {
    SegmentsOfRender(p);
    assert CHATS <= p <==> |p| >= 3 && p[0] == CHATS[0] && p[1] == CHATS[1] && p[2] == CHATS[2];
    assert RUN_INDEX <= p <==>
      |p| >= 4 && p[0] == RUN_INDEX[0] && p[1] == RUN_INDEX[1] && p[2] == RUN_INDEX[2] && p[3] == RUN_INDEX[3];
  }

  // ---------------------------------------------------------------- what a selection selects

  /** Some dataset of the selection has the path among its exact files, or a rule that accepts it. */
  ghost predicate SelectsText(table: seq<Definition>, ids: seq<string>, text: string) {
    || (exists f :: UsesFile(table, ids, f) && TextOf(f) == text)
    || exists rule :: UsesRule(table, ids, rule) && RuleAccepts(rule, text)
  }

  /** The paths in the policy are usable on the wire. */
  ghost predicate WireReady(policy: ResolvedPolicy) {
    && (forall f :: f in policy.files ==> ValidPath(f))
    && (forall rule :: rule in policy.rules && rule.Prefix? ==> ValidPath(rule.root))
  }

  /** In scope is exactly what some dataset of the selection selects and no exclusion takes out. */
  lemma ScopeMeaning(policy: ResolvedPolicy, table: seq<Definition>, ids: seq<string>, p: Path)
    requires Resolves(policy, table, ids) && WireReady(policy) && ValidPath(p)
    ensures policy.ContainsPath(p) <==> !ExcludedText(Render(p)) && SelectsText(table, ids, Render(p))
  {
    ExcludedMeaning(p);
    if i :| 0 <= i < |policy.rules| && policy.rules[i].Matches(p) {
      RuleMeaning(policy.rules[i], p);
      assert UsesRule(table, ids, policy.rules[i]);
    }
    if rule :| UsesRule(table, ids, rule) && RuleAccepts(rule, Render(p)) {
      RuleMeaning(rule, p);
      var i :| 0 <= i < |policy.rules| && policy.rules[i] == rule;
    }
    if p in policy.files { assert UsesFile(table, ids, p); }
    if f :| UsesFile(table, ids, f) && TextOf(f) == Render(p) {
      SegmentsOfRender(f);
      SegmentsOfRender(p);
    }
  }

  /** Everything at or below a directory of a selected public dataset is in scope, unless it is excluded. */
  lemma PublicDirectoryInScope(policy: ResolvedPolicy, table: seq<Definition>, ids: seq<string>, id: string,
                               dirs: seq<Path>, files: seq<Path>, d: Path, p: Path)
    requires Resolves(policy, table, ids) && id in ids && FindDefinition(table, id) == Some(Public(id, dirs, files))
    requires d in dirs && d <= p && !GloballyExcluded(p)
    ensures policy.ContainsPath(p)
  {
    var k :| 0 <= k < |ids| && ids[k] == id;
    var i :| 0 <= i < |dirs| && dirs[i] == d;
    assert Public(id, dirs, files).rules[i] == Prefix(d);
    assert UsesRule(table, ids, Prefix(d));
    var j :| 0 <= j < |policy.rules| && policy.rules[j] == Prefix(d);
    assert policy.rules[j].Matches(p);
  }

  /** And a kept scan root stands at or above that directory. */
  lemma PublicRootAbove(policy: ResolvedPolicy, table: seq<Definition>, ids: seq<string>, id: string, dirs: seq<Path>,
                        files: seq<Path>, d: Path)
    requires policy.Shaped() && Resolves(policy, table, ids)
    requires id in ids && FindDefinition(table, id) == Some(Public(id, dirs, files)) && d in dirs
    ensures exists j :: 0 <= j < |policy.scanRoots| && policy.scanRoots[j] <= d
  {
    var k :| 0 <= k < |ids| && ids[k] == id;
    var i :| 0 <= i < |dirs| && dirs[i] == d;
    assert Public(id, dirs, files).rules[i] == Prefix(d);
    assert UsesRule(table, ids, Prefix(d));
    var n :| 0 <= n < |policy.rules| && policy.rules[n] == Prefix(d);
    var j :| 0 <= j < |policy.scanRoots| && policy.scanRoots[j] <= policy.rules[n].Root();
  }

  /** The exact files of a selected dataset are in scope, unless they are excluded. */
  lemma ExactFileInScope(policy: ResolvedPolicy, table: seq<Definition>, ids: seq<string>, id: string, f: Path)
    requires Resolves(policy, table, ids) && id in ids && FindDefinition(table, id).Some?
    requires f in FindDefinition(table, id).value.files && !GloballyExcluded(f)
    ensures policy.ContainsPath(f)
  {
    var k :| 0 <= k < |ids| && ids[k] == id;
    assert UsesFile(table, ids, f);
  }
}
