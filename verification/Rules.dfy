/** Dataset rules: which paths a rule matches, and which directories may lead to a match. */
module Rules {
  import opened Wrappers
  import opened Text
  import opened Paths

  // ---------------------------------------------------------------- global exclusions

  const EXCLUDED_PREFIXES: seq<Path> := [
    ["default-user", "user", "lan-sync"],
    ["_tauritavern", "prompt-cache"],
    ["_tauritavern", ".ios-policy.json"],
    ["_cache"]
  ]

  predicate ExcludedComponent(component: string) {
    component == ".staging" || ".tmp-" <= component || EndsWith(component, ".ttsync.tmp")
  }

  predicate GloballyExcluded(p: Path) {
    || (exists i :: 0 <= i < |EXCLUDED_PREFIXES| && SameOrUnder(p, EXCLUDED_PREFIXES[i]))
    || exists i :: 0 <= i < |p| && ExcludedComponent(p[i])
  }

  /** An excluded directory excludes everything below it, so the walk may skip it unopened. */
  lemma ExclusionInherited(a: Path, p: Path)
    requires a <= p && GloballyExcluded(a)
    ensures GloballyExcluded(p)
  {
    if i :| 0 <= i < |EXCLUDED_PREFIXES| && SameOrUnder(a, EXCLUDED_PREFIXES[i]) {
      assert SameOrUnder(p, EXCLUDED_PREFIXES[i]);
    } else {
      var i :| 0 <= i < |a| && ExcludedComponent(a[i]);
      assert ExcludedComponent(p[i]);
    }
  }

  // ---------------------------------------------------------------- agent runs

  const CHATS: Path := ["_tauritavern", "agent-workspaces", "chats"]
  const RUN_INDEX: Path := ["_tauritavern", "agent-workspaces", "index", "runs"]

  predicate IsRunRootDir(p: Path) { |p| == 6 && CHATS <= p && p[4] == "runs" }

  predicate IsRunIndexFile(p: Path) { |p| == 5 && RUN_INDEX <= p && EndsWith(p[4], ".json") }

  /** `matches_agent_workspace_prefix`: comparable with the chats directory. */
  predicate MatchesWorkspacePrefix(p: Path) { p <= CHATS || CHATS <= p }

  // ---------------------------------------------------------------- rules

  datatype Rule =
    | Prefix(root: Path)
    | Database
    | WorkspaceComponent(component: string)
    | RunFile(fileName: string)
    | RunComponent(component: string)
  {
    predicate Matches(p: Path) {
      match this
      case Database => Namespace(p).Some?
      case Prefix(root) => SameOrUnder(p, root)
      case WorkspaceComponent(c) => |p| > 5 && CHATS <= p && p[4] == c
      case RunFile(f) => |p| == 7 && CHATS <= p && p[4] == "runs" && p[6] == f
      case RunComponent(c) => |p| > 6 && CHATS <= p && p[4] == "runs" && p[6] == c
    }

    predicate MayMatchDescendant(dir: Path) {
      match this
      case Database => SameOrUnder(DATABASE_ROOT, dir) || Namespace(dir + ["database.tdb"]).Some?
      case Prefix(root) => SameOrUnder(dir, root) || SameOrUnder(root, dir)
      case WorkspaceComponent(c) => MatchesWorkspacePrefix(dir) && (|dir| <= 4 || dir[4] == c)
      case RunFile(f) =>
        && MatchesWorkspacePrefix(dir)
        && (|dir| <= 4 || (|dir| <= 6 && dir[4] == "runs"))
      case RunComponent(c) =>
        && MatchesWorkspacePrefix(dir)
        && (|dir| <= 4 || (dir[4] == "runs" && (|dir| <= 6 || dir[6] == c)))
    }

    /** The directory every match of the rule lies in (or is). */
    function Root(): Path {
      match this
      case Database => DATABASE_ROOT
      case Prefix(root) => root
      case _ => CHATS
    }
  }

  lemma MatchUnderRoot(rule: Rule, p: Path)
    requires rule.Matches(p)
    ensures rule.Root() <= p
  {
    if rule.Database? { NamespacePathShape(p); }
  }

  /** Every directory on the way to a match is descended into. */
  lemma AncestorMayMatch(rule: Rule, p: Path, dir: Path)
    requires rule.Matches(p) && dir < p
    ensures rule.MayMatchDescendant(dir)
  {
    if rule.Database? {
      NamespacePathShape(p);
      if |dir| == 3 {
        assert (dir + ["database.tdb"])[..2] == p[..2];
        assert Namespace(dir + ["database.tdb"]) == Some(p[2]) by {
          assert "database.tdb"[8..] == ".tdb" != ".tmp";
        }
      }
    }
  }

  /** A rule not rooted inside the database directory matches all files of a namespace or none. */
  lemma NamespaceMatchesTogether(rule: Rule, p: Path, q: Path)
    requires Namespace(p).Some? && Namespace(p) == Namespace(q)
    requires rule.Prefix? ==> !(DATABASE_ROOT <= rule.root)
    ensures rule.Matches(p) <==> rule.Matches(q)
  {
    NamespacePathShape(p);
    NamespacePathShape(q);
    if !rule.Database? && !rule.Prefix? {
      assert CHATS[1] != DATABASE_ROOT[1];
      assert p[1] == DATABASE_ROOT[1] && q[1] == DATABASE_ROOT[1];
    }
  }
}
