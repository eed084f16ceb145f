/** File deletion, and the pruning of directories that no longer hold a file. */
module Prune {
  import opened Wrappers
  import opened Seqs
  import opened Paths
  import opened Catalog
  import opened Layout
  import opened Policy

  // ---------------------------------------------------------------- the local tree

  /** No non-directory entry at or below `d`. */
  ghost predicate Fileless(files: set<Path>, d: Path) {
    forall f :: f in files ==> !(d <= f)
  }

  /** A file stands above the path. */
  ghost predicate FileAbove(files: set<Path>, x: Path) { exists a :: a in files && a < x }

  ghost function Below(dirs: set<Path>, d: Path): set<Path> {
    set x | x in dirs && d <= x
  }

  /** The fileless ancestors of `file` strictly below the boundary. */
  ghost predicate Prunable(files: set<Path>, boundary: Path, file: Path, a: Path) {
    boundary < a < file && Fileless(files, a)
  }

  /** What pruning removes: everything at or below a prunable ancestor. */
  ghost function Pruned(dirs: set<Path>, files: set<Path>, boundary: Path, file: Path): set<Path> {
    set x | x in dirs && exists k :: 0 <= k < |file| && Prunable(files, boundary, file, file[..k]) && file[..k] <= x
  }

  datatype RemoveOutcome = Removed | Missing | NotEmpty | Failed

  /**
   A directory tree; entries that are not directories, symlinks included, are `files`. `faulted`
   records that some call failed of its own accord; on a `reliable` tree none does.
   */
  class Tree {
    var files: set<Path>
    var dirs: set<Path>
    const reliable: bool
    ghost var faulted: bool

    ghost predicate Valid()
      reads this
    {
      WellFormed(files, dirs)
    }

    /** Whether a call fails of its own accord. */
    method Fails() returns (fault: bool)
      modifies this`faulted
      ensures faulted == (old(faulted) || fault) && (fault ==> !reliable)
    {
      fault := FaultUnless(reliable);
      faulted := faulted || fault;
    }

    /** `remove_file`; any call may also fail without effect. */
    method RemoveFile(f: Path) returns (outcome: RemoveOutcome)
      requires Valid()
      modifies this`files, this`faulted
      ensures Valid() && NoFalseFault(old(faulted), faulted, reliable)
      ensures outcome in {Removed, Missing, Failed}
      ensures outcome == Failed ==> faulted || f in dirs
      ensures outcome == Removed ==> f in old(files) && files == old(files) - {f}
      ensures outcome == Missing ==> f !in old(files) && files == old(files)
      ensures outcome == Failed ==> files == old(files)
    {
      var fault := Fails();
      if fault || f in dirs {
        return Failed;
      }
      if f !in files {
        return Missing;
      }
      files := files - {f};
      return Removed;
    }

    /** `remove_dir` removes empty directories only; any call may also fail without effect. */
    method RemoveDir(d: Path) returns (outcome: RemoveOutcome)
      requires Valid() && d != []
      modifies this`dirs, this`faulted
      ensures Valid() && NoFalseFault(old(faulted), faulted, reliable)
      ensures outcome == Failed ==> faulted || d in files
      ensures outcome == Removed ==> d in old(dirs) && dirs == old(dirs) - {d}
      ensures outcome != Removed ==> dirs == old(dirs)
      ensures outcome == Removed || outcome == Missing ==> NothingBelow(files, old(dirs), d)
      ensures outcome == Missing ==> d !in files + dirs
      ensures outcome == Removed ==> d !in files
      ensures outcome == NotEmpty ==> d in dirs && exists x :: x in files + dirs && x != [] && Parent(x) == d
    {
      var fault := Fails();
      if fault || d in files {
        return Failed;
      }
      if d !in dirs {
        ChildlessHasNothingBelow(files, dirs, d);
        return Missing;
      }
      if exists x :: x in files + dirs && x != [] && Parent(x) == d {
        return NotEmpty;
      }
      ChildlessHasNothingBelow(files, dirs, d);
      dirs := dirs - {d};
      return Removed;
    }

    /** `read_dir`: the children in any order, each with its kind; it may fail. */
    method ReadDir(d: Path) returns (r: Result<seq<(Path, bool)>>)
      requires Valid()
      modifies this`faulted
      ensures NoFalseFault(old(faulted), faulted, reliable)
      ensures r.Err? ==> r.error == Io && faulted
      ensures r.Ok? ==> Listing(r.value, d, files, dirs)
    {
      var fault := Fails();
      if fault {
        return Err(Io);
      }
      var entries := ListChildren(files, dirs, d);
      return Ok(entries);
    }

    /**
     `collect_fileless_tree`: nothing as soon as an entry is not a directory; otherwise every
     directory of the subtree, each after its parent.
     */
    method CollectFilelessTree(root: Path) returns (r: Result<Option<seq<Path>>>)
      requires Valid() && root in dirs
      modifies this`faulted
      ensures NoFalseFault(old(faulted), faulted, reliable)
      ensures r.Err? ==> r.error == Io && faulted
      ensures r.Ok? && r.value.None? ==> !Fileless(files, root)
      ensures r.Ok? && r.value.Some? ==> Fileless(files, root)
      ensures r.Ok? && r.value.Some? ==> ParentFirst(r.value.value, root) && Elems(r.value.value) == Below(dirs, root)
    {
      var pending := [root];
      var directories: seq<Path> := [];
      while pending != []
        invariant Walking(Walk(pending, directories), root, files, dirs)
        invariant NoFalseFault(old(faulted), faulted, reliable)
        decreases dirs - Elems(directories)
      {
        var directory := pending[|pending| - 1];
        ghost var before := pending;
        pending := pending[..|pending| - 1];
        assert pending + [directory] == before;
        var listing :- ReadDir(directory);
        ghost var rest := pending;
        var pushed := PushDirectories(pending, listing);
        if pushed.None? {
          assert root <= directory by { assert directory in Elems(rest + [directory]); }
          EntryBlocks(listing, directory, root, files, dirs);
          return Ok(None);
        }
        pending := pushed.value;
        WalkStep(rest, directories, directory, listing, root, files, dirs);
        directories := directories + [directory];
      }
      WalkDone(directories, root, files, dirs);
      return Ok(Some(directories));
    }

    /** Remove a parent-first listing backwards: each directory is empty when its turn comes. */
    method RemoveListing(directories: seq<Path>, root: Path) returns (r: Result<()>)
      requires Valid() && root != [] && ParentFirst(directories, root) && Fileless(files, root)
      requires Elems(directories) == Below(dirs, root)
      modifies this`dirs, this`faulted
      ensures Valid() && NoFalseFault(old(faulted), faulted, reliable)
      ensures r.Err? ==> faulted
      ensures r.Ok? ==> dirs == old(dirs) - Below(old(dirs), root)
      ensures old(dirs) - Below(old(dirs), root) <= dirs <= old(dirs)
      ensures r.Err? ==> r.error == Io
    {
      var i := |directories|;
      assert directories[i..] == [];
      while i > 0
        invariant 0 <= i <= |directories|
        invariant Valid() && NoFalseFault(old(faulted), faulted, reliable)
        invariant dirs == old(dirs) - Elems(directories[i..])
      {
        i := i - 1;
        assert directories[i..] == [directories[i]] + directories[i + 1..];
        ChildrenGone(directories, root, i, files, old(dirs), dirs);
        var outcome := RemoveDir(directories[i]);
        match outcome {
          case Removed =>
          case Missing => assert false;
          case NotEmpty => assert false;
          case Failed => return Err(Io);
        }
      }
      assert directories[0..] == directories;
      return Ok(());
    }

    /**
     One round of `prune_fileless_ancestors`: an empty, missing or fileless `current` goes with
     its subtree; one that holds a file stays and stops the climb.
     */
    method PruneAt(current: Path) returns (r: Result<bool>)
      requires Valid() && current != []
      modifies this`dirs, this`faulted
      ensures Valid() && NoFalseFault(old(faulted), faulted, reliable)
      ensures r.Err? ==> faulted || current in files
      ensures r.Ok? && r.value ==> Fileless(files, current) && dirs == old(dirs) - Below(old(dirs), current)
      ensures r.Ok? && !r.value ==> !Fileless(files, current) && dirs == old(dirs)
      ensures r.Err? ==> r.error == Io
      ensures r.Err? ==>
        dirs == old(dirs) || (Fileless(files, current) && old(dirs) - Below(old(dirs), current) <= dirs <= old(dirs))
    {
      var outcome := RemoveDir(current);
      match outcome {
        case Removed =>
          EmptyIsFileless(files, old(dirs), current);
          return Ok(true);
        case Missing =>
          EmptyIsFileless(files, old(dirs), current);
          return Ok(true);
        case NotEmpty =>
          var collected := CollectFilelessTree(current);
          if collected.Err? {
            return Err(collected.error);
          }
          if collected.value.None? {
            return Ok(false);
          }
          var removed := RemoveListing(collected.value.value, current);
          return if removed.Err? then Err(removed.error) else Ok(true);
        case Failed =>
          return Err(Io);
      }
    }

    /**
     `prune_fileless_ancestors`: climb from the file's parent to the boundary while nothing but
     directories remains.
     */
    method PruneFilelessAncestors(file: Path, boundary: Path) returns (r: Result<()>)
      requires Valid() && boundary < file
      modifies this`dirs, this`faulted
      ensures Valid() && NoFalseFault(old(faulted), faulted, reliable)
      ensures r.Err? ==> faulted || FileAbove(files, file)
      ensures r.Ok? ==> dirs == old(dirs) - Pruned(old(dirs), files, boundary, file)
      ensures old(dirs) - Pruned(old(dirs), files, boundary, file) <= dirs <= old(dirs)
      ensures r.Err? ==> r.error == Io
    {
      ghost var start := dirs;
      var current := Parent(file);
      while current != boundary
        invariant Valid() && NoFalseFault(old(faulted), faulted, reliable)
        invariant boundary <= current < file && current == file[..|current|]
        invariant Climbed(start, files, file, |current|, dirs)
        decreases |current|
      {
        ghost var before, k := dirs, |current|;
        var pruned := PruneAt(current);
        ClimbRound(start, files, boundary, file, k, before, dirs, pruned);
        if pruned.Err? || !pruned.value {
          return if pruned.Err? then Err(pruned.error) else Ok(());
        }
        current := Parent(current);
        assert current == file[..k - 1];
      }
      ClimbStops(start, files, boundary, file, |current|, dirs);
      return Ok(());
    }

    /**
     `delete_file`. Only the named file disappears. Directories disappear only below the prune
     boundary, and on success exactly those at or below a fileless ancestor of the file.
     */
    method DeleteFile(table: seq<Definition>, mounts: Mounts, p: Path) returns (r: Result<()>)
      requires Valid() && TableShaped(table) && p != []
      modifies this
      ensures Valid()
      ensures files == old(files) || (files == old(files) - {ResolveToLocal(mounts, p)})
      ensures !InCatalog(table, p) ==> r == Err(InvalidData) && files == old(files)
      ensures r.Err? && !faulted ==>
        || !InCatalog(table, p) || DeepestRoot(table, p, p) || ResolveToLocal(mounts, p) in dirs
        || FileAbove(files, ResolveToLocal(mounts, p))
      ensures r.Ok? ==> files == old(files) - {ResolveToLocal(mounts, p)}
      ensures r == Err(Internal) ==> DeepestRoot(table, p, p)
      ensures ExactFile(table, p) ==> dirs == old(dirs)
      ensures r.Ok? && !ExactFile(table, p) ==> exists b ::
        && DeepestRoot(table, p, b)
        && dirs == old(dirs) - Pruned(old(dirs), files, ResolveToLocal(mounts, b), ResolveToLocal(mounts, p))
      ensures r.Err? ==> dirs == old(dirs) || exists b ::
        && DeepestRoot(table, p, b)
        && dirs <= old(dirs)
        && old(dirs) - Pruned(old(dirs), files, ResolveToLocal(mounts, b), ResolveToLocal(mounts, p)) <= dirs
    {
      var boundary :- PruneBoundaryForPath(table, p);
      var fullPath := ResolveToLocal(mounts, p);
      if boundary.Some? {
        var b := ResolveToLocal(mounts, boundary.value);
        assert RootShape(boundary.value);
        BoundaryStaysAncestor(mounts, boundary.value, p);
        if !(b < fullPath) {
          assert boundary.value == p;
          return Err(Internal);
        }
      }
      var outcome := RemoveFile(fullPath);
      if outcome == Failed {
        return Err(Io);
      }
      if boundary.Some? {
        r := PruneFilelessAncestors(fullPath, ResolveToLocal(mounts, boundary.value));
      } else {
        r := Ok(());
      }
    }
  }

  // ---------------------------------------------------------------- tree lemmas

  ghost predicate WellFormed(files: set<Path>, dirs: set<Path>) {
    && [] in dirs
    && files !! dirs
    && forall x :: x in files + dirs && x != [] ==> Parent(x) in dirs
  }

  ghost predicate NothingBelow(files: set<Path>, dirs: set<Path>, d: Path) {
    forall x :: x in files + dirs ==> !(d < x)
  }

  /** The entries are exactly `seen`, each once, with its kind. */
  ghost predicate Lists(entries: seq<(Path, bool)>, seen: set<Path>, dirs: set<Path>) {
    && (forall x :: x in seen ==> (x, x in dirs) in entries)
    && (forall i :: 0 <= i < |entries| ==> entries[i].0 in seen && entries[i].1 == (entries[i].0 in dirs))
    && (forall i, j :: 0 <= i < j < |entries| ==> entries[i].0 != entries[j].0)
  }

  function Children(files: set<Path>, dirs: set<Path>, d: Path): set<Path> {
    set x | x in files + dirs && x != [] && Parent(x) == d
  }

  lemma MoveOne<T>(seen: set<T>, rest: set<T>, x: T)
    requires x in rest && seen !! rest
    ensures seen + {x} + (rest - {x}) == seen + rest && seen + {x} !! rest - {x}
  {
  }

  /** The children of `d`, each once, with its kind. */
  ghost predicate Listing(entries: seq<(Path, bool)>, d: Path, files: set<Path>, dirs: set<Path>) {
    Lists(entries, Children(files, dirs, d), dirs)
  }

  lemma ListsMore(entries: seq<(Path, bool)>, seen: set<Path>, dirs: set<Path>, x: Path)
    requires Lists(entries, seen, dirs) && x !in seen
    ensures Lists(entries + [(x, x in dirs)], seen + {x}, dirs)
  {
    var more := entries + [(x, x in dirs)];
    assert more[|entries|] == (x, x in dirs);
    assert forall e :: e in entries ==> e in more;
  }

  /** The listing of a directory, in any order. */
  method ListChildren(files: set<Path>, dirs: set<Path>, d: Path) returns (entries: seq<(Path, bool)>)
    ensures Listing(entries, d, files, dirs)
  {
    var rest := Children(files, dirs, d);
    ghost var seen: set<Path>, all := {}, rest;
    entries := [];
    while rest != {}
      invariant seen + rest == all && seen !! rest && Lists(entries, seen, dirs)
      decreases |rest|
    {
      var x :| x in rest;
      ListsMore(entries, seen, dirs, x);
      MoveOne(seen, rest, x);
      rest, seen := rest - {x}, seen + {x};
      entries := entries + [(x, x in dirs)];
    }
    assert seen == all;
  }

  /** Every proper prefix of an entry is a directory. */
  lemma {:induction false} PrefixIsDir(files: set<Path>, dirs: set<Path>, x: Path, k: nat)
    requires WellFormed(files, dirs) && x in files + dirs && k < |x|
    ensures x[..k] in dirs
    decreases |x|
  {
    if k < |x| - 1 {
      PrefixIsDir(files, dirs, Parent(x), k);
      assert Parent(x)[..k] == x[..k];
    }
  }

  lemma AncestorIsDir(files: set<Path>, dirs: set<Path>, d: Path, x: Path)
    requires WellFormed(files, dirs) && x in files + dirs && d < x
    ensures d in dirs
    ensures exists c :: c in files + dirs && c != [] && Parent(c) == d
  {
    PrefixIsDir(files, dirs, x, |d|);
    assert x[..|d|] == d;
    var c := x[..|d| + 1];
    if |d| + 1 < |x| { PrefixIsDir(files, dirs, x, |d| + 1); } else { assert c == x; }
    assert Parent(c) == d;
  }

  lemma ChildlessHasNothingBelow(files: set<Path>, dirs: set<Path>, d: Path)
    requires WellFormed(files, dirs)
    requires d !in dirs || forall x :: x in files + dirs && x != [] ==> Parent(x) != d
    ensures NothingBelow(files, dirs, d)
  {
    forall x | x in files + dirs && d < x
      ensures d in dirs && exists c :: c in files + dirs && c != [] && Parent(c) == d
    {
      AncestorIsDir(files, dirs, d, x);
    }
  }

  // ---------------------------------------------------------------- the collecting walk

  /** A duplicate-free listing that starts at `root` and puts every other directory after its parent. */
  ghost predicate ParentFirst(s: seq<Path>, root: Path) {
    && Distinct(s)
    && forall i :: 0 <= i < |s| ==> root <= s[i] && (s[i] == root || AfterParent(s, i))
  }

  ghost predicate AfterParent(s: seq<Path>, i: nat)
    requires i < |s|
  {
    s[i] != [] && exists j :: 0 <= j < i && s[j] == Parent(s[i])
  }

  /** The walk so far, as sets: listed directories have all their children listed or pending. */
  ghost predicate WalkSets(pending: set<Path>, listed: set<Path>, root: Path, files: set<Path>, dirs: set<Path>) {
    && pending !! listed
    && root in pending + listed && pending + listed <= Below(dirs, root)
    && (forall x :: x in pending + listed ==> x == root || (x != [] && Parent(x) in listed))
    && (forall x :: x in files + dirs && x != [] && Parent(x) in listed ==> x in pending + listed)
  }

  /** How far a collecting walk has come. */
  datatype Walk = Walk(pending: seq<Path>, directories: seq<Path>)

  ghost predicate Walking(w: Walk, root: Path, files: set<Path>, dirs: set<Path>) {
    match w
    case Walk(pending, directories) =>
      && ParentFirst(directories, root)
      && Distinct(pending)
      && WalkSets(Elems(pending), Elems(directories), root, files, dirs)
  }

  function Names(listing: seq<(Path, bool)>): (names: seq<Path>)
    ensures |names| == |listing|
    ensures forall i :: 0 <= i < |names| ==> names[i] == listing[i].0
  {
    seq(|listing|, i requires 0 <= i < |listing| => listing[i].0)
  }

  /** Push every entry, giving up at the first that is not a directory. */
  method PushDirectories(pending: seq<Path>, listing: seq<(Path, bool)>) returns (r: Option<seq<Path>>)
    ensures r.None? <==> exists k :: 0 <= k < |listing| && !listing[k].1
    ensures r.Some? ==> r.value == pending + Names(listing)
  {
    var stack := pending;
    for i := 0 to |listing|
      invariant stack == pending + Names(listing[..i])
      invariant forall k :: 0 <= k < i ==> listing[k].1
    {
      if !listing[i].1 {
        return None;
      }
      assert listing[..i + 1] == listing[..i] + [listing[i]];
      stack := stack + [listing[i].0];
    }
    assert listing[..|listing|] == listing;
    return Some(stack);
  }

  /** A non-directory entry means the subtree holds a file. */
  lemma EntryBlocks(listing: seq<(Path, bool)>, directory: Path, root: Path, files: set<Path>, dirs: set<Path>)
    requires Listing(listing, directory, files, dirs) && root <= directory
    requires exists k :: 0 <= k < |listing| && !listing[k].1
    ensures !Fileless(files, root)
  {
    var k :| 0 <= k < |listing| && !listing[k].1;
    var x := listing[k].0;
    assert x in files && root <= directory < x;
  }

  /** Listing a pending directory all of whose entries are directories keeps the walk's sets. */
  lemma OpenSets(pending: set<Path>, listed: set<Path>, d: Path, root: Path, files: set<Path>, dirs: set<Path>)
    requires WalkSets(pending, listed, root, files, dirs)
    requires d in pending && Children(files, dirs, d) <= dirs
    ensures WalkSets(pending - {d} + Children(files, dirs, d), listed + {d}, root, files, dirs)
    ensures Children(files, dirs, d) !! pending + listed
  {
    forall x | x in Children(files, dirs, d)
      ensures x != root && x !in pending + listed && root <= x && x != d
    {
      assert root <= d < x by { assert d in Below(dirs, root); }
    }
  }

  lemma DistinctAppend(a: seq<Path>, b: seq<Path>)
    requires Distinct(a) && Distinct(b) && Elems(a) !! Elems(b)
    ensures Distinct(a + b) && Elems(a + b) == Elems(a) + Elems(b)
  {
    assert forall i :: 0 <= i < |a| ==> a[i] in Elems(a);
    assert forall i :: 0 <= i < |b| ==> b[i] in Elems(b);
  }

  lemma DistinctPop(rest: seq<Path>, x: Path)
    requires Distinct(rest + [x])
    ensures Distinct(rest) && Elems(rest) == Elems(rest + [x]) - {x} && x in Elems(rest + [x])
  {
    var s := rest + [x];
    assert s[|rest|] == x;
    assert forall i :: 0 <= i < |rest| ==> s[i] == rest[i];
  }

  lemma ParentFirstAppend(listed: seq<Path>, x: Path, root: Path)
    requires ParentFirst(listed, root) && x !in listed && root <= x
    requires x == root || (x != [] && Parent(x) in listed)
    ensures ParentFirst(listed + [x], root) && Elems(listed + [x]) == Elems(listed) + {x}
  {
    var s := listed + [x];
    assert forall i :: 0 <= i < |listed| ==> s[i] == listed[i];
    if x != root {
      var j :| 0 <= j < |listed| && listed[j] == Parent(x);
      assert s[j] == Parent(x);
    }
  }

  lemma NamesAreChildren(listing: seq<(Path, bool)>, d: Path, files: set<Path>, dirs: set<Path>)
    requires Listing(listing, d, files, dirs) && forall k :: 0 <= k < |listing| ==> listing[k].1
    ensures Distinct(Names(listing)) && Elems(Names(listing)) == Children(files, dirs, d) <= dirs
  {
    forall x | x in Children(files, dirs, d)
      ensures x in Elems(Names(listing))
    {
      var k :| 0 <= k < |listing| && listing[k] == (x, x in dirs);
      assert Names(listing)[k] == x;
    }
  }

  /** Listing a popped directory, all of whose entries are directories. */
  lemma WalkStep(rest: seq<Path>, directories: seq<Path>, directory: Path, listing: seq<(Path, bool)>,
                 root: Path, files: set<Path>, dirs: set<Path>)
    requires Walking(Walk(rest + [directory], directories), root, files, dirs)
    requires Listing(listing, directory, files, dirs) && forall k :: 0 <= k < |listing| ==> listing[k].1
    ensures Walking(Walk(rest + Names(listing), directories + [directory]), root, files, dirs)
    ensures dirs - Elems(directories + [directory]) < dirs - Elems(directories)
  {
    DistinctPop(rest, directory);
    NamesAreChildren(listing, directory, files, dirs);
    OpenSets(Elems(rest + [directory]), Elems(directories), directory, root, files, dirs);
    DistinctAppend(rest, Names(listing));
    assert directory in Below(dirs, root);
    ParentFirstAppend(directories, directory, root);
  }

  lemma WalkDone(directories: seq<Path>, root: Path, files: set<Path>, dirs: set<Path>)
    requires WellFormed(files, dirs) && Walking(Walk([], directories), root, files, dirs)
    ensures Elems(directories) == Below(dirs, root)
    ensures Fileless(files, root)
  {
    forall x | x in files + dirs && root <= x
      ensures x in directories && x in dirs
    {
      WalkReaches(directories, root, files, dirs, x);
    }
  }

  lemma {:induction false} WalkReaches(directories: seq<Path>, root: Path, files: set<Path>, dirs: set<Path>, x: Path)
    requires WellFormed(files, dirs) && Walking(Walk([], directories), root, files, dirs)
    requires x in files + dirs && root <= x
    ensures x in directories && x in dirs
    decreases |x|
  {
    if x != root {
      WalkReaches(directories, root, files, dirs, Parent(x));
    }
  }

  lemma ChildrenGone(directories: seq<Path>, root: Path, i: nat, files: set<Path>, before: set<Path>, now: set<Path>)
    requires i < |directories| && root != [] && ParentFirst(directories, root) && Fileless(files, root)
    requires Elems(directories) == Below(before, root)
    requires now == before - Elems(directories[i + 1..])
    ensures directories[i] in now && directories[i] != []
    ensures forall x :: x in files + now && x != [] ==> Parent(x) != directories[i]
  {
    var d := directories[i];
    assert d in Elems(directories);
    var later := directories[i + 1..];
    forall y | y in later
      ensures y != d
    {
      var k :| 0 <= k < |later| && later[k] == y;
      assert directories[i + 1 + k] == y;
    }
    forall x | x in before && x != [] && Parent(x) == d
      ensures x in directories[i + 1..]
    {
      ChildListedLater(directories, root, i, before, x);
    }
    forall x | x in files && x != []
      ensures Parent(x) != d
    {
      assert root <= Parent(x) ==> root <= x;
    }
  }

  lemma ChildListedLater(directories: seq<Path>, root: Path, i: nat, before: set<Path>, x: Path)
    requires i < |directories| && ParentFirst(directories, root) && Elems(directories) == Below(before, root)
    requires x in before && x != [] && Parent(x) == directories[i]
    ensures x in directories[i + 1..]
  {
    assert root <= directories[i] < x;
    assert x in Below(before, root);
    var k :| 0 <= k < |directories| && directories[k] == x;
    assert AfterParent(directories, k);
    var j :| 0 <= j < k && directories[j] == Parent(x);
    assert j == i;
    assert directories[i + 1..][k - i - 1] == x;
  }

  // ---------------------------------------------------------------- the upward climb

  /** Before looking at `file[..k]`: everything below `file[..k + 1]`, which is fileless, is gone; nothing else is. */
  ghost predicate Climbed(start: set<Path>, files: set<Path>, file: Path, k: nat, now: set<Path>) {
    && k < |file|
    && (k == |file| - 1 ==> now == start)
    && (k < |file| - 1 ==> Fileless(files, file[..k + 1]) && now == start - Below(start, file[..k + 1]))
  }

  lemma EmptyIsFileless(files: set<Path>, dirs: set<Path>, d: Path)
    requires NothingBelow(files, dirs, d) && d !in files
    ensures Fileless(files, d) && dirs - {d} == dirs - Below(dirs, d)
  {
    assert forall x :: x in files + dirs ==> (d <= x <==> x == d);
    assert forall x :: x in files ==> x in files + dirs;
    assert forall x :: x in dirs ==> x in files + dirs;
  }

  lemma ClimbBounds(start: set<Path>, files: set<Path>, boundary: Path, file: Path, k: nat, now: set<Path>)
    requires Climbed(start, files, file, k, now) && boundary <= file[..k]
    ensures start - Pruned(start, files, boundary, file) <= now <= start
  {
    if k < |file| - 1 {
      assert Prunable(files, boundary, file, file[..k + 1]);
    }
  }

  /**
   The climb ends at the boundary or at an ancestor that holds a file; either way exactly the prunable
   part is gone.
   */
  lemma ClimbStops(start: set<Path>, files: set<Path>, boundary: Path, file: Path, k: nat, now: set<Path>)
    requires Climbed(start, files, file, k, now) && boundary <= file[..k]
    requires file[..k] == boundary || !Fileless(files, file[..k])
    ensures now == start - Pruned(start, files, boundary, file)
  {
    ClimbBounds(start, files, boundary, file, k, now);
    forall x | x in Pruned(start, files, boundary, file)
      ensures x !in now
    {
      var j :| 0 <= j < |file| && Prunable(files, boundary, file, file[..j]) && file[..j] <= x;
      StopsBelow(files, boundary, file, j, k);
      assert file[..k + 1] <= file[..j];
    }
  }

  lemma StopsBelow(files: set<Path>, boundary: Path, file: Path, j: nat, k: nat)
    requires j < |file| && k < |file| && Prunable(files, boundary, file, file[..j])
    requires file[..k] == boundary || !Fileless(files, file[..k])
    ensures j > k
  {
    var longer := if j <= k then k else j;
    assert file[..j] <= file[..longer];
  }

  /** One round of the climb: it goes on, stops with exactly the prunable part gone, or fails in between. */
  lemma ClimbRound(start: set<Path>, files: set<Path>, boundary: Path, file: Path, k: nat, before: set<Path>,
                   now: set<Path>,
                   pruned: Result<bool>)
    requires 0 < k < |file| && boundary < file[..k] && Climbed(start, files, file, k, before)
    requires pruned.Ok? && pruned.value ==> Fileless(files, file[..k]) && now == before - Below(before, file[..k])
    requires pruned.Ok? && !pruned.value ==> !Fileless(files, file[..k]) && now == before
    requires pruned.Err? ==>
      now == before || (Fileless(files, file[..k]) && before - Below(before, file[..k]) <= now <= before)
    ensures start - Pruned(start, files, boundary, file) <= now <= start
    ensures pruned.Ok? && pruned.value ==> Climbed(start, files, file, k - 1, now)
    ensures pruned.Ok? && !pruned.value ==> now == start - Pruned(start, files, boundary, file)
  {
    if now == before && !(pruned.Ok? && pruned.value) {
      ClimbBounds(start, files, boundary, file, k, before);
      if pruned.Ok? { ClimbStops(start, files, boundary, file, k, before); }
    } else {
      ClimbStep(start, files, boundary, file, k, before, now);
    }
  }

  lemma ClimbStep(start: set<Path>, files: set<Path>, boundary: Path, file: Path, k: nat, before: set<Path>,
                  now: set<Path>)
    requires 0 < k < |file| && boundary < file[..k]
    requires Climbed(start, files, file, k, before) && Fileless(files, file[..k])
    requires before - Below(before, file[..k]) <= now <= before
    ensures now == before - Below(before, file[..k]) ==> Climbed(start, files, file, k - 1, now)
    ensures start - Pruned(start, files, boundary, file) <= now <= start
  {
    var a := file[..k];
    assert Prunable(files, boundary, file, a);
    ClimbBounds(start, files, boundary, file, k, before);
    assert k < |file| - 1 ==> a <= file[..k + 1];
    forall x | x in start - Pruned(start, files, boundary, file)
      ensures x in now
    {
      assert !(a <= x);
    }
    if now == before - Below(before, a) {
      assert now == start - Below(start, a);
    }
  }

  // ---------------------------------------------------------------- what pruning removes

  /** The boundary and everything outside it survive every delete. */
  lemma BoundarySurvives(dirs: set<Path>, files: set<Path>, boundary: Path, file: Path)
    ensures boundary !in Pruned(dirs, files, boundary, file)
    ensures forall x :: x in Pruned(dirs, files, boundary, file) ==> boundary < x
  {
  }

  /** What goes is nothing, or exactly the subtree at the topmost fileless ancestor below the boundary. */
  lemma PrunedIsTopmostSubtree(dirs: set<Path>, files: set<Path>, boundary: Path, file: Path, k: nat)
    requires k < |file|
    requires Prunable(files, boundary, file, file[..k])
    requires forall j :: 0 <= j < k ==> !Prunable(files, boundary, file, file[..j])
    ensures Pruned(dirs, files, boundary, file) == Below(dirs, file[..k])
  {
    forall x | x in Pruned(dirs, files, boundary, file)
      ensures file[..k] <= x
    {
      var j :| 0 <= j < |file| && Prunable(files, boundary, file, file[..j]) && file[..j] <= x;
      assert file[..k] <= file[..j];
    }
  }

  /** No directory that goes ever holds a file: pruning cannot lose data. */
  lemma PrunedHoldsNoFile(dirs: set<Path>, files: set<Path>, boundary: Path, file: Path, x: Path)
    requires x in Pruned(dirs, files, boundary, file)
    ensures Fileless(files, x)
  {
    var j :| 0 <= j < |file| && Prunable(files, boundary, file, file[..j]) && file[..j] <= x;
  }
}
