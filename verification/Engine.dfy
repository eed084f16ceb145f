/**
 The client engine's pull: concurrent downloads into a workspace that stages database files,
 deletions, and the report of what changed locally.
 */
module Engine {
  import opened Wrappers
  import opened Seqs
  import opened Paths
  import opened Catalog
  import opened Policy
  import opened Manifest
  import opened Planner
  import opened Sync
  import opened Publish
  import opened Schedule
  import opened Temporaries
  import Prune

  // ---------------------------------------------------------------- one side of a sync

  /** A side that receives: its plain files, the directories there are, and the staged database files. */
  datatype Side = Side(files: Replica, dirs: set<Path>, staging: map<string, Directory>)

  /** The file a path shows: from its published namespace directory, or from the plain files. */
  ghost function ViewAt(files: Replica, root: map<string, Directory>, p: Path): Option<File> {
    match Namespace(p)
    case None => Get(files, p)
    case Some(d) => if d in root && p[3] in root[d] then Some(root[d][p[3]]) else None
  }

  ghost function StagedAt(staging: map<string, Directory>, p: Path): Option<File> {
    match Namespace(p)
    case None => None
    case Some(d) => StagedFile(staging, d, p[3])
  }

  /** A directory is needed at `x` to receive `p`; database files are staged beside the namespaces. */
  predicate Needs(p: Path, x: Path) { x < p && (Namespace(p).Some? ==> |x| <= 2) }

  function DirsFor(p: Path): set<Path> { set k | 0 <= k < |p| && Needs(p, p[..k]) :: p[..k] }

  lemma DirsForMeaning(p: Path, x: Path)
    ensures x in DirsFor(p) <==> Needs(p, x)
  {
    if Needs(p, x) { assert x == p[..|x|]; }
  }

  /** A file stands where `p` needs a directory, or a directory where `p` or its temporary file is to go. */
  predicate Blocked(s: Side, p: Path) {
    || (Namespace(p).None? && (p in s.dirs || TemporaryOf(p) in s.dirs))
    || exists x :: x in s.files && Needs(p, x)
  }

  /** Writing `content` at `p` turned `was` into `now`. */
  ghost predicate WrittenBy(now: Side, was: Side, p: Path, content: File) {
    match now
    case Side(files, dirs, staging) =>
      && (forall q :: Get(files, q) == if q == p && Namespace(p).None? then Some(content) else Get(was.files, q))
      && (forall q :: StagedAt(staging, q)
            == if q == p && Namespace(p).Some? then Some(content) else StagedAt(was.staging, q))
      && dirs == was.dirs + DirsFor(p)
  }

  // ---------------------------------------------------------------- the workspace

  /** A failed workspace call says whether the visible tree changed all the same. */
  datatype WriteOutcome = Written | WriteFailed(error: SyncError, targetChanged: bool)

  /** `delete_file` has a prune decision for the path, with a boundary strictly above it or none. */
  ghost predicate Removable(table: seq<Definition>, p: Path) {
    InCatalog(table, p) && (ExactFile(table, p) || !DeepestRoot(table, p, p))
  }

  /**
   `delete_file` can do its part for the path: a database file is left to the commit, any other
   path is removable, no directory, and not below a file.
   */
  ghost predicate Erases(table: seq<Definition>, files: Replica, dirs: set<Path>, p: Path) {
    Namespace(p).Some? || (Removable(table, p) && p !in dirs && !Prune.FileAbove(files.Keys, p))
  }

  ghost predicate SameBytes(a: File, b: File) { a.size == b.size && a.content == b.content }

  /** A workspace prepared to receive: plain files are written in place, database files are staged. */
  class Workspace {
    var files: Replica
    var dirs: set<Path>
    const transfer: DatabaseTransfer
    const table: seq<Definition>

    constructor (files: Replica, dirs: set<Path>, transfer: DatabaseTransfer, table: seq<Definition>)
      ensures this.files == files && this.dirs == dirs && this.transfer == transfer && this.table == table
    {
      this.files, this.dirs, this.transfer, this.table := files, dirs, transfer, table;
    }

    ghost function Now(): Side
      reads this, transfer.disk
    {
      Side(files, dirs, transfer.disk.staging)
    }

    /**
     `write_file`. It fails where the path is blocked, and a plain write can also fail after the
     rename, when the time stamp cannot be set; the file is then in place with another time.
     */
    method WriteFile(p: Path, content: File) returns (outcome: WriteOutcome)
      requires transfer.Fresh()
      modifies this`files, this`dirs, transfer.disk`staging, transfer.disk`trace, transfer.disk`faulted
      ensures transfer.Fresh()
      ensures NoFalseFault(old(transfer.disk.faulted), transfer.disk.faulted, transfer.disk.reliable)
      ensures outcome.Written? ==> !Blocked(old(Now()), p) && WrittenBy(Now(), old(Now()), p, content)
      ensures outcome.WriteFailed? ==> transfer.disk.faulted || Blocked(old(Now()), p)
      ensures outcome.WriteFailed? && !outcome.targetChanged ==> files == old(files)
      ensures outcome.WriteFailed? && outcome.targetChanged ==> p in files && SameBytes(files[p], content)
      ensures Namespace(p).Some? ==> files == old(files)
      ensures Namespace(p).None? ==>
        transfer.disk.staging == old(transfer.disk.staging) && files - {p} == old(files) - {p}
    {
      if (Namespace(p).None? && (p in dirs || TemporaryOf(p) in dirs)) || exists x :: x in files && Needs(p, x) {
        return WriteFailed(Io, false);
      }
      dirs := dirs + DirsFor(p);
      if Namespace(p).Some? {
        var r := transfer.WriteFile(p, content);
        StagedOnly(old(transfer.disk.staging), transfer.disk.staging, p, content);
        return if r.Ok? then Written else WriteFailed(r.error, false);
      }
      var fault := transfer.disk.Fails();
      var late: bool := *;
      if fault && !late {
        return WriteFailed(Io, false);
      }
      if fault {
        var stamp: u64 := *;
        files := files[p := File(content.size, stamp, content.content)];
        return WriteFailed(Io, true);
      }
      files := files[p := content];
      return Written;
    }

    /**
     A write that failed while another one had the same temporary file open: its bytes may have gone
     into files of `rivals` that were already renamed from there.
     */
    method Spoil(rivals: set<Path>)
      requires transfer.Fresh()
      modifies this`files, transfer.disk`staging, transfer.disk`trace
      ensures transfer.Fresh()
      ensures files.Keys == old(files).Keys
      ensures forall q :: q !in rivals || Namespace(q).Some? ==> Get(files, q) == old(Get(files, q))
    {
      var mixed: map<Path, File> := *;
      files := map q | q in files :: if q in rivals && q in mixed && Namespace(q).None? then mixed[q] else files[q];
      transfer.Spoil(rivals, mixed);
    }

    /**
     `delete_file`: database files are left to the commit; a plain path outside the catalog or at
     its own boundary is refused; a directory, or a path below a file, cannot be removed as a file;
     and a plain delete can fail while pruning, after the file is gone.
     */
    method DeleteFile(p: Path) returns (outcome: WriteOutcome)
      requires TableShaped(table)
      modifies this`files, this`dirs, transfer.disk`faulted
      ensures NoFalseFault(old(transfer.disk.faulted), transfer.disk.faulted, transfer.disk.reliable)
      ensures outcome.Written? ==> files == if Namespace(p).Some? then old(files) else old(files) - {p}
      ensures outcome.Written? ==> Erases(table, old(files), old(dirs), p)
      ensures outcome.WriteFailed? ==> transfer.disk.faulted || !Erases(table, old(files), old(dirs), p)
      ensures files == old(files) || (Namespace(p).None? && files == old(files) - {p})
      ensures dirs <= old(dirs)
      ensures outcome.WriteFailed? && !outcome.targetChanged ==> files == old(files)
    {
      if Namespace(p).Some? {
        return Written;
      }
      var boundary := PruneBoundaryForPath(table, p);
      if boundary.Err? {
        return WriteFailed(boundary.error, false);
      }
      if boundary.value.Some? && boundary.value.value == p {
        return WriteFailed(Internal, false);
      }
      if p in dirs || exists x :: x in files && x < p {
        return WriteFailed(Io, false);
      }
      var fault := transfer.disk.Fails();
      var late: bool, pruned: set<Path> := *, *;
      if fault && !late {
        return WriteFailed(Io, false);
      }
      files := files - {p};
      dirs := dirs - pruned;
      return if fault then WriteFailed(Io, true) else Written;
    }
  }

  /** Staging one file changes the staged view at its own path only. */
  lemma StagedOnly(before: map<string, Directory>, after: map<string, Directory>, p: Path, content: File)
    requires Namespace(p).Some?
    ensures after == StagedWith(before, Namespace(p).value, p[3], content)
      ==> forall q :: StagedAt(after, q) == if q == p then Some(content) else StagedAt(before, q)
  {
    forall q | Namespace(q) == Namespace(p) && q[3] == p[3]
      ensures q == p
    {
      NamespacePathShape(p);
      NamespacePathShape(q);
    }
  }

  // ---------------------------------------------------------------- change tracking

  datatype LocalChangeSummary = LocalChangeSummary(filesWritten: nat, bytesWritten: nat, filesDeleted: nat) {
    predicate Changed() { filesWritten > 0 || filesDeleted > 0 }
  }

  predicate AppliedIn(applied: set<string>, p: Path) { Namespace(p).None? || Namespace(p).value in applied }

  function AppliedWrites(writes: seq<Entry>, applied: set<string>): seq<Entry> {
    if writes == [] then []
    else
      var last := writes[|writes| - 1];
      AppliedWrites(writes[..|writes| - 1], applied) + if AppliedIn(applied, last.path) then [last] else []
  }

  function AppliedDeletes(deletes: seq<Path>, applied: set<string>): seq<Path> {
    if deletes == [] then []
    else
      var last := deletes[|deletes| - 1];
      AppliedDeletes(deletes[..|deletes| - 1], applied) + if AppliedIn(applied, last) then [last] else []
  }

  function SummaryOf(writes: seq<Entry>, deletes: seq<Path>, applied: set<string>): LocalChangeSummary {
    var counted := AppliedWrites(writes, applied);
    LocalChangeSummary(|counted|, SumSizes(counted), |AppliedDeletes(deletes, applied)|)
  }

  lemma AppendSize(entries: seq<Entry>, e: Entry)
    ensures SumSizes(entries + [e]) == SumSizes(entries) + e.size
  {
    assert (entries + [e])[..|entries|] == entries;
  }

  /** The summary counts exactly the applied ones of what was recorded, each as often as it was recorded. */
  lemma {:induction false} AppliedExactly(writes: seq<Entry>, applied: set<string>)
    ensures forall e: Entry :: CountedOf(AppliedWrites(writes, applied), writes, e,
                                         Namespace(e.path).None? || Namespace(e.path).value in applied)
    ensures |AppliedWrites(writes, applied)| <= |writes|
  {
    if writes != [] {
      AppliedExactly(writes[..|writes| - 1], applied);
      assert writes == writes[..|writes| - 1] + [writes[|writes| - 1]];
    }
  }

  /** And so with the deletes. */
  lemma {:induction false} AppliedDeletesExactly(deletes: seq<Path>, applied: set<string>)
    ensures forall p: Path :: CountedOf(AppliedDeletes(deletes, applied), deletes, p,
                                        Namespace(p).None? || Namespace(p).value in applied)
    ensures |AppliedDeletes(deletes, applied)| <= |deletes|
  {
    if deletes != [] {
      AppliedDeletesExactly(deletes[..|deletes| - 1], applied);
      assert deletes == deletes[..|deletes| - 1] + [deletes[|deletes| - 1]];
    }
  }

  /** `x` is counted as often as it was recorded if it is applied, and not at all otherwise. */
  ghost predicate CountedOf<T>(counted: seq<T>, recorded: seq<T>, x: T, applied: bool) {
    multiset(counted)[x] == if applied then multiset(recorded)[x] else 0
  }

  lemma {:induction false} AllWritesApplied(writes: seq<Entry>, applied: set<string>)
    requires forall e :: e in writes ==> AppliedIn(applied, e.path)
    ensures AppliedWrites(writes, applied) == writes
  {
    if writes != [] {
      AllWritesApplied(writes[..|writes| - 1], applied);
      assert writes == writes[..|writes| - 1] + [writes[|writes| - 1]];
    }
  }

  lemma {:induction false} AllDeletesApplied(deletes: seq<Path>, applied: set<string>)
    requires forall p :: p in deletes ==> AppliedIn(applied, p)
    ensures AppliedDeletes(deletes, applied) == deletes
  {
    if deletes != [] {
      AllDeletesApplied(deletes[..|deletes| - 1], applied);
      assert deletes == deletes[..|deletes| - 1] + [deletes[|deletes| - 1]];
    }
  }

  /** Where everything recorded is applied, the summary counts all of it. */
  lemma AllCount(writes: seq<Entry>, deletes: seq<Path>, applied: set<string>, transfer: seq<Entry>)
    requires forall e :: e in writes ==> AppliedIn(applied, e.path)
    requires forall p :: p in deletes ==> AppliedIn(applied, p)
    requires multiset(writes) == multiset(transfer)
    ensures SummaryOf(writes, deletes, applied) == LocalChangeSummary(|transfer|, SumSizes(transfer), |deletes|)
  {
    AllWritesApplied(writes, applied);
    AllDeletesApplied(deletes, applied);
    SameSizes(writes, transfer);
  }

  /** A recorded change outside the namespaces, or in a published one, always shows in the summary. */
  lemma {:induction false} SummaryShows(writes: seq<Entry>, deletes: seq<Path>, applied: set<string>)
    ensures SummaryOf(writes, deletes, applied).Changed() <==>
      || (exists e :: e in writes && AppliedIn(applied, e.path))
      || (exists p :: p in deletes && AppliedIn(applied, p))
    decreases |writes| + |deletes|
  {
    if writes != [] {
      var init, last := writes[..|writes| - 1], writes[|writes| - 1];
      SummaryShows(init, deletes, applied);
      assert writes == init + [last];
      assert last in writes;
    } else if deletes != [] {
      var init, last := deletes[..|deletes| - 1], deletes[|deletes| - 1];
      SummaryShows(writes, init, applied);
      assert deletes == init + [last];
      assert last in deletes;
    }
  }

  /** `LocalChangeTracker`: received files and deleted paths, counted once published. */
  class Tracker {
    var writes: seq<Entry>
    var deletes: seq<Path>

    constructor ()
      ensures writes == [] && deletes == []
    {
      writes, deletes := [], [];
    }

    method RecordWrite(e: Entry)
      modifies this`writes
      ensures writes == old(writes) + [e]
    {
      writes := writes + [e];
    }

    method RecordDelete(p: Path)
      modifies this`deletes
      ensures deletes == old(deletes) + [p]
    {
      deletes := deletes + [p];
    }

    /** `summary`: only what the workspace says is applied counts. */
    method Summary(transfer: DatabaseTransfer) returns (summary: LocalChangeSummary)
      ensures summary == SummaryOf(writes, deletes, transfer.applied)
    {
      var filesWritten: nat, bytesWritten: nat := 0, 0;
      ghost var counted: seq<Entry> := [];
      for i := 0 to |writes|
        invariant counted == AppliedWrites(writes[..i], transfer.applied)
        invariant filesWritten == |counted| && bytesWritten == SumSizes(counted)
      {
        assert writes[..i + 1][..i] == writes[..i];
        if transfer.IsApplied(writes[i].path) {
          AppendSize(counted, writes[i]);
          counted := counted + [writes[i]];
          filesWritten := filesWritten + 1;
          bytesWritten := bytesWritten + writes[i].size;
        }
      }
      assert writes[..|writes|] == writes;
      var filesDeleted := CountDeletes(transfer);
      summary := LocalChangeSummary(filesWritten, bytesWritten, filesDeleted);
    }

    method CountDeletes(transfer: DatabaseTransfer) returns (filesDeleted: nat)
      ensures filesDeleted == |AppliedDeletes(deletes, transfer.applied)|
    {
      filesDeleted := 0;
      for i := 0 to |deletes|
        invariant filesDeleted == |AppliedDeletes(deletes[..i], transfer.applied)|
      {
        assert deletes[..i + 1][..i] == deletes[..i];
        if transfer.IsApplied(deletes[i]) {
          filesDeleted := filesDeleted + 1;
        }
      }
      assert deletes[..|deletes|] == deletes;
    }
  }

  /** Some recorded change lies outside the namespaces, so it counts whatever the commit does. */
  ghost predicate PlainChange(writes: seq<Entry>, deletes: seq<Path>) {
    || (exists e :: e in writes && Namespace(e.path).None?)
    || (exists p :: p in deletes && Namespace(p).None?)
  }

  // ---------------------------------------------------------------- what has arrived

  /**
   Exactly the files `got` have arrived since `start`: plain ones in place, database ones in
   staging, with the directories they need.
   */
  ghost predicate Landed(got: set<Path>, source: Replica, now: Side, start: Side) {
    match now
    case Side(files, dirs, staging) =>
      && got <= source.Keys
      && (forall q :: Get(files, q) == if q in got && Namespace(q).None? then Get(source, q) else Get(start.files, q))
      && (forall q :: StagedAt(staging, q)
            == if q in got && Namespace(q).Some? then Get(source, q) else StagedAt(start.staging, q))
      && (forall x :: x in dirs <==> x in start.dirs || exists p :: p in got && Needs(p, x))
  }

  /** None of the paths is blocked at the start, and none of them blocks another. */
  ghost predicate Smooth(paths: set<Path>, start: Side) {
    match start
    case Side(_, _, _) =>
      && (forall p :: p in paths ==> !Blocked(start, p))
      && (forall p, q :: p in paths && q in paths && Namespace(p).None? ==> !Needs(q, p))
  }

  lemma NothingLanded(source: Replica, start: Side)
    ensures Landed({}, source, start, start) && Smooth({}, start)
  {
  }

  lemma LandMore(got: set<Path>, p: Path, source: Replica, now: Side, was: Side, start: Side)
    requires Landed(got, source, was, start) && p in source && WrittenBy(now, was, p, source[p])
    ensures Landed(got + {p}, source, now, start)
  {
    forall x
      ensures x in now.dirs <==> x in start.dirs || exists q :: q in got + {p} && Needs(q, x)
    {
      DirsForMeaning(p, x);
      if Needs(p, x) { assert p in got + {p}; }
      if q :| q in got && Needs(q, x) { assert q in got + {p}; }
    }
  }

  /** A path that is not blocked now was not blocked at the start, nor by anything that has arrived. */
  lemma SmoothMore(got: set<Path>, p: Path, source: Replica, was: Side, start: Side)
    requires Landed(got, source, was, start) && Smooth(got, start) && !Blocked(was, p)
    ensures Smooth(got + {p}, start)
  {
    forall x | x in start.files
      ensures x in was.files
    {
      assert Get(was.files, x) == if x in got && Namespace(x).None? then Get(source, x) else Get(start.files, x);
    }
    forall q | q in got
      ensures Namespace(q).None? ==> !Needs(p, q)
      ensures Namespace(p).None? ==> !Needs(q, p)
    {
      assert Get(was.files, q) == if q in got && Namespace(q).None? then Get(source, q) else Get(start.files, q);
    }
  }

  /** A planned path that is blocked on the way shows that the plan cannot be carried out. */
  lemma BlockedOnTheWay(got: set<Path>, all: set<Path>, p: Path, source: Replica, was: Side, start: Side)
    requires Landed(got, source, was, start) && got <= all && p in all && Blocked(was, p)
    requires forall q :: q in all ==> q != [] && Lasting(q)
    ensures !Smooth(all, start)
  {
    forall q | q in got
      ensures !Needs(q, TemporaryOf(p))
    {
      if TemporaryOf(p) <= q { BelowTemporary(p, q); }
    }
    if x :| x in was.files && Needs(p, x) {
      assert Get(was.files, x) == if x in got && Namespace(x).None? then Get(source, x) else Get(start.files, x);
      if x !in start.files { assert x in all; }
    }
  }

  // ---------------------------------------------------------------- downloads

  /** What the peer serves: the planned version of every planned file. */
  ghost predicate Serves(source: Replica, transfer: seq<Entry>) {
    forall i :: 0 <= i < |transfer| ==> ServesOne(source, transfer[i])
  }

  ghost predicate ServesOne(source: Replica, e: Entry) {
    e.path in source && source[e.path].size == e.size && source[e.path].mtime == e.mtime
  }

  /** Every planned path is a sync path with no part named like a temporary file, as plan validation sees to. */
  predicate AllValid(transfer: seq<Entry>) { forall e :: e in transfer ==> ValidPath(e.path) && Lasting(e.path) }

  /** The planned files written to the same temporary file as entry `i` while its task may be at work. */
  function RivalsOf(transfer: seq<Entry>, i: nat, limit: nat): set<Path>
    requires i < |transfer|
  {
    if limit <= 1 then {}
    else
      set j | 0 <= j < |transfer| && j != i && TemporaryOf(transfer[j].path) == TemporaryOf(transfer[i].path)
        :: transfer[j].path
  }

  /** Two tasks for this path and another one may have its temporary file open at a time. */
  ghost predicate CrowdedAt(transfer: seq<Entry>, limit: nat, p: Path) {
    exists i :: 0 <= i < |transfer| && transfer[i].path == p && RivalsOf(transfer, i, limit) != {}
  }

  ghost predicate Crowded(transfer: seq<Entry>, limit: nat) { exists p :: CrowdedAt(transfer, limit, p) }

  /** More than one task at a time, and two planned files with one temporary file. */
  lemma CrowdedMeaning(transfer: seq<Entry>, limit: nat)
    ensures Crowded(transfer, limit) <==> limit > 1 && exists i, j ::
      0 <= i < j < |transfer| && TemporaryOf(transfer[i].path) == TemporaryOf(transfer[j].path)
  {
    if Crowded(transfer, limit) {
      var p :| CrowdedAt(transfer, limit, p);
      var i :| 0 <= i < |transfer| && transfer[i].path == p && RivalsOf(transfer, i, limit) != {};
      var q :| q in RivalsOf(transfer, i, limit);
      var j :| 0 <= j < |transfer| && j != i && TemporaryOf(transfer[j].path) == TemporaryOf(p)
        && transfer[j].path == q;
      assert if i < j then TemporaryOf(transfer[i].path) == TemporaryOf(transfer[j].path)
             else TemporaryOf(transfer[j].path) == TemporaryOf(transfer[i].path);
    }
    if i, j :| 0 <= i < j < |transfer| && TemporaryOf(transfer[i].path) == TemporaryOf(transfer[j].path) {
      if limit > 1 {
        assert transfer[j].path in RivalsOf(transfer, i, limit);
        assert CrowdedAt(transfer, limit, transfer[i].path);
      }
    }
  }

  /**
   A file and its neighbour with one more trailing dot, on a side with nothing in the way: such a plan
   is smooth, and crowded as soon as two tasks may run at a time.
   */
  lemma DotNeighboursClash(directory: Path, name: string, a: Entry, b: Entry)
    requires !EndsInDot(name) && a.path == directory + [name] && b.path == directory + [name + "."]
    ensures Smooth(PathSet([a, b]), Side(map[], {}, map[]))
    ensures forall limit :: Crowded([a, b], limit) <==> limit > 1
  {
    WhoSharesTemporary(name, name + ".");
    assert TemporaryOf(a.path) == TemporaryOf(b.path);
    assert [a, b][0] == a && [a, b][1] == b;
    forall limit
      ensures Crowded([a, b], limit) <==> limit > 1
    {
      CrowdedMeaning([a, b], limit);
    }
  }

  lemma RivalsAreCrowded(transfer: seq<Entry>, i: nat, limit: nat)
    requires i < |transfer| && RivalsOf(transfer, i, limit) != {}
    ensures Crowded(transfer, limit) && CrowdedAt(transfer, limit, transfer[i].path)
    ensures forall q :: q in RivalsOf(transfer, i, limit) ==> CrowdedAt(transfer, limit, q) && q in PathSet(transfer)
  {
    forall q | q in RivalsOf(transfer, i, limit)
      ensures CrowdedAt(transfer, limit, q)
    {
      var j :| 0 <= j < |transfer| && j != i && TemporaryOf(transfer[j].path) == TemporaryOf(transfer[i].path)
        && transfer[j].path == q;
      assert transfer[i].path in RivalsOf(transfer, j, limit);
    }
  }

  // ---------------------------------------------------------------- what a transfer leaves

  /**
   What a transfer leaves of the plain files, finished or not: at each path the old file, or the
   planned bytes, perhaps with another time; only where tasks shared a temporary file anything else.
   */
  ghost predicate Left(files: Replica, files0: Replica, source: Replica, transfer: seq<Entry>, limit: nat) {
    forall p :: Get(files, p) == Get(files0, p) || LeftAt(files, source, transfer, limit, p)
  }

  ghost predicate LeftAt(files: Replica, source: Replica, transfer: seq<Entry>, limit: nat, p: Path) {
    && Namespace(p).None? && p in PathSet(transfer) && p in files && p in source
    && (SameBytes(files[p], source[p]) || CrowdedAt(transfer, limit, p))
  }

  /** One task's doing: its own file, or, where it has rivals, what a clash with them makes of theirs. */
  ghost predicate Meddles(files: Replica, was: Replica, source: Replica, p: Path, rivals: set<Path>) {
    forall q ::
      || Get(files, q) == Get(was, q)
      || (Namespace(q).None? && q in files && q in source
          && if rivals == {} then q == p && SameBytes(files[q], source[q]) else q in rivals + {p})
  }

  lemma MeddlesOnce(files: Replica, was: Replica, source: Replica, p: Path, rivals: set<Path>)
    requires files - {p} == was - {p} && p in source
    requires files == was
      || (Namespace(p).None? && p in files && (rivals != {} || SameBytes(files[p], source[p])))
    ensures Meddles(files, was, source, p, rivals)
  {
    forall q | q != p
      ensures Get(files, q) == Get(was, q)
    {
      assert Get(files - {p}, q) == Get(was - {p}, q);
    }
  }

  lemma LeftStep(files: Replica, was: Replica, files0: Replica, source: Replica, transfer: seq<Entry>, limit: nat,
                 i: nat)
    requires i < |transfer| && Left(was, files0, source, transfer, limit)
    requires Meddles(files, was, source, transfer[i].path, RivalsOf(transfer, i, limit))
    ensures Left(files, files0, source, transfer, limit)
  {
    var rivals := RivalsOf(transfer, i, limit);
    if rivals != {} { RivalsAreCrowded(transfer, i, limit); }
    forall q
      ensures Get(files, q) == Get(files0, q) || LeftAt(files, source, transfer, limit, q)
    {
      if Get(files, q) == Get(was, q) {
        assert Get(was, q) == Get(files0, q) || LeftAt(was, source, transfer, limit, q);
      } else {
        assert transfer[i].path in PathSet(transfer);
      }
    }
  }

  /** The same for a file that is written while no other task is at work. */
  lemma LeftAlone(files: Replica, was: Replica, files0: Replica, source: Replica, transfer: seq<Entry>, limit: nat,
                  p: Path)
    requires p in PathSet(transfer) && Left(was, files0, source, transfer, limit)
    requires Meddles(files, was, source, p, {})
    ensures Left(files, files0, source, transfer, limit)
  {
    forall q
      ensures Get(files, q) == Get(files0, q) || LeftAt(files, source, transfer, limit, q)
    {
      if Get(files, q) == Get(was, q) {
        assert Get(was, q) == Get(files0, q) || LeftAt(was, source, transfer, limit, q);
      }
    }
  }

  // ---------------------------------------------------------------- one download

  /**
   The write of one received file. Where another task may have its temporary file open, and one such
   task has failed, the file renamed into place can be a mixture.
   */
  method Receive(workspace: Workspace, entry: Entry, source: Replica, rivals: set<Path>, late: bool)
    returns (written: WriteOutcome)
    requires workspace.transfer.Fresh() && ServesOne(source, entry)
    modifies workspace`files, workspace`dirs
    modifies workspace.transfer.disk`staging, workspace.transfer.disk`trace, workspace.transfer.disk`faulted
    ensures workspace.transfer.Fresh()
    ensures NoFalseFault(old(workspace.transfer.disk.faulted), workspace.transfer.disk.faulted,
                         workspace.transfer.disk.reliable)
    ensures written.Written? ==> !Blocked(old(workspace.Now()), entry.path)
    ensures written.Written? && (rivals == {} || !late) ==>
      WrittenBy(workspace.Now(), old(workspace.Now()), entry.path, source[entry.path])
    ensures written.WriteFailed? ==> workspace.transfer.disk.faulted || Blocked(old(workspace.Now()), entry.path)
    ensures written.WriteFailed? && !written.targetChanged ==> workspace.files == old(workspace.files)
    ensures Namespace(entry.path).Some? ==> workspace.files == old(workspace.files)
    ensures Meddles(workspace.files, old(workspace.files), source, entry.path, rivals)
  {
    var file := File(entry.size, entry.mtime, source[entry.path].content);
    if rivals != {} && late {
      file := *;
    }
    written := workspace.WriteFile(entry.path, file);
    assert written.Written? && Namespace(entry.path).None? ==> Get(workspace.files, entry.path) == Some(file);
    MeddlesOnce(workspace.files, old(workspace.files), source, entry.path, rivals);
  }

  /** Where the stream of an answer ends: before the planned size, at it, or beyond it. */
  datatype StreamEnd = TooEarly | AtItsEnd | TooLate

  /** What the peer answers to the request for one file. */
  datatype Reply = Refused(error: SyncError) | Answered(contentLength: Option<u64>, end: StreamEnd) {
    predicate Announces(size: nat) { Answered? && (contentLength.Some? ==> contentLength.value == size) }

    /** The file is announced with its size, if at all, and the stream has exactly as many bytes. */
    predicate Delivers(size: nat) { Announces(size) && end.AtItsEnd? }
  }

  /**
   One task of `spawn_download_task`: request, size header check, exact-size write, record,
   end-of-stream check. Where other tasks may have its temporary file open the write can fail
   without a fault, its bytes gone into files already received; and once such a task has failed,
   the file this one renames can be a mixture.
   */
  method DownloadTask(workspace: Workspace, tracker: Tracker, entry: Entry, source: Replica, reply: Reply,
                      rivals: set<Path>, late: bool)
    returns (outcome: TaskOutcome)
    requires workspace.transfer.Fresh() && ServesOne(source, entry) && rivals <= source.Keys
    requires workspace.transfer.disk.reliable ==> reply.Delivers(entry.size)
    modifies workspace`files, workspace`dirs, tracker`writes
    modifies workspace.transfer.disk`staging, workspace.transfer.disk`trace, workspace.transfer.disk`faulted
    ensures workspace.transfer.Fresh()
    ensures NoFalseFault(old(workspace.transfer.disk.faulted), workspace.transfer.disk.faulted,
                         workspace.transfer.disk.reliable)
    ensures outcome.Done? ==> reply.Delivers(entry.size)
    ensures outcome.Done? ==> tracker.writes == old(tracker.writes) + [entry]
    ensures tracker.writes == old(tracker.writes) || tracker.writes == old(tracker.writes) + [entry]
    ensures reply.Refused? ==> outcome == TaskFailed(reply.error, false)
    ensures reply.Answered? && !reply.Announces(entry.size) ==> outcome == TaskFailed(InvalidData, false)
    ensures !reply.Announces(entry.size) ==>
      workspace.Now() == old(workspace.Now()) && tracker.writes == old(tracker.writes)
    ensures reply.Answered? && reply.end.TooEarly? ==>
      tracker.writes == old(tracker.writes) && (rivals == {} ==> workspace.Now() == old(workspace.Now()))
    ensures outcome.TaskFailed? && tracker.writes != old(tracker.writes) ==>
      reply.Answered? && reply.end.TooLate?
      && outcome == TaskFailed(InvalidData, AppliedIn(workspace.transfer.applied, entry.path))
    ensures !outcome.Done? ==>
      workspace.transfer.disk.faulted || Blocked(old(workspace.Now()), entry.path) || rivals != {}
    ensures outcome.Done? ==> !Blocked(old(workspace.Now()), entry.path)
    ensures outcome.Done? && (rivals == {} || !late) ==>
      WrittenBy(workspace.Now(), old(workspace.Now()), entry.path, source[entry.path])
    ensures workspace.files
      == old(workspace.files) || outcome.Panicked? || (outcome.TaskFailed? && outcome.targetChanged)
      || PlainChange(tracker.writes, [])
    ensures Meddles(workspace.files, old(workspace.files), source, entry.path, rivals)
  {
    var crashed := workspace.transfer.disk.Fails();
    var clash: bool := *;
    workspace.transfer.disk.Blame(!reply.Delivers(entry.size));
    if reply.Refused? {
      return TaskFailed(reply.error, false);
    }
    if reply.contentLength.Some? && reply.contentLength.value != entry.size {
      return TaskFailed(InvalidData, false);
    }
    if rivals != {} && clash {
      SpoilReceived(workspace, tracker, rivals, source);
      return if crashed then Panicked else TaskFailed(Io, false);
    }
    if reply.end.TooEarly? {
      return TaskFailed(Io, false);
    }
    var written := Receive(workspace, entry, source, rivals, late);
    if written.WriteFailed? {
      return TaskFailed(written.error, written.targetChanged);
    }
    if crashed {
      return Panicked;
    }
    tracker.RecordWrite(entry);
    if reply.end.TooLate? {
      return TaskFailed(InvalidData, workspace.transfer.IsApplied(entry.path));
    }
    return Done;
  }

  /** A clash reaches only rivals that have been received, and so recorded. */
  method SpoilReceived(workspace: Workspace, tracker: Tracker, rivals: set<Path>, source: Replica)
    requires workspace.transfer.Fresh() && rivals <= source.Keys
    modifies workspace`files, workspace.transfer.disk`staging, workspace.transfer.disk`trace
    ensures workspace.transfer.Fresh()
    ensures workspace.files == old(workspace.files) || PlainChange(tracker.writes, [])
    ensures forall q ::
      || Get(workspace.files, q) == old(Get(workspace.files, q))
      || (Namespace(q).None? && q in workspace.files && q in source && q in rivals)
  {
    var received := set e | e in tracker.writes && e.path in rivals :: e.path;
    workspace.Spoil(received);
    if !PlainChange(tracker.writes, []) {
      SameReplica(workspace.files, old(workspace.files));
    }
  }

  datatype DownloadResult = Downloaded
                          | DownloadFailed(error: SyncError, localApplied: LocalChangeSummary, localTargetChanged: bool)

  /** The paths of the entries started and no longer in flight. */
  function Received(transfer: seq<Entry>, started: nat, inFlight: seq<nat>): set<Path>
    requires started <= |transfer|
  {
    set i | 0 <= i < started && i !in inFlight :: transfer[i].path
  }

  lemma ReceivedStart(transfer: seq<Entry>, started: nat, inFlight: seq<nat>)
    requires started < |transfer|
    ensures Received(transfer, started + 1, inFlight + [started]) == Received(transfer, started, inFlight)
  {
    assert forall i :: 0 <= i < started ==> (i in inFlight + [started] <==> i in inFlight);
    assert started in inFlight + [started];
  }

  lemma ReceivedFinish(transfer: seq<Entry>, started: nat, inFlight: seq<nat>, k: nat)
    requires started <= |transfer| && k < |inFlight| && inFlight[k] < started && Distinct(inFlight)
    ensures Received(transfer, started, RemoveAt(inFlight, k))
      == Received(transfer, started, inFlight) + {transfer[inFlight[k]].path}
  {
    RemoveAtElems(inFlight, k);
    forall i: nat
      ensures i in RemoveAt(inFlight, k) <==> i in inFlight && i != inFlight[k]
    {
      assert i in RemoveAt(inFlight, k) <==> i in Elems(RemoveAt(inFlight, k));
      assert i in inFlight <==> i in Elems(inFlight);
    }
  }

  lemma ReceivedAll(transfer: seq<Entry>)
    ensures Received(transfer, |transfer|, []) == PathSet(transfer)
  {
  }

  lemma ReceivedPlanned(transfer: seq<Entry>, started: nat, inFlight: seq<nat>)
    requires started <= |transfer|
    ensures Received(transfer, started, inFlight) <= PathSet(transfer)
  {
  }

  /** While nothing has failed, exactly the received files have arrived, each on a free path. */
  ghost predicate OnCourse(transfer: seq<Entry>, started: nat, inFlight: seq<nat>, source: Replica, now: Side,
                           start: Side)
    requires started <= |transfer|
  {
    match now
    case Side(_, _, _) =>
      && Landed(Received(transfer, started, inFlight), source, now, start)
      && Smooth(Received(transfer, started, inFlight), start)
  }

  lemma CourseBegins(transfer: seq<Entry>, source: Replica, start: Side)
    ensures OnCourse(transfer, 0, [], source, start, start)
  {
    NothingLanded(source, start);
    assert Received(transfer, 0, []) == {};
  }

  lemma CourseStart(transfer: seq<Entry>, started: nat, inFlight: seq<nat>, source: Replica, now: Side, start: Side)
    requires started < |transfer| && OnCourse(transfer, started, inFlight, source, now, start)
    ensures OnCourse(transfer, started + 1, inFlight + [started], source, now, start)
  {
    ReceivedStart(transfer, started, inFlight);
  }

  lemma CourseFinish(transfer: seq<Entry>, started: nat, inFlight: seq<nat>, k: nat, source: Replica, now: Side,
                     was: Side, start: Side)
    requires started <= |transfer| && k < |inFlight| && inFlight[k] < started && Distinct(inFlight)
    requires OnCourse(transfer, started, inFlight, source, was, start) && ServesOne(source, transfer[inFlight[k]])
    requires !Blocked(was, transfer[inFlight[k]].path)
    requires WrittenBy(now, was, transfer[inFlight[k]].path, source[transfer[inFlight[k]].path])
    ensures OnCourse(transfer, started, RemoveAt(inFlight, k), source, now, start)
  {
    var got, p := Received(transfer, started, inFlight), transfer[inFlight[k]].path;
    ReceivedFinish(transfer, started, inFlight, k);
    LandMore(got, p, source, now, was, start);
    SmoothMore(got, p, source, was, start);
  }

  lemma PlannedAreLasting(transfer: seq<Entry>)
    requires AllValid(transfer)
    ensures forall q :: q in PathSet(transfer) ==> q != [] && Lasting(q)
  {
  }

  lemma CourseBlocked(transfer: seq<Entry>, started: nat, inFlight: seq<nat>, p: Path, source: Replica, was: Side,
                      start: Side)
    requires started <= |transfer| && OnCourse(transfer, started, inFlight, source, was, start)
    requires AllValid(transfer) && p in PathSet(transfer) && Blocked(was, p)
    ensures !Smooth(PathSet(transfer), start)
  {
    ReceivedPlanned(transfer, started, inFlight);
    PlannedAreLasting(transfer);
    BlockedOnTheWay(Received(transfer, started, inFlight), PathSet(transfer), p, source, was, start);
  }

  lemma CourseEnds(transfer: seq<Entry>, source: Replica, now: Side, start: Side)
    requires OnCourse(transfer, |transfer|, [], source, now, start)
    ensures Landed(PathSet(transfer), source, now, start) && Smooth(PathSet(transfer), start)
  {
    ReceivedAll(transfer);
  }

  ghost function FlightBytes(transfer: seq<Entry>, inFlight: seq<nat>): nat {
    if inFlight == [] then 0
    else
      var last := inFlight[|inFlight| - 1];
      FlightBytes(transfer, inFlight[..|inFlight| - 1]) + if last < |transfer| then transfer[last].size else 0
  }

  ghost function FlightEntries(transfer: seq<Entry>, inFlight: seq<nat>): multiset<Entry> {
    if inFlight == [] then multiset{}
    else
      var last := inFlight[|inFlight| - 1];
      FlightEntries(transfer, inFlight[..|inFlight| - 1])
      + if last < |transfer| then multiset{transfer[last]} else multiset{}
  }

  /** The progress counters: everything started is done or in flight. */
  ghost predicate Counted(transfer: seq<Entry>, started: nat, inFlight: seq<nat>, filesDone: nat, bytesDone: nat)
    requires started <= |transfer|
  {
    && filesDone + |inFlight| == started
    && bytesDone + FlightBytes(transfer, inFlight) == SumSizes(transfer[..started])
  }

  lemma {:induction false} FlightRemove(transfer: seq<Entry>, inFlight: seq<nat>, k: nat)
    requires k < |inFlight| && inFlight[k] < |transfer|
    ensures FlightBytes(transfer, inFlight) == FlightBytes(transfer, RemoveAt(inFlight, k)) + transfer[inFlight[k]].size
    ensures FlightEntries(transfer, inFlight)
      == FlightEntries(transfer, RemoveAt(inFlight, k)) + multiset{transfer[inFlight[k]]}
    decreases |inFlight|
  {
    var n := |inFlight| - 1;
    var init, r := inFlight[..n], RemoveAt(inFlight, k);
    if k < n {
      FlightRemove(transfer, init, k);
      assert r[..|r| - 1] == RemoveAt(init, k);
    } else {
      assert r == init;
    }
  }

  lemma CountFinish(transfer: seq<Entry>, started: nat, inFlight: seq<nat>, k: nat, filesDone: nat, bytesDone: nat)
    requires started <= |transfer| && k < |inFlight| && inFlight[k] < started
    requires Counted(transfer, started, inFlight, filesDone, bytesDone)
    ensures Counted(transfer, started, RemoveAt(inFlight, k), filesDone + 1, bytesDone + transfer[inFlight[k]].size)
  {
    FlightRemove(transfer, inFlight, k);
  }

  lemma CountStart(transfer: seq<Entry>, started: nat, inFlight: seq<nat>, filesDone: nat, bytesDone: nat)
    requires started < |transfer| && Counted(transfer, started, inFlight, filesDone, bytesDone)
    ensures Counted(transfer, started + 1, inFlight + [started], filesDone, bytesDone)
  {
    assert (inFlight + [started])[..|inFlight|] == inFlight;
    assert transfer[..started + 1][..started] == transfer[..started];
  }

  /** A visible change is flagged, recorded, or hidden by a crashed task. */
  ghost predicate Reported(files: Replica, files0: Replica, flagged: bool, writes: seq<Entry>, deletes: seq<Path>,
                           panicked: bool) {
    files == files0 || flagged || panicked || PlainChange(writes, deletes)
  }

  lemma ReportedStep(files: Replica, files': Replica, files0: Replica, flagged: bool, flagged': bool,
                     writes: seq<Entry>, writes': seq<Entry>, panicked: bool, panicked': bool, entry: Entry)
    requires Reported(files, files0, flagged, writes, [], panicked)
    requires (flagged ==> flagged') && (panicked ==> panicked')
    requires writes' == writes || writes' == writes + [entry]
    requires files' == files || flagged' || panicked' || PlainChange(writes', [])
    ensures Reported(files', files0, flagged', writes', [], panicked')
  {
    assert forall e :: e in writes ==> e in writes';
  }

  /** The bookkeeping of a join set, as one value. */
  datatype Book = Book(transfer: seq<Entry>, limit: nat, inFlight: seq<nat>, started: nat, failed: bool,
                       filesDone: nat, bytesDone: nat, log: seq<Event>)

  ghost predicate Balanced(b: Book) {
    match b
    case Book(transfer, limit, inFlight, started, failed, filesDone, bytesDone, log) =>
      && Tracks(log, inFlight, started, |transfer|, limit) && |inFlight| <= limit
      && (failed <==> Failed(log))
      && (!failed ==> Counted(transfer, started, inFlight, filesDone, bytesDone))
  }

  /** The books after the next entry is started. */
  function Begun(b: Book): Book {
    b.(inFlight := b.inFlight + [b.started], started := b.started + 1, log := b.log + [Start(b.started)])
  }

  lemma BalancedStart(b: Book)
    requires Balanced(b) && !b.failed && b.started < |b.transfer| && |b.inFlight| < b.limit
    ensures Balanced(Begun(b))
  {
    TrackStart(b.log, b.inFlight, b.started, |b.transfer|, b.limit);
    CountStart(b.transfer, b.started, b.inFlight, b.filesDone, b.bytesDone);
  }

  /** The progress counters after a task of `size` bytes: they only move while nothing has failed. */
  function Progressed(b: Book, failed: bool, size: nat): Book {
    if failed then b.(failed := true) else b.(filesDone := b.filesDone + 1, bytesDone := b.bytesDone + size)
  }

  /** The books once what is at position `k` in flight is collected. */
  function Collected(b: Book, k: nat, outcome: TaskOutcome): Book
    requires k < |b.inFlight| && b.inFlight[k] < |b.transfer|
  {
    Progressed(b, b.failed || !outcome.Done?, b.transfer[b.inFlight[k]].size)
    .(inFlight := RemoveAt(b.inFlight, k), log := b.log + [Finish(b.inFlight[k], outcome)])
  }

  /**
   What is recorded: no entry but one that was started and is no longer in flight, each at most once,
   and while nothing has failed all of these.
   */
  ghost predicate Recorded(b: Book, writes: seq<Entry>) {
    match b
    case Book(transfer, _, inFlight, started, failed, _, _, _) =>
      && started <= |transfer|
      && multiset(writes) + FlightEntries(transfer, inFlight) <= multiset(transfer[..started])
      && (!failed ==> multiset(writes) + FlightEntries(transfer, inFlight) == multiset(transfer[..started]))
  }

  lemma NothingRecorded(b: Book)
    requires b.started == 0 && b.inFlight == []
    ensures Recorded(b, [])
  {
  }

  lemma RecordedStart(b: Book, writes: seq<Entry>)
    requires Recorded(b, writes) && !b.failed && b.started < |b.transfer|
    ensures Recorded(Begun(b), writes)
  {
    assert (b.inFlight + [b.started])[..|b.inFlight|] == b.inFlight;
    assert b.transfer[..b.started + 1] == b.transfer[..b.started] + [b.transfer[b.started]];
  }

  lemma RecordedFinish(b: Book, k: nat, outcome: TaskOutcome, recorded: seq<Entry>, writes: seq<Entry>)
    requires Recorded(b, recorded) && k < |b.inFlight| && b.inFlight[k] < |b.transfer|
    requires writes == recorded + [b.transfer[b.inFlight[k]]] || (writes == recorded && !outcome.Done?)
    ensures Recorded(Collected(b, k, outcome), writes)
  {
    FlightRemove(b.transfer, b.inFlight, k);
  }

  lemma RecordedEnds(b: Book, writes: seq<Entry>)
    requires Recorded(b, writes) && b.inFlight == []
    ensures multiset(writes) <= multiset(b.transfer)
    ensures !b.failed && b.started == |b.transfer| ==> multiset(writes) == multiset(b.transfer)
  {
    assert b.transfer == b.transfer[..b.started] + b.transfer[b.started..];
  }

  /** Nothing more can be started now, so the loop waits for a task. */
  predicate Waiting(b: Book) { b.failed || |b.inFlight| == b.limit || b.started == |b.transfer| }

  lemma InFlightStarted(b: Book)
    requires Balanced(b)
    ensures Distinct(b.inFlight) && b.started <= |b.transfer|
    ensures forall k :: 0 <= k < |b.inFlight| ==> b.inFlight[k] < b.started
  {
    ScheduleBounds(b.log, |b.transfer|, b.limit);
    assert forall k :: 0 <= k < |b.inFlight| ==> b.inFlight[k] in Elems(b.inFlight);
  }

  lemma BalancedFinish(b: Book, k: nat, outcome: TaskOutcome)
    requires Balanced(b) && Waiting(b) && k < |b.inFlight|
    ensures b.inFlight[k] < b.started <= |b.transfer|
    ensures Balanced(Collected(b, k, outcome))
  {
    TrackFinish(b.log, b.inFlight, b.started, |b.transfer|, b.limit, k, outcome);
    if !b.failed {
      CountFinish(b.transfer, b.started, b.inFlight, k, b.filesDone, b.bytesDone);
    }
  }

  /**
   The join set of a transfer loop with its progress counters: tasks in flight, entries started,
   whether a task failed, and the log of it all.
   */
  class JoinSet {
    const transfer: seq<Entry>
    const limit: nat
    var inFlight: seq<nat>
    var started: nat
    var failed: bool
    var filesDone: nat
    var bytesDone: nat
    ghost var log: seq<Event>

    ghost function Books(): Book
      reads this
    {
      Book(transfer, limit, inFlight, started, failed, filesDone, bytesDone, log)
    }

    ghost predicate Valid()
      reads this
    {
      Balanced(Books())
    }

    /** What is still to be started or collected, counting an entry twice until it is started. */
    ghost function Left(): int
      reads this
    {
      2 * (|transfer| - started) + |inFlight|
    }

    constructor (transfer: seq<Entry>, limit: nat)
      ensures Valid() && this.transfer == transfer && this.limit == limit
      ensures inFlight == [] && started == 0 && !failed && log == []
    {
      this.transfer, this.limit := transfer, limit;
      inFlight, started, failed, filesDone, bytesDone, log := [], 0, false, 0, 0, [];
    }

    /** Start the next entry of the plan. */
    method SpawnNext()
      requires Valid() && !failed && started < |transfer| && |inFlight| < limit
      modifies this
      ensures Valid() && Books() == Begun(old(Books()))
    {
      BalancedStart(Books());
      log := log + [Start(started)];
      inFlight := inFlight + [started];
      started := started + 1;
    }

    /** Collect one finished task; the counters only move while nothing has failed. */
    method Collect(k: nat, outcome: TaskOutcome)
      requires Valid() && Waiting(Books()) && k < |inFlight| && inFlight[k] < |transfer|
      modifies this
      ensures Valid() && Books() == Collected(old(Books()), k, outcome)
    {
      ghost var after := Collected(Books(), k, outcome);
      BalancedFinish(Books(), k, outcome);
      log := log + [Finish(inFlight[k], outcome)];
      failed := failed || !outcome.Done?;
      if !failed {
        filesDone := filesDone + 1;
        bytesDone := bytesDone + transfer[inFlight[k]].size;
      }
      inFlight := RemoveAt(inFlight, k);
      assert Books() == after;
    }
  }

  /** When nothing is in flight and nothing failed after everything started, the totals are reached. */
  lemma Totals(b: Book)
    requires Balanced(b) && b.inFlight == []
    ensures IsSchedule(b.log, |b.transfer|, b.limit) && Open(b.log) == {} && (b.failed <==> Failed(b.log))
    ensures !b.failed && b.started == |b.transfer| ==>
      Started(b.log) == |b.transfer| && b.filesDone == |b.transfer| && b.bytesDone == SumSizes(b.transfer)
  {
    assert b.transfer[..|b.transfer|] == b.transfer;
  }

  /**
   A transfer under way: while nothing has failed the received files have arrived and something is
   in flight until all is started; a failure comes from a fault, a blocked path, or tasks that
   share a temporary file.
   */
  ghost predicate Underway(b: Book, source: Replica, now: Side, start: Side, faulted: bool) {
    match b
    case Book(transfer, limit, inFlight, started, failed, filesDone, bytesDone, log) =>
      && Balanced(b)
      && (failed ==> faulted || !Smooth(PathSet(transfer), start) || Crowded(transfer, limit))
      && (!failed ==> started <= |transfer| && OnCourse(transfer, started, inFlight, source, now, start))
  }

  lemma RivalsServed(source: Replica, transfer: seq<Entry>, i: nat, limit: nat)
    requires i < |transfer| && Serves(source, transfer)
    ensures RivalsOf(transfer, i, limit) <= source.Keys
  {
    forall q | q in RivalsOf(transfer, i, limit)
      ensures q in source
    {
      var j :| 0 <= j < |transfer| && j != i && TemporaryOf(transfer[j].path) == TemporaryOf(transfer[i].path)
        && transfer[j].path == q;
      assert ServesOne(source, transfer[j]);
    }
  }

  /** Before any failure: a finished task keeps the course, and a failed one leaves a reason other than a fault. */
  lemma CourseTurn(b: Book, k: nat, source: Replica, now: Side, was: Side, start: Side, outcome: TaskOutcome)
    requires b.started <= |b.transfer| && k < |b.inFlight| && b.inFlight[k] < b.started && Distinct(b.inFlight)
    requires OnCourse(b.transfer, b.started, b.inFlight, source, was, start)
    requires AllValid(b.transfer) && Serves(source, b.transfer)
    requires outcome.Done? ==>
      var p := b.transfer[b.inFlight[k]].path;
      !Blocked(was, p) && p in source && WrittenBy(now, was, p, source[p])
    ensures outcome.Done? ==> OnCourse(b.transfer, b.started, RemoveAt(b.inFlight, k), source, now, start)
    ensures Blocked(was, b.transfer[b.inFlight[k]].path) ==> !Smooth(PathSet(b.transfer), start)
    ensures RivalsOf(b.transfer, b.inFlight[k], b.limit) != {} ==> Crowded(b.transfer, b.limit)
  {
    var i := b.inFlight[k];
    assert ServesOne(source, b.transfer[i]) && b.transfer[i].path in PathSet(b.transfer);
    if outcome.Done? {
      CourseFinish(b.transfer, b.started, b.inFlight, k, source, now, was, start);
    }
    if Blocked(was, b.transfer[i].path) {
      CourseBlocked(b.transfer, b.started, b.inFlight, b.transfer[i].path, source, was, start);
    }
    if RivalsOf(b.transfer, i, b.limit) != {} {
      RivalsAreCrowded(b.transfer, i, b.limit);
    }
  }

  /** What one task did to the side it writes to. */
  ghost predicate TaskDid(source: Replica, entry: Entry, rivals: set<Path>, late: bool, outcome: TaskOutcome, now: Side,
                          was: Side, faulted: bool) {
    match outcome
    case Done =>
      && !Blocked(was, entry.path) && entry.path in source
      && (rivals == {} || !late ==> WrittenBy(now, was, entry.path, source[entry.path]))
    case _ => faulted || Blocked(was, entry.path) || rivals != {}
  }

  /** The transfer stays under way when a task is collected. */
  lemma UnderwayTurn(b: Book, k: nat, outcome: TaskOutcome, source: Replica, now: Side, was: Side, start: Side,
                     faulted: bool, before: bool)
    requires Underway(b, source, was, start, before) && (before ==> faulted) && Waiting(b) && k < |b.inFlight|
    requires b.inFlight[k] < |b.transfer| && AllValid(b.transfer) && Serves(source, b.transfer)
    requires TaskDid(source, b.transfer[b.inFlight[k]], RivalsOf(b.transfer, b.inFlight[k], b.limit), b.failed, outcome,
                     now, was, faulted)
    ensures Underway(Collected(b, k, outcome), source, now, start, faulted)
  {
    BalancedFinish(b, k, outcome);
    InFlightStarted(b);
    if !b.failed {
      CourseTurn(b, k, source, now, was, start, outcome);
    }
  }

  lemma UnderwayStart(b: Book, source: Replica, now: Side, start: Side, faulted: bool)
    requires Underway(b, source, now, start, faulted)
    requires !b.failed && b.started < |b.transfer| && |b.inFlight| < b.limit
    ensures Underway(Begun(b), source, now, start, faulted)
  {
    BalancedStart(b);
    CourseStart(b.transfer, b.started, b.inFlight, source, now, start);
  }

  lemma UnderwayEnds(b: Book, source: Replica, now: Side, start: Side, faulted: bool)
    requires Underway(b, source, now, start, faulted) && b.inFlight == [] && b.limit > 0 && Waiting(b)
    ensures IsSchedule(b.log, |b.transfer|, b.limit) && Open(b.log) == {} && (b.failed <==> Failed(b.log))
    ensures b.failed ==> faulted || !Smooth(PathSet(b.transfer), start) || Crowded(b.transfer, b.limit)
    ensures !b.failed ==>
      && Started(b.log) == |b.transfer| && b.filesDone == |b.transfer| && b.bytesDone == SumSizes(b.transfer)
      && Landed(PathSet(b.transfer), source, now, start) && Smooth(PathSet(b.transfer), start)
  {
    Totals(b);
    if !b.failed { CourseEnds(b.transfer, source, now, start); }
  }

  /** What the loop notes of the tasks collected so far: the first error, and whether a target changed. */
  datatype Note = Note(firstError: Option<SyncError>, changed: bool)

  function Noting(note: Note, outcome: TaskOutcome, changed: bool): Note {
    Note(if note.firstError.None? && !outcome.Done? then Some(ErrorOf(outcome)) else note.firstError,
         note.changed || changed)
  }

  /** A download under way, with what is recorded, noted, and left of the files if it should fail. */
  ghost predicate Downloading(b: Book, source: Replica, now: Side, start: Side, faulted: bool, writes: seq<Entry>,
                              note: Note) {
    match b
    case Book(transfer, limit, inFlight, started, failed, _, _, log) =>
      && Underway(b, source, now, start, faulted)
      && Reported(now.files, start.files, Flagged(log), writes, [], Crashed(log))
      && Left(now.files, start.files, source, transfer, limit)
      && Recorded(b, writes)
      && NotedError(log, note.firstError) && note.changed == Flagged(log) && failed == note.firstError.Some?
  }

  lemma DownloadingBegins(b: Book, source: Replica, start: Side, faulted: bool)
    requires Underway(b, source, start, start, faulted) && Recorded(b, []) && NotedError(b.log, None) && !b.failed
    ensures Downloading(b, source, start, start, faulted, [], Note(None, false))
  {
    FailedSigns(b.log);
  }

  lemma DownloadingStart(b: Book, source: Replica, now: Side, start: Side, faulted: bool, writes: seq<Entry>,
                         note: Note)
    requires Downloading(b, source, now, start, faulted, writes, note)
    requires !b.failed && b.started < |b.transfer| && |b.inFlight| < b.limit
    ensures Downloading(Begun(b), source, now, start, faulted, writes, note)
  {
    UnderwayStart(b, source, now, start, faulted);
    RecordedStart(b, writes);
    Signs(b.log, Start(b.started));
    NotedStart(b.log, b.started, note.firstError);
  }

  lemma DownloadingTurn(b: Book, k: nat, outcome: TaskOutcome, source: Replica, now: Side, was: Side, start: Side,
                        faulted: bool, before: bool, writes: seq<Entry>, recorded: seq<Entry>, note: Note)
    requires Downloading(b, source, was, start, before, recorded, note) && (before ==> faulted)
    requires Waiting(b) && k < |b.inFlight| && b.inFlight[k] < |b.transfer|
    requires AllValid(b.transfer) && Serves(source, b.transfer)
    requires
      var entry, rivals := b.transfer[b.inFlight[k]], RivalsOf(b.transfer, b.inFlight[k], b.limit);
      && TaskDid(source, entry, rivals, b.failed, outcome, now, was, faulted)
      && (writes == recorded + [entry] || (writes == recorded && !outcome.Done?))
      && Meddles(now.files, was.files, source, entry.path, rivals)
    requires now.files == was.files || outcome.Panicked? || (outcome.TaskFailed? && outcome.targetChanged)
      || PlainChange(writes, [])
    ensures Downloading(Collected(b, k, outcome), source, now, start, faulted, writes,
                        Noting(note, outcome, outcome.TaskFailed? && outcome.targetChanged))
  {
    var i := b.inFlight[k];
    UnderwayTurn(b, k, outcome, source, now, was, start, faulted, before);
    Signs(b.log, Finish(i, outcome));
    var next := b.log + [Finish(i, outcome)];
    ReportedStep(was.files, now.files, start.files, Flagged(b.log), Flagged(next), recorded, writes, Crashed(b.log),
                 Crashed(next), b.transfer[i]);
    LeftStep(now.files, was.files, start.files, source, b.transfer, b.limit, i);
    RecordedFinish(b, k, outcome, recorded, writes);
    NotedFinish(b.log, i, outcome, note.firstError);
  }

  /** What holds once nothing is in flight any more. */
  lemma DownloadingEnds(b: Book, source: Replica, now: Side, start: Side, faulted: bool, writes: seq<Entry>,
                        note: Note)
    requires Downloading(b, source, now, start, faulted, writes, note) && b.inFlight == [] && b.limit > 0 && Waiting(b)
    ensures IsSchedule(b.log, |b.transfer|, b.limit) && Open(b.log) == {} && (b.failed <==> Failed(b.log))
    ensures b.failed ==> faulted || !Smooth(PathSet(b.transfer), start) || Crowded(b.transfer, b.limit)
    ensures !b.failed ==>
      && Started(b.log) == |b.transfer| && b.filesDone == |b.transfer| && b.bytesDone == SumSizes(b.transfer)
      && Landed(PathSet(b.transfer), source, now, start) && Smooth(PathSet(b.transfer), start)
      && multiset(writes) == multiset(b.transfer)
    ensures multiset(writes) <= multiset(b.transfer)
    ensures Reported(now.files, start.files, Flagged(b.log), writes, [], Crashed(b.log))
    ensures Left(now.files, start.files, source, b.transfer, b.limit)
    ensures match note.firstError
            case None => !b.failed && !note.changed && !Crashed(b.log)
            case Some(error) => b.failed && FirstErrorIs(b.log, error) && note.changed == Flagged(b.log)
  {
    FailedSigns(b.log);
    UnderwayEnds(b, source, now, start, faulted);
    RecordedEnds(b, writes);
  }

  /** Run what is at position `k` in flight to its end, with whatever answer the peer gives. */
  method RunTask(workspace: Workspace, tracker: Tracker, transfer: seq<Entry>, i: nat, limit: nat, source: Replica,
                 late: bool, ghost b: Book, ghost k: nat, ghost note: Note, ghost start: Side)
    returns (outcome: TaskOutcome)
    requires b.transfer == transfer && b.limit == limit && k < |b.inFlight| && b.inFlight[k] == i < |transfer|
    requires b.failed == late && Waiting(b) && workspace.transfer.Fresh()
    requires Serves(source, transfer) && AllValid(transfer)
    requires Downloading(b, source, workspace.Now(), start, workspace.transfer.disk.faulted, tracker.writes, note)
    modifies workspace`files, workspace`dirs, tracker`writes
    modifies workspace.transfer.disk`staging, workspace.transfer.disk`trace, workspace.transfer.disk`faulted
    ensures workspace.transfer.Fresh()
    ensures NoFalseFault(old(workspace.transfer.disk.faulted), workspace.transfer.disk.faulted,
                         workspace.transfer.disk.reliable)
    ensures Downloading(Collected(b, k, outcome), source, workspace.Now(), start, workspace.transfer.disk.faulted,
                        tracker.writes, Noting(note, outcome, outcome.TaskFailed? && outcome.targetChanged))
  {
    assert ServesOne(source, transfer[i]);
    RivalsServed(source, transfer, i, b.limit);
    assert Answered(None, AtItsEnd).Delivers(transfer[i].size);
    var reply: Reply :| workspace.transfer.disk.reliable ==> reply.Delivers(transfer[i].size);
    ghost var was, before, recorded := workspace.Now(), workspace.transfer.disk.faulted, tracker.writes;
    outcome := DownloadTask(workspace, tracker, transfer[i], source, reply, RivalsOf(transfer, i, limit), late);
    DownloadingTurn(b, k, outcome, source, workspace.Now(), was, start, workspace.transfer.disk.faulted, before,
                    tracker.writes, recorded, note);
  }

  /** Wait for any one task in flight, run it to its end, collect it and note how it ended. */
  method JoinNext(workspace: Workspace, tracker: Tracker, tasks: JoinSet, source: Replica, note: Note,
                  ghost start: Side)
    returns (note': Note)
    requires |tasks.inFlight| > 0 && Serves(source, tasks.transfer) && AllValid(tasks.transfer)
    requires workspace.transfer.Fresh() && Waiting(tasks.Books())
    requires Downloading(tasks.Books(), source, workspace.Now(), start, workspace.transfer.disk.faulted,
                         tracker.writes, note)
    modifies workspace`files, workspace`dirs, tracker`writes, tasks
    modifies workspace.transfer.disk`staging, workspace.transfer.disk`trace, workspace.transfer.disk`faulted
    ensures workspace.transfer.Fresh()
    ensures NoFalseFault(old(workspace.transfer.disk.faulted), workspace.transfer.disk.faulted,
                         workspace.transfer.disk.reliable)
    ensures Downloading(tasks.Books(), source, workspace.Now(), start, workspace.transfer.disk.faulted,
                        tracker.writes, note')
    ensures tasks.started == old(tasks.started) && |tasks.inFlight| == old(|tasks.inFlight|) - 1
    ensures tasks.failed == note'.firstError.Some? && (old(tasks.failed) ==> tasks.failed)
  {
    var k: nat :| k < |tasks.inFlight|;
    InFlightStarted(tasks.Books());
    var outcome := RunTask(workspace, tracker, tasks.transfer, tasks.inFlight[k], tasks.limit, source, tasks.failed,
                           tasks.Books(), k, note, start);
    tasks.Collect(k, outcome);
    note' := Noting(note, outcome, outcome.TaskFailed? && outcome.targetChanged);
  }

  /** Start tasks until the limit is reached or the plan is exhausted. */
  method SpawnFirst(tasks: JoinSet, ghost source: Replica, ghost start: Side, ghost faulted: bool)
    requires tasks.Valid() && tasks.inFlight == [] && tasks.started == 0 && !tasks.failed && tasks.log == []
    modifies tasks
    ensures Underway(tasks.Books(), source, start, start, faulted) && Waiting(tasks.Books()) && !tasks.failed
    ensures Recorded(tasks.Books(), [])
    ensures !Touched(tasks.log) && NotedError(tasks.log, None)
  {
    CourseBegins(tasks.transfer, source, start);
    NothingRecorded(tasks.Books());
    while |tasks.inFlight| < tasks.limit && tasks.started < |tasks.transfer|
      invariant !tasks.failed && Underway(tasks.Books(), source, start, start, faulted)
      invariant Recorded(tasks.Books(), [])
      invariant !Touched(tasks.log) && NotedError(tasks.log, None)
    {
      UnderwayStart(tasks.Books(), source, start, start, faulted);
      RecordedStart(tasks.Books(), []);
      NotedStart(tasks.log, tasks.started, None);
      tasks.SpawnNext();
    }
  }

  /** Start the next entry while nothing has failed and there is one. */
  method Refill(tasks: JoinSet, note: Note, ghost source: Replica, ghost now: Side, ghost start: Side,
                ghost faulted: bool, ghost writes: seq<Entry>)
    requires Downloading(tasks.Books(), source, now, start, faulted, writes, note) && |tasks.inFlight| < tasks.limit
    modifies tasks
    ensures Downloading(tasks.Books(), source, now, start, faulted, writes, note)
    ensures if note.firstError.Some? || old(tasks.started) == |tasks.transfer|
            then tasks.started == old(tasks.started) && tasks.inFlight == old(tasks.inFlight)
            else tasks.started == old(tasks.started) + 1 && |tasks.inFlight| == old(|tasks.inFlight|) + 1
    ensures tasks.failed == note.firstError.Some? && tasks.started <= |tasks.transfer|
  {
    if note.firstError.None? && tasks.started < |tasks.transfer| {
      DownloadingStart(tasks.Books(), source, now, start, faulted, writes, note);
      tasks.SpawnNext();
    }
  }

  /** One turn of the loop: collect a task, then start the next entry if nothing has failed. */
  method Turn(workspace: Workspace, tracker: Tracker, tasks: JoinSet, source: Replica, note: Note, ghost start: Side)
    returns (note': Note)
    requires |tasks.inFlight| > 0 && Serves(source, tasks.transfer) && AllValid(tasks.transfer)
    requires workspace.transfer.Fresh() && Waiting(tasks.Books())
    requires Downloading(tasks.Books(), source, workspace.Now(), start, workspace.transfer.disk.faulted,
                         tracker.writes, note)
    modifies workspace`files, workspace`dirs, tracker`writes, tasks
    modifies workspace.transfer.disk`staging, workspace.transfer.disk`trace, workspace.transfer.disk`faulted
    ensures workspace.transfer.Fresh()
    ensures NoFalseFault(old(workspace.transfer.disk.faulted), workspace.transfer.disk.faulted,
                         workspace.transfer.disk.reliable)
    ensures Downloading(tasks.Books(), source, workspace.Now(), start, workspace.transfer.disk.faulted,
                        tracker.writes, note')
    ensures Waiting(tasks.Books()) && tasks.Left() < old(tasks.Left())
  {
    InFlightStarted(tasks.Books());
    note' := JoinNext(workspace, tracker, tasks, source, note, start);
    ghost var now := workspace.Now();
    Refill(tasks, note', source, now, start, workspace.transfer.disk.faulted, tracker.writes);
    assert workspace.Now() == now;
  }

  /** The loop: turn after turn until nothing is in flight. */
  method Drain(workspace: Workspace, tracker: Tracker, tasks: JoinSet, source: Replica, ghost start: Side)
    returns (note: Note)
    requires Serves(source, tasks.transfer) && AllValid(tasks.transfer)
    requires workspace.transfer.Fresh() && Waiting(tasks.Books())
    requires Downloading(tasks.Books(), source, workspace.Now(), start, workspace.transfer.disk.faulted,
                         tracker.writes, Note(None, false))
    modifies workspace`files, workspace`dirs, tracker`writes, tasks
    modifies workspace.transfer.disk`staging, workspace.transfer.disk`trace, workspace.transfer.disk`faulted
    ensures workspace.transfer.Fresh()
    ensures NoFalseFault(old(workspace.transfer.disk.faulted), workspace.transfer.disk.faulted,
                         workspace.transfer.disk.reliable)
    ensures Downloading(tasks.Books(), source, workspace.Now(), start, workspace.transfer.disk.faulted,
                        tracker.writes, note)
    ensures Waiting(tasks.Books()) && tasks.inFlight == []
  {
    note := Note(None, false);
    while |tasks.inFlight| > 0
      invariant workspace.transfer.Fresh() && Waiting(tasks.Books())
      invariant NoFalseFault(old(workspace.transfer.disk.faulted), workspace.transfer.disk.faulted,
                             workspace.transfer.disk.reliable)
      invariant Downloading(tasks.Books(), source, workspace.Now(), start, workspace.transfer.disk.faulted,
                            tracker.writes, note)
      decreases tasks.Left()
    {
      note := Turn(workspace, tracker, tasks, source, note, start);
    }
  }

  /** The whole transfer: start tasks until the limit is reached, then turn after turn. */
  method RunAll(workspace: Workspace, tracker: Tracker, tasks: JoinSet, source: Replica) returns (note: Note)
    requires Serves(source, tasks.transfer) && AllValid(tasks.transfer) && workspace.transfer.Fresh()
    requires tasks.Valid() && tasks.inFlight == [] && tasks.started == 0 && !tasks.failed && tasks.log == []
    requires tracker.writes == []
    modifies workspace`files, workspace`dirs, tracker`writes, tasks
    modifies workspace.transfer.disk`staging, workspace.transfer.disk`trace, workspace.transfer.disk`faulted
    ensures workspace.transfer.Fresh()
    ensures NoFalseFault(old(workspace.transfer.disk.faulted), workspace.transfer.disk.faulted,
                         workspace.transfer.disk.reliable)
    ensures Downloading(tasks.Books(), source, workspace.Now(), old(workspace.Now()), workspace.transfer.disk.faulted,
                        tracker.writes, note)
    ensures Waiting(tasks.Books()) && tasks.inFlight == []
  {
    ghost var start := workspace.Now();
    SpawnFirst(tasks, source, start, workspace.transfer.disk.faulted);
    DownloadingBegins(tasks.Books(), source, start, workspace.transfer.disk.faulted);
    assert workspace.Now() == start;
    note := Drain(workspace, tracker, tasks, source, start);
  }

  /** What the loop ends with: the first error, and what has changed locally so far. */
  method Conclude(workspace: Workspace, tracker: Tracker, note: Note, ghost files0: Replica, ghost crashed: bool)
    returns (r: DownloadResult)
    requires tracker.deletes == [] && Reported(workspace.files, files0, note.changed, tracker.writes, [], crashed)
    ensures r == match note.firstError
                 case None => Downloaded
                 case Some(error) =>
                   DownloadFailed(error, SummaryOf(tracker.writes, [], workspace.transfer.applied), note.changed)
    ensures r.DownloadFailed? ==>
      workspace.files == files0 || r.localTargetChanged || r.localApplied.Changed() || crashed
  {
    if note.firstError.None? {
      return Downloaded;
    }
    var summary := tracker.Summary(workspace.transfer);
    SummaryShows(tracker.writes, tracker.deletes, workspace.transfer.applied);
    return DownloadFailed(note.firstError.value, summary, note.changed);
  }

  /**
   `download_files`: whatever order tasks finish in, the log is a schedule that ends with nothing
   in flight; success means every entry arrived, each was recorded once and the counters reached the
   totals; without faults it fails only if a planned path is blocked or tasks share a temporary file;
   a failure is the first failed task's, leaves each file old or as planned but perhaps for its time,
   save where tasks share a temporary file, and reports any visible change unless a task crashed.
   */
  method DownloadFiles(workspace: Workspace, tracker: Tracker, transfer: seq<Entry>, source: Replica,
                       fileConcurrency: nat)
    returns (r: DownloadResult, filesDone: nat, bytesDone: nat, ghost log: seq<Event>)
    requires fileConcurrency > 0 && Serves(source, transfer) && AllValid(transfer)
    requires workspace.transfer.Fresh() && tracker.writes == [] && tracker.deletes == []
    modifies workspace`files, workspace`dirs, tracker`writes
    modifies workspace.transfer.disk`staging, workspace.transfer.disk`trace, workspace.transfer.disk`faulted
    ensures workspace.transfer.Fresh()
    ensures NoFalseFault(old(workspace.transfer.disk.faulted), workspace.transfer.disk.faulted,
                         workspace.transfer.disk.reliable)
    ensures IsSchedule(log, |transfer|, fileConcurrency) && Open(log) == {}
    ensures r.Downloaded? <==> !Failed(log)
    ensures r.Downloaded? ==> Started(log) == |transfer| && filesDone == |transfer| && bytesDone == SumSizes(transfer)
    ensures r.Downloaded? ==> Landed(PathSet(transfer), source, workspace.Now(), old(workspace.Now()))
    ensures r.Downloaded? ==> Smooth(PathSet(transfer), old(workspace.Now()))
    ensures r.Downloaded? ==> multiset(tracker.writes) == multiset(transfer)
    ensures multiset(tracker.writes) <= multiset(transfer)
    ensures r.DownloadFailed? ==> FirstErrorIs(log, r.error) && r.localTargetChanged == Flagged(log)
    ensures r.DownloadFailed? ==> r.localApplied == SummaryOf(tracker.writes, [], workspace.transfer.applied)
    ensures r.DownloadFailed? ==>
      || workspace.transfer.disk.faulted || !Smooth(PathSet(transfer), old(workspace.Now()))
      || Crowded(transfer, fileConcurrency)
    ensures Left(workspace.files, old(workspace.files), source, transfer, fileConcurrency)
    ensures r.Downloaded? ==> Reported(workspace.files, old(workspace.files), false, tracker.writes, [], false)
    ensures r.DownloadFailed? ==>
      workspace.files == old(workspace.files) || r.localTargetChanged || r.localApplied.Changed() || Crashed(log)
  {
    ghost var start := workspace.Now();
    var tasks := new JoinSet(transfer, fileConcurrency);
    var note := RunAll(workspace, tracker, tasks, source);
    DownloadingEnds(tasks.Books(), source, workspace.Now(), start, workspace.transfer.disk.faulted, tracker.writes,
                    note);
    log, filesDone, bytesDone := tasks.log, tasks.filesDone, tasks.bytesDone;
    r := Conclude(workspace, tracker, note, start.files, Crashed(tasks.log));
  }

  // ---------------------------------------------------------------- what stands in the way

  /**
   Exactly what blocks a path: a file above it, or, for a plain file, a directory in its place or in that of
   its temporary file; a database file is staged beside the namespaces, so only what stands above these counts.
   */
  lemma BlockedExactly(s: Side, p: Path)
    ensures Namespace(p).None? ==>
      (Blocked(s, p) <==> p in s.dirs || TemporaryOf(p) in s.dirs || exists x :: x in s.files && x < p)
    ensures Namespace(p).Some? ==> (Blocked(s, p) <==> exists x :: x in s.files && x <= DATABASE_ROOT)
  {
    if Namespace(p).Some? {
      NamespacePathShape(p);
      forall x: Path
        ensures Needs(p, x) <==> x <= DATABASE_ROOT
      {
        if x <= DATABASE_ROOT { assert DATABASE_ROOT[..|x|] == p[..|x|]; }
        if x < p && |x| <= 2 { assert x == p[..|x|] == DATABASE_ROOT[..|x|]; }
      }
      if x :| x in s.files && x <= DATABASE_ROOT { assert Needs(p, x); }
      if x :| x in s.files && Needs(p, x) { assert x <= DATABASE_ROOT; }
    } else {
      if x :| x in s.files && x < p { assert Needs(p, x); }
    }
  }

  /** A file that arrives makes exactly the directories above it, up to the database root for a database file. */
  lemma DirectoriesMade(p: Path, x: Path)
    ensures x in DirsFor(p) <==> if Namespace(p).Some? then x <= DATABASE_ROOT else x < p
  {
    DirsForMeaning(p, x);
    if Namespace(p).Some? {
      NamespacePathShape(p);
      if x <= DATABASE_ROOT { assert DATABASE_ROOT[..|x|] == p[..|x|]; }
      if x < p && |x| <= 2 { assert x == p[..|x|] == DATABASE_ROOT[..|x|]; }
    }
  }
}
