/**
 Publishing database namespaces: staged directories are renamed into place one namespace at a
 time, the old directory being kept aside until the new one is in.
 */
module Publish {
  import opened Wrappers
  import opened Seqs
  import opened Paths
  import opened Order
  import opened Manifest
  import opened Sync

  /** A directory of files, by file name. */
  type Directory = map<string, File>

  /** The staging area with one more file. */
  function StagedWith(staging: map<string, Directory>, name: string, file: string,
                      content: File): map<string, Directory> {
    staging[name := (if name in staging then staging[name] else map[])[file := content]]
  }

  function StagedFile(staging: map<string, Directory>, name: string, file: string): Option<File> {
    if name in staging && file in staging[name] then Some(staging[name][file]) else None
  }

  datatype Snapshot = Snapshot(root: map<string, Directory>, staging: map<string, Directory>)

  /** The files to publish for one namespace; no entries means the namespace goes away. */
  datatype Group = Group(name: string, entries: seq<Entry>)

  function OldName(name: string): string { "old-" + name }

  function At(m: map<string, Directory>, name: string): Option<Directory> {
    if name in m then Some(m[name]) else None
  }

  // ---------------------------------------------------------------- the disk, one call at a time

  /**
   The database root and one staging directory. Every call may fail; renames are all-or-nothing
   and only replace a missing or empty directory. `trace` records the disk after every call that
   changed it, so that a crash at any point leaves one of the recorded snapshots; `refused` lists the
   staged directories whose rename into place failed of its own accord; `faulted` records
   that some call failed of its own accord, or something else a sync relies on did: a request, an
   answer or a task. Nothing of that kind happens where all that is `reliable`.
   */
  class Disk {
    const reliable: bool
    var root: map<string, Directory>
    var staging: map<string, Directory>
    ghost var trace: seq<Snapshot>
    ghost var misread: set<string>
    ghost var refused: seq<string>
    ghost var faulted: bool

    constructor (root: map<string, Directory>, reliable: bool)
      ensures this.root == root && staging == map[] && trace == [] && misread == {} && refused == [] && !faulted
      ensures this.reliable == reliable
    {
      this.root, this.staging, this.reliable := root, map[], reliable;
      this.trace, this.misread, this.refused, this.faulted := [], {}, [], false;
    }

    ghost function Now(): Snapshot
      reads this
    {
      Snapshot(root, staging)
    }

    /** Whether a call fails of its own accord. */
    method Fails() returns (fault: bool)
      modifies this`faulted
      ensures faulted == (old(faulted) || fault) && (fault ==> !reliable)
    {
      fault := FaultUnless(reliable);
      faulted := faulted || fault;
    }

    /** Something a sync relies on other than the disk has failed. */
    ghost method Blame(fault: bool)
      requires fault ==> !reliable
      modifies this`faulted
      ensures faulted == (old(faulted) || fault)
    {
      faulted := faulted || fault;
    }

    /** `metadata(staging/NAME/FILE).len()`. */
    method FileSize(name: string, file: string) returns (r: Result<u64>)
      modifies this`faulted
      ensures NoFalseFault(old(faulted), faulted, reliable)
      ensures r.Err? ==> r.error == Io && (faulted || name !in staging || file !in staging[name])
      ensures r.Ok? ==> name in staging && file in staging[name] && r.value == staging[name][file].size
    {
      var fault := Fails();
      if fault || name !in staging || file !in staging[name] {
        return Err(Io);
      }
      return Ok(staging[name][file].size);
    }

    /** `target.exists()`, which also answers no when the lookup fails. */
    method TargetExists(name: string) returns (existed: bool)
      modifies this`misread, this`faulted
      ensures NoFalseFault(old(faulted), faulted, reliable)
      ensures !faulted ==> existed == (name in root)
      ensures existed ==> name in root
      ensures !existed && name in root ==> name in misread
      ensures misread == if !existed && name in root then old(misread) + {name} else old(misread)
      ensures misread != old(misread) ==> faulted
    {
      var fault := Fails();
      existed := name in root && !fault;
      if name in root && fault {
        misread := misread + {name};
      }
    }

    /** `create_dir_all(staging)`. */
    method CreateStaging() returns (created: bool)
      modifies this`faulted
      ensures NoFalseFault(old(faulted), faulted, reliable) && (!created ==> faulted)
    {
      var fault := Fails();
      created := !fault;
    }

    /** `rename(root/NAME, staging/old-NAME)`. */
    method MoveAside(name: string) returns (moved: bool)
      modifies this`root, this`staging, this`trace, this`faulted
      ensures NoFalseFault(old(faulted), faulted, reliable)
      ensures !moved && !faulted ==> name !in root || At(staging, OldName(name)) !in {None, Some(map[])}
      ensures moved ==>
        name in old(root) && root == old(root) - {name} && staging == old(staging)[OldName(name) := old(root)[name]]
      ensures moved ==> trace == old(trace) + [Now()]
      ensures !moved ==> root == old(root) && staging == old(staging) && trace == old(trace)
    {
      var fault := Fails();
      moved := !fault && name in root && At(staging, OldName(name)) in {None, Some(map[])};
      if moved {
        staging := staging[OldName(name) := root[name]];
        root := root - {name};
        trace := trace + [Now()];
      }
    }

    /** `rename(staging/FROM, root/NAME)`. */
    method MoveIn(from: string, name: string) returns (moved: bool)
      modifies this`root, this`staging, this`trace, this`refused, this`faulted
      ensures NoFalseFault(old(faulted), faulted, reliable)
      ensures refused == old(refused) || (!moved && faulted && refused == old(refused) + [from])
      ensures !moved && from in old(staging) && At(old(root), name) in {None, Some(map[])} ==>
        refused == old(refused) + [from]
      ensures !moved && !faulted ==> from !in staging || At(root, name) !in {None, Some(map[])}
      ensures moved ==>
        && from in old(staging) && At(old(root), name) in {None, Some(map[])}
        && root == old(root)[name := old(staging)[from]] && staging == old(staging) - {from}
      ensures moved ==> trace == old(trace) + [Now()]
      ensures !moved ==> root == old(root) && staging == old(staging) && trace == old(trace)
    {
      var fault := Fails();
      refused := refused + if fault then [from] else [];
      moved := !fault && from in staging && At(root, name) in {None, Some(map[])};
      if moved {
        root := root[name := staging[from]];
        staging := staging - {from};
        trace := trace + [Now()];
      }
    }

    /** One staged file, written to a temporary name and renamed; earlier content of that name is replaced. */
    method WriteStaged(name: string, file: string, content: File) returns (r: Result<()>)
      modifies this`staging, this`trace, this`faulted
      ensures NoFalseFault(old(faulted), faulted, reliable)
      ensures r.Ok? ==> staging == StagedWith(old(staging), name, file, content)
      ensures r.Err? ==> r.error == Io && staging == old(staging) && faulted
    {
      var fault := Fails();
      if fault {
        return Err(Io);
      }
      staging := StagedWith(staging, name, file, content);
      trace := trace + [Now()];
      return Ok(());
    }

    /** The bytes of a failed write end up in staged files it was not meant for. */
    method Spoil(rivals: set<Path>, mixed: map<Path, File>)
      modifies this`staging, this`trace
      ensures staging.Keys == old(staging).Keys
      ensures forall name, file :: name in staging && DATABASE_ROOT + [name, file] !in rivals ==>
        StagedFile(staging, name, file) == StagedFile(old(staging), name, file)
    {
      staging := map name | name in staging ::
        map file | file in staging[name] ::
          var p := DATABASE_ROOT + [name, file];
          if p in rivals && p in mixed then mixed[p] else staging[name][file];
      trace := trace + [Now()];
    }

    /** `remove_dir_all(staging)`; a failure may leave any part behind. */
    method RemoveStaging()
      modifies this`staging, this`trace, this`faulted
      ensures NoFalseFault(old(faulted), faulted, reliable)
      ensures !faulted ==> staging == map[]
      ensures forall name :: name in staging ==> name in old(staging) && staging[name] == old(staging)[name]
    {
      var fault := Fails();
      var left: set<string> := *;
      staging := map name | fault && name in staging && name in left :: staging[name];
      trace := trace + [Now()];
    }
  }

  // ---------------------------------------------------------------- what publishing promises

  /** The staged directory holds every planned file at its planned size. */
  ghost predicate Complete(d: Directory, entries: seq<Entry>) {
    forall i :: 0 <= i < |entries| ==> HasStaged(d, entries[i])
  }

  ghost predicate HasStaged(d: Directory, e: Entry) {
    |e.path| == 4 ==> e.path[3] in d && d[e.path[3]].size == e.size
  }

  /**
   The new state of a namespace is in place: the complete staged directory, or nothing for a group
   without entries.
   */
  ghost predicate PublishedAt(root: map<string, Directory>, g: Group, staged: Option<Directory>) {
    if g.entries == [] then g.name !in root
    else staged.Some? && At(root, g.name) == staged && Complete(staged.value, g.entries)
  }

  /** Nothing is missing to publish the group: there is nothing to publish, or all of it is staged. */
  ghost predicate Ready(g: Group, staged: Option<Directory>) {
    g.entries == [] || (staged.Some? && Complete(staged.value, g.entries))
  }

  /** The old directory is kept aside. */
  ghost predicate Aside(s: Snapshot, name: string, was: Option<Directory>) {
    was.Some? && At(s.staging, OldName(name)) == was
  }

  /**
   A namespace is whole in a snapshot: its old directory is in place; or moved aside complete,
   with nothing in place; or the complete staged one is in place, the old one being aside unless
   there was none to keep.
   */
  ghost predicate Whole(s: Snapshot, g: Group, was: Option<Directory>, staged: Option<Directory>) {
    || At(s.root, g.name) == was
    || (g.name !in s.root && Aside(s, g.name, was))
    || (g.entries != [] && PublishedAt(s.root, g, staged) && (Aside(s, g.name, was) || was in {None, Some(map[])}))
  }

  /** Snapshots may differ only at one namespace. */
  ghost predicate SameElsewhere(a: Snapshot, b: Snapshot, name: string) {
    && (forall n :: n != name ==> At(a.root, n) == At(b.root, n))
    && (forall n :: n != name && n != OldName(name) ==> At(a.staging, n) == At(b.staging, n))
  }

  /** There was nothing to publish, and `exists` missed the directory that was to go. */
  ghost predicate Missed(misread: set<string>, g: Group) { g.entries == [] && g.name in misread }

  ghost predicate PublishedUnlessMissed(root: map<string, Directory>, g: Group, staged: Option<Directory>,
                                        misread: set<string>) {
    PublishedAt(root, g, staged) <==> !Missed(misread, g)
  }

  /** A group went through: it is published, unless its directory was missed and is still there. */
  ghost predicate Done(s: Snapshot, misread: set<string>, g: Group, start: Snapshot) {
    var was := At(start.root, g.name);
    && (if Missed(misread, g) then was.Some? && At(s.root, g.name) == was
        else PublishedAt(s.root, g, At(start.staging, g.name)))
    && (At(s.root, g.name) == was || Aside(s, g.name, was) || was in {None, Some(map[])})
  }

  /** A group that went through is published exactly if its directory was not missed. */
  lemma DoneMeaning(s: Snapshot, misread: set<string>, g: Group, start: Snapshot)
    requires Done(s, misread, g, start)
    ensures PublishedAt(s.root, g, At(start.staging, g.name)) <==> !Missed(misread, g)
  {
  }

  /** One failed lookup, and a namespace that should go away stays although its group went through. */
  lemma MissedDirectoryStays(name: string, was: Directory)
    ensures var start := Snapshot(map[name := was], map[]);
      var g := Group(name, []);
      Done(start, {name}, g, start) && !PublishedAt(start.root, g, None)
  {
  }

  /**
   The renames of `name` that were refused: none where its round succeeds; where the restore is
   flagged as failed, the publishing rename and after it the restoring one; at most the publishing one
   otherwise.
   */
  ghost predicate RestoreTried(before: seq<string>, refused: seq<string>, name: string, published: bool,
                               rollbackFailed: bool) {
    if published then refused == before
    else if rollbackFailed then refused == before + [name] + [OldName(name)]
    else refused == before || refused == before + [name]
  }

  // ---------------------------------------------------------------- groups of a plan

  type Groups = map<string, seq<Entry>>

  /** The entries of a plan that belong to one namespace, in plan order. */
  function EntriesOf(transfer: seq<Entry>, d: string): seq<Entry> {
    if transfer == [] then []
    else
      var last := transfer[|transfer| - 1];
      EntriesOf(transfer[..|transfer| - 1], d) + (if Namespace(last.path) == Some(d) then [last] else [])
  }

  /** One group for every namespace touched, each with its planned entries. */
  ghost predicate GroupsOf(groups: Groups, transfer: seq<Entry>, delete: seq<Path>) {
    && (forall d :: d in groups <==> Touches(transfer, delete, d))
    && (forall d :: d in groups ==> groups[d] == EntriesOf(transfer, d))
  }

  lemma TouchesMore(transfer: seq<Entry>, delete: seq<Path>, e: Entry, p: Path, d: string)
    ensures Touches(transfer + [e], delete, d) <==> Touches(transfer, delete, d) || Namespace(e.path) == Some(d)
    ensures Touches(transfer, delete + [p], d) <==> Touches(transfer, delete, d) || Namespace(p) == Some(d)
  {
    var t, l := transfer + [e], delete + [p];
    assert forall i :: 0 <= i < |transfer| ==> t[i] == transfer[i];
    assert t[|transfer|] == e;
    assert forall i :: 0 <= i < |delete| ==> l[i] == delete[i];
    assert l[|delete|] == p;
  }

  lemma {:induction false} UntouchedHasNoEntries(transfer: seq<Entry>, delete: seq<Path>, d: string)
    requires !Touches(transfer, delete, d)
    ensures EntriesOf(transfer, d) == []
  {
    if transfer != [] {
      UntouchedHasNoEntries(transfer[..|transfer| - 1], delete, d);
    }
  }

  lemma {:induction false} EntriesOfMembers(transfer: seq<Entry>, d: string)
    ensures forall e :: e in EntriesOf(transfer, d) <==> e in transfer && Namespace(e.path) == Some(d)
  {
    if transfer != [] {
      var n := |transfer| - 1;
      EntriesOfMembers(transfer[..n], d);
      assert transfer == transfer[..n] + [transfer[n]];
    }
  }

  lemma EntriesAppend(transfer: seq<Entry>, e: Entry, d: string)
    ensures EntriesOf(transfer + [e], d) == EntriesOf(transfer, d) + if Namespace(e.path) == Some(d) then [e] else []
  {
    assert (transfer + [e])[..|transfer|] == transfer;
  }

  /** The groups with one more planned entry. */
  function WithEntry(groups: Groups, e: Entry): Groups {
    match Namespace(e.path)
    case None => groups
    case Some(d) => groups[d := (if d in groups then groups[d] else []) + [e]]
  }

  /** The groups once a delete is noted: a namespace that only loses files gets a group without entries. */
  function WithDelete(groups: Groups, p: Path): Groups {
    match Namespace(p)
    case None => groups
    case Some(d) => if d in groups then groups else groups[d := []]
  }

  /** One namespace's part of `GroupsOf`. */
  ghost predicate GroupAt(groups: Groups, transfer: seq<Entry>, delete: seq<Path>, d: string) {
    (d in groups <==> Touches(transfer, delete, d)) && (d in groups ==> groups[d] == EntriesOf(transfer, d))
  }

  lemma GroupTransferAt(groups: Groups, transfer: seq<Entry>, e: Entry, d: string)
    requires GroupAt(groups, transfer, [], d)
    ensures GroupAt(WithEntry(groups, e), transfer + [e], [], d)
  {
    TouchesMore(transfer, [], e, e.path, d);
    EntriesAppend(transfer, e, d);
    if d !in groups { UntouchedHasNoEntries(transfer, [], d); }
  }

  lemma GroupDeleteAt(groups: Groups, transfer: seq<Entry>, delete: seq<Path>, p: Path, d: string)
    requires GroupAt(groups, transfer, delete, d)
    ensures GroupAt(WithDelete(groups, p), transfer, delete + [p], d)
  {
    TouchesMore(transfer, delete, Entry(p, 0, 0), p, d);
    if d !in groups { UntouchedHasNoEntries(transfer, delete, d); }
  }

  ghost predicate NamespaceNames(groups: Groups) { forall n :: n in groups ==> IsNamespaceName(n) }

  lemma GroupTransfer(groups: Groups, transfer: seq<Entry>, e: Entry)
    requires GroupsOf(groups, transfer, []) && NamespaceNames(groups)
    ensures GroupsOf(WithEntry(groups, e), transfer + [e], []) && NamespaceNames(WithEntry(groups, e))
  {
    var more := WithEntry(groups, e);
    forall d
      ensures d in more <==> Touches(transfer + [e], [], d)
      ensures d in more ==> more[d] == EntriesOf(transfer + [e], d)
    {
      GroupTransferAt(groups, transfer, e, d);
    }
  }

  lemma GroupDelete(groups: Groups, transfer: seq<Entry>, delete: seq<Path>, p: Path)
    requires GroupsOf(groups, transfer, delete) && NamespaceNames(groups)
    ensures GroupsOf(WithDelete(groups, p), transfer, delete + [p]) && NamespaceNames(WithDelete(groups, p))
  {
    var more := WithDelete(groups, p);
    forall d
      ensures d in more <==> Touches(transfer, delete + [p], d)
      ensures d in more ==> more[d] == EntriesOf(transfer, d)
    {
      GroupDeleteAt(groups, transfer, delete, p, d);
    }
  }

  ghost predicate Ascending(keys: seq<string>) {
    forall i, j :: 0 <= i < j < |keys| ==> TextLess(keys[i], keys[j])
  }

  method LeastKey(s: set<string>) returns (least: string)
    requires s != {}
    ensures least in s && forall k :: k in s ==> TextLeq(least, k)
  {
    least :| least in s;
    TextLeqTotal(least, least);
    var rest := s - {least};
    while rest != {}
      invariant least in s && rest <= s
      invariant forall k :: k in s - rest ==> TextLeq(least, k)
      decreases |rest|
    {
      var k :| k in rest;
      rest := rest - {k};
      TextLeqTotal(least, k);
      TextLeqTotal(k, k);
      if !TextLeq(least, k) {
        forall other | other in s - rest
          ensures TextLeq(k, other)
        {
          if other != k { TextLeqTransitive(k, least, other); }
        }
        least := k;
      }
    }
  }

  /** The iteration order of a `BTreeMap`. */
  method SortedKeys(s: set<string>) returns (keys: seq<string>)
    ensures Ascending(keys)
    ensures forall k :: k in keys <==> k in s
  {
    keys := [];
    var rest := s;
    while rest != {}
      invariant rest <= s && Ascending(keys)
      invariant forall k :: k in keys <==> k in s - rest
      invariant forall i, k :: 0 <= i < |keys| && k in rest ==> TextLess(keys[i], k)
      decreases |rest|
    {
      var k := LeastKey(rest);
      rest := rest - {k};
      keys := keys + [k];
    }
  }

  // ---------------------------------------------------------------- the transfer

  /** `DatabaseTransfer`: groups planned, groups applied, and whether a rollback failed. */
  class DatabaseTransfer {
    const disk: Disk
    var groups: Groups
    var applied: set<string>
    var rollbackFailed: bool

    constructor (disk: Disk)
      ensures this.disk == disk && groups == map[] && applied == {} && !rollbackFailed
    {
      this.disk, groups, applied, rollbackFailed := disk, map[], {}, false;
    }

    /** Before the commit: only namespace names are staged or planned, and nothing is applied. */
    ghost predicate Fresh()
      reads this, disk
    {
      && (forall n :: n in disk.staging ==> IsNamespaceName(n))
      && (forall n :: n in groups ==> IsNamespaceName(n))
      && applied == {} && !rollbackFailed && disk.misread == {}
    }

    /** Only faults make a lookup miss a directory or a restore fail. */
    ghost predicate SlipsAreFaults()
      reads this, disk
    {
      disk.misread != {} || rollbackFailed ==> disk.faulted
    }

    /** `set_plan`, once per transfer: group the transfers, and note namespaces that only lose files. */
    method SetPlan(plan: Plan)
      requires Fresh() && groups == map[]
      modifies this`groups
      ensures Fresh() && GroupsOf(groups, plan.transfer, plan.delete)
    {
      for i := 0 to |plan.transfer|
        invariant Fresh() && GroupsOf(groups, plan.transfer[..i], [])
      {
        var entry := plan.transfer[i];
        assert plan.transfer[..i + 1] == plan.transfer[..i] + [entry];
        GroupTransfer(groups, plan.transfer[..i], entry);
        if Namespace(entry.path).Some? {
          var directory := Namespace(entry.path).value;
          groups := groups[directory := (if directory in groups then groups[directory] else []) + [entry]];
        }
      }
      assert plan.transfer[..|plan.transfer|] == plan.transfer;
      AddDeletes(plan);
    }

    /** The delete half of `set_plan`. */
    method AddDeletes(plan: Plan)
      requires Fresh() && GroupsOf(groups, plan.transfer, [])
      modifies this`groups
      ensures Fresh() && GroupsOf(groups, plan.transfer, plan.delete)
    {
      for i := 0 to |plan.delete|
        invariant Fresh() && GroupsOf(groups, plan.transfer, plan.delete[..i])
      {
        var path := plan.delete[i];
        assert plan.delete[..i + 1] == plan.delete[..i] + [path];
        GroupDelete(groups, plan.transfer, plan.delete[..i], path);
        ghost var next := WithDelete(groups, path);
        if Namespace(path).Some? && Namespace(path).value !in groups {
          groups := groups[Namespace(path).value := []];
        }
        assert groups == next;
      }
      assert plan.delete[..|plan.delete|] == plan.delete;
    }

    /** `write_file`: into the staging directory, never into the namespace itself. */
    method WriteFile(path: Path, content: File) returns (r: Result<()>)
      requires Fresh() && Namespace(path).Some?
      modifies disk`staging, disk`trace, disk`faulted
      ensures Fresh() && NoFalseFault(old(disk.faulted), disk.faulted, disk.reliable)
      ensures r.Err? ==> r.error == Io && disk.staging == old(disk.staging) && disk.faulted
      ensures r.Ok? ==> disk.staging == StagedWith(old(disk.staging), Namespace(path).value, path[3], content)
    {
      r := disk.WriteStaged(path[2], path[3], content);
    }

    /** A failed write that shared its temporary file leaves its bytes in files staged before. */
    method Spoil(rivals: set<Path>, mixed: map<Path, File>)
      requires Fresh()
      modifies disk`staging, disk`trace
      ensures Fresh() && disk.staging.Keys == old(disk.staging).Keys
      ensures forall name, file :: name in disk.staging && DATABASE_ROOT + [name, file] !in rivals ==>
        StagedFile(disk.staging, name, file) == StagedFile(old(disk.staging), name, file)
    {
      disk.Spoil(rivals, mixed);
    }

    predicate IsApplied(path: Path)
      reads this
    {
      Namespace(path).None? || Namespace(path).value in applied
    }

    predicate Changed()
      reads this
    {
      rollbackFailed || applied != {}
    }

    /** The size checks of `commit`: every planned file of the group is staged at its planned size. */
    method CheckStaged(g: Group) returns (r: Result<()>)
      requires forall i :: 0 <= i < |g.entries| ==> Namespace(g.entries[i].path) == Some(g.name)
      modifies disk`faulted
      ensures NoFalseFault(old(disk.faulted), disk.faulted, disk.reliable)
      ensures r.Ok? ==> Ready(g, At(disk.staging, g.name))
      ensures r.Err? && !disk.faulted ==> !Ready(g, At(disk.staging, g.name))
    {
      for i := 0 to |g.entries|
        invariant NoFalseFault(old(disk.faulted), disk.faulted, disk.reliable)
        invariant i > 0 ==> g.name in disk.staging
        invariant forall k :: 0 <= k < i ==> HasStaged(disk.staging[g.name], g.entries[k])
      {
        var size :- disk.FileSize(g.name, g.entries[i].path[3]);
        assert !HasStaged(disk.staging[g.name], g.entries[i]) <==> size != g.entries[i].size;
        if size != g.entries[i].size {
          return Err(InvalidData);
        }
      }
      return Ok(());
    }

    /**
     The staged directory is renamed into place; when that fails, an old one is put back. Only a
     restore that was tried and failed as well is flagged.
     */
    method PutInPlace(g: Group, existed: bool, ghost start: Snapshot) returns (r: Result<()>)
      requires IsNamespaceName(g.name) && g.entries != [] && Ready(g, At(start.staging, g.name))
      requires OldName(g.name) !in start.staging && !rollbackFailed
      requires if existed then MovedAside(start, disk.Now(), g.name) else disk.Now() == start
      modifies disk`root, disk`staging, disk`trace, disk`refused, disk`faulted, this`rollbackFailed
      ensures old(disk.trace) <= disk.trace && NoFalseFault(old(disk.faulted), disk.faulted, disk.reliable)
      ensures RestoreTried(old(disk.refused), disk.refused, g.name, r.Ok?, rollbackFailed)
      ensures rollbackFailed ==> disk.faulted
      ensures AllGood(disk.trace, |old(disk.trace)|, start, g) && Good(disk.Now(), start, g)
      ensures r.Ok? ==> !rollbackFailed && Done(disk.Now(), disk.misread, g, start)
      ensures r.Err? && !disk.faulted ==> !existed && g.name in start.root
      ensures r.Err? && !rollbackFailed ==> disk.root == start.root
      ensures r.Err? && rollbackFailed ==> g.name !in disk.root && Aside(disk.Now(), g.name, At(start.root, g.name))
    {
      StagedNamesNeverCollide(g.name, g.name);
      ghost var before := disk.Now();
      if existed { AfterAside(start, before, g); }
      var moved := disk.MoveIn(g.name, g.name);
      if moved {
        AfterMoveIn(start, before, disk.Now(), g, existed);
        return Ok(());
      }
      if existed {
        var restored := disk.MoveIn(OldName(g.name), g.name);
        if !restored {
          rollbackFailed := true;
          return Err(Io);
        }
        AfterRestore(start, before, disk.Now(), g);
      }
      return Err(Io);
    }

    /**
     One round of `commit`. Whatever fails, and wherever it stops, the namespace is whole in
     every snapshot; no other namespace is touched; and unless a failed restore is flagged the old
     directory is back in place. It is flagged only after both renames failed, the publishing one and
     the restoring one.
     */
    method PublishGroup(g: Group) returns (r: Result<()>)
      requires IsNamespaceName(g.name) && OldName(g.name) !in disk.staging && !rollbackFailed && g.name !in disk.misread
      requires SlipsAreFaults()
      requires forall i :: 0 <= i < |g.entries| ==> Namespace(g.entries[i].path) == Some(g.name)
      modifies disk, this`rollbackFailed
      ensures SameElsewhere(old(disk.Now()), disk.Now(), g.name)
      ensures old(disk.misread) <= disk.misread <= old(disk.misread) + {g.name}
      ensures old(disk.trace) <= disk.trace
      ensures AllGood(disk.trace, |old(disk.trace)|, old(disk.Now()), g)
      ensures Good(disk.Now(), old(disk.Now()), g)
      ensures r.Ok? ==> !rollbackFailed && Done(disk.Now(), disk.misread, g, old(disk.Now()))
      ensures NoFalseFault(old(disk.faulted), disk.faulted, disk.reliable)
      ensures r.Err? && !disk.faulted ==> !Ready(g, old(At(disk.staging, g.name)))
      ensures r.Err? && !rollbackFailed ==> disk.root == old(disk.root)
      ensures r.Err? && rollbackFailed ==> g.name !in disk.root && Aside(disk.Now(), g.name, old(At(disk.root, g.name)))
      ensures RestoreTried(old(disk.refused), disk.refused, g.name, r.Ok?, rollbackFailed) && SlipsAreFaults()
    {
      ghost var start := disk.Now();
      StagedNamesNeverCollide(g.name, g.name);
      var _ :- CheckStaged(g);
      var created := disk.CreateStaging();
      if !created {
        return Err(Io);
      }
      var existed := disk.TargetExists(g.name);
      if existed {
        var moved := disk.MoveAside(g.name);
        if !moved {
          return Err(Io);
        }
        AfterAside(start, disk.Now(), g);
      }
      if g.entries != [] {
        r := PutInPlace(g, existed, start);
        return;
      }
      return Ok(());
    }

    /** Publish the next group, with everything the loop of `commit` keeps. */
    method CommitNext(keys: seq<string>, k: nat, ghost start: Snapshot, ghost from: nat) returns (r: Result<()>)
      requires Ascending(keys) && k < |keys| && !rollbackFailed && SlipsAreFaults()
      requires forall d :: d in groups ==> forall i :: 0 <= i < |groups[d]| ==> Namespace(groups[d][i].path) == Some(d)
      requires Reached(groups, keys, k, Stage(start, disk.Now(), disk.trace, from, disk.misread))
      modifies disk, this`rollbackFailed
      ensures old(disk.trace) <= disk.trace && NoFalseFault(old(disk.faulted), disk.faulted, disk.reliable)
      ensures r.Ok? ==>
        !rollbackFailed && Reached(groups, keys, k + 1, Stage(start, disk.Now(), disk.trace, from, disk.misread))
      ensures r.Err? ==>
        Stopped(groups, keys, k, Stage(start, disk.Now(), disk.trace, from, disk.misread), rollbackFailed)
      ensures r.Err? && !disk.faulted ==> !Ready(Group(keys[k], groups[keys[k]]), At(start.staging, keys[k]))
      ensures RestoreTried(old(disk.refused), disk.refused, keys[k], r.Ok?, rollbackFailed) && SlipsAreFaults()
    {
      var g := Group(keys[k], groups[keys[k]]);
      ghost var before, seen, misread := disk.Now(), disk.trace, disk.misread;
      r := PublishGroup(g);
      RoundTraceWhole(start, before, disk.Now(), disk.trace, from, seen, groups, g.name);
      if r.Err? {
        FailedRound(groups, keys, k, start, before, disk.Now(), misread, disk.misread, rollbackFailed);
      } else {
        DoneRound(groups, keys, k, start, before, disk.Now(), misread, disk.misread);
      }
    }

    /** One turn of the loop of `commit`: a published group counts as applied. */
    method CommitTurn(keys: seq<string>, k: nat, ghost start: Snapshot, ghost from: nat) returns (r: Result<()>)
      requires Ascending(keys) && k < |keys| && !rollbackFailed && applied == Elems(keys[..k]) && SlipsAreFaults()
      requires forall d :: d in groups ==> forall i :: 0 <= i < |groups[d]| ==> Namespace(groups[d][i].path) == Some(d)
      requires Reached(groups, keys, k, Stage(start, disk.Now(), disk.trace, from, disk.misread))
      modifies disk, this`applied, this`rollbackFailed
      ensures old(disk.trace) <= disk.trace && NoFalseFault(old(disk.faulted), disk.faulted, disk.reliable)
      ensures applied == Elems(keys[..if r.Ok? then k + 1 else k])
      ensures r.Ok? ==>
        !rollbackFailed && Reached(groups, keys, k + 1, Stage(start, disk.Now(), disk.trace, from, disk.misread))
      ensures r.Err? ==>
        Stopped(groups, keys, k, Stage(start, disk.Now(), disk.trace, from, disk.misread), rollbackFailed)
      ensures r.Err? && !disk.faulted ==> !Ready(Group(keys[k], groups[keys[k]]), At(start.staging, keys[k]))
      ensures RestoreTried(old(disk.refused), disk.refused, keys[k], r.Ok?, rollbackFailed) && SlipsAreFaults()
    {
      r := CommitNext(keys, k, start, from);
      if r.Ok? {
        ElemsStep(keys, k);
        applied := applied + {keys[k]};
      }
    }

    /** The loop of `commit`: the groups in key order, up to the first failure. */
    method PublishGroups() returns (r: Result<()>, ghost order: seq<string>, ghost k: nat)
      requires Fresh()
      requires forall d :: d in groups ==> forall i :: 0 <= i < |groups[d]| ==> Namespace(groups[d][i].path) == Some(d)
      modifies disk, this`applied, this`rollbackFailed
      ensures Ascending(order) && forall d :: d in order <==> d in groups
      ensures k <= |order| && applied == Elems(order[..k])
      ensures old(disk.trace) <= disk.trace && NoFalseFault(old(disk.faulted), disk.faulted, disk.reliable)
      ensures r.Ok? ==> k == |order| && !rollbackFailed
      ensures r.Ok? ==>
        Reached(groups, order, k, Stage(old(disk.Now()), disk.Now(), disk.trace, |old(disk.trace)|, disk.misread))
      ensures r.Err? ==>
        Stopped(groups, order, k, Stage(old(disk.Now()), disk.Now(), disk.trace, |old(disk.trace)|, disk.misread),
                rollbackFailed)
      ensures r.Err? && !disk.faulted ==> !Ready(Group(order[k], groups[order[k]]), old(At(disk.staging, order[k])))
      ensures k < |order| ==> RestoreTried(old(disk.refused), disk.refused, order[k], false, rollbackFailed)
      ensures r.Ok? ==> disk.refused == old(disk.refused)
      ensures SlipsAreFaults()
    {
      ghost var start, from := disk.Now(), |disk.trace|;
      var keys := SortedKeys(groups.Keys);
      order, k := keys, 0;
      var next := 0;
      FreshReached(groups, keys, start, disk.trace);
      while next < |keys|
        invariant 0 <= next <= |keys| && order == keys && k == next
        invariant applied == Elems(keys[..k]) && !rollbackFailed
        invariant Reached(groups, keys, k, Stage(start, disk.Now(), disk.trace, from, disk.misread))
        invariant old(disk.trace) <= disk.trace && NoFalseFault(old(disk.faulted), disk.faulted, disk.reliable)
        invariant disk.refused == old(disk.refused) && SlipsAreFaults()
      {
        var published := CommitTurn(keys, next, start, from);
        if published.Err? {
          return Err(published.error), keys, k;
        }
        next := next + 1;
        k := next;
      }
      return Ok(()), keys, k;
    }

    /**
     `commit`: publish the groups in key order, stopping at the first failure. Groups before the
     failing one are done, later ones untouched, the failing one keeps its old directory in place
     unless a failed restore is flagged, and then that directory is whole beside it. In every
     snapshot on the way, every planned namespace is whole. An applied group is published exactly
     if its directory was not missed. A failed restore is flagged only where two renames were refused,
     the failing group's own and then that of its old directory.
     */
    method Commit() returns (r: Result<()>, ghost order: seq<string>, ghost k: nat)
      requires Fresh()
      requires forall d :: d in groups ==> forall i :: 0 <= i < |groups[d]| ==> Namespace(groups[d][i].path) == Some(d)
      modifies disk, this`applied, this`rollbackFailed
      ensures Ascending(order) && forall d :: d in order <==> d in groups
      ensures k <= |order| && applied == Elems(order[..k])
      ensures r.Ok? <==> k == |order|
      ensures NoFalseFault(old(disk.faulted), disk.faulted, disk.reliable)
      ensures r.Err? && !disk.faulted ==> !Ready(Group(order[k], groups[order[k]]), old(At(disk.staging, order[k])))
      ensures Progress(groups, order, k, old(disk.Now()), disk.Now(), disk.misread)
      ensures forall d :: d in applied ==>
        d in groups && PublishedUnlessMissed(disk.root, Group(d, groups[d]), old(At(disk.staging, d)), disk.misread)
      ensures k < |order| ==>
        if rollbackFailed then order[k] !in disk.root && Aside(disk.Now(), order[k], old(At(disk.root, order[k])))
        else At(disk.root, order[k]) == old(At(disk.root, order[k]))
      ensures rollbackFailed ==> r.Err?
      ensures r.Err? ==> RestoreTried(old(disk.refused), disk.refused, order[k], false, rollbackFailed)
      ensures r.Ok? ==> disk.refused == old(disk.refused)
      ensures old(disk.trace) <= disk.trace && SlipsAreFaults()
      ensures TraceWhole(disk.trace, |old(disk.trace)|, old(disk.Now()), groups)
      ensures !Changed() ==> forall n :: At(disk.root, n) == old(At(disk.root, n))
    {
      ghost var start, from := disk.Now(), |disk.trace|;
      r, order, k := PublishGroups();
      if r.Err? {
        StoppedMeaning(groups, order, k, Stage(start, disk.Now(), disk.trace, from, disk.misread), rollbackFailed);
      } else {
        ReachedEnd(groups, order, Stage(start, disk.Now(), disk.trace, from, disk.misread));
      }
    }

    /** `Drop`: staging goes unless a rollback failed. */
    method Drop()
      modifies disk`staging, disk`trace, disk`faulted
      ensures NoFalseFault(old(disk.faulted), disk.faulted, disk.reliable)
      ensures rollbackFailed ==> disk.staging == old(disk.staging)
      ensures !rollbackFailed && !disk.faulted ==> disk.staging == map[]
    {
      if rollbackFailed {
        return;
      }
      disk.RemoveStaging();
    }

    /**
     The whole life of a transfer after its plan is set: whatever happens, every planned namespace
     ends published, or with its old directory in place, or with its old directory kept aside.
     */
    method CommitAndDrop() returns (r: Result<()>)
      requires Fresh()
      requires forall d :: d in groups ==> forall i :: 0 <= i < |groups[d]| ==> Namespace(groups[d][i].path) == Some(d)
      modifies disk, this`applied, this`rollbackFailed
      ensures forall d :: d in groups ==> Settled(Group(d, groups[d]), old(disk.Now()), disk.Now(), rollbackFailed)
      ensures r.Ok? ==> forall d :: d in groups ==>
        PublishedUnlessMissed(disk.root, Group(d, groups[d]), old(At(disk.staging, d)), disk.misread)
      ensures rollbackFailed ==> |disk.refused| == |old(disk.refused)| + 2
      ensures NoFalseFault(old(disk.faulted), disk.faulted, disk.reliable) && SlipsAreFaults()
      ensures r.Err? && !disk.faulted ==>
        exists d :: d in groups && !Ready(Group(d, groups[d]), old(At(disk.staging, d)))
    {
      ghost var start := disk.Now();
      ghost var order: seq<string>, k: nat;
      r, order, k := Commit();
      assert r.Err? ==> order[k] in order;
      forall d | d in groups
        ensures Settled(Group(d, groups[d]), start, disk.Now(), rollbackFailed)
        ensures r.Ok? ==> d in applied
      {
        GroupSettled(groups, order, k, start, disk.Now(), disk.misread, rollbackFailed, d);
      }
      Drop();
    }
  }

  // ---------------------------------------------------------------- the commit, group by group

  /** Not yet looked at: as it was when the commit began. */
  ghost predicate Pending(name: string, start: Snapshot, now: Snapshot) {
    && At(now.root, name) == At(start.root, name)
    && At(now.staging, name) == At(start.staging, name)
    && OldName(name) !in now.staging
  }

  /** Where a commit stands at group `k`: earlier groups done, later ones pending, the rest of the root untouched. */
  ghost predicate Progress(groups: Groups, order: seq<string>, k: nat, start: Snapshot, now: Snapshot,
                           misread: set<string>) {
    && k <= |order|
    && (forall i :: 0 <= i < |order| ==> order[i] in groups)
    && (forall i :: 0 <= i < k ==> Done(now, misread, Group(order[i], groups[order[i]]), start))
    && (forall i :: k < i < |order| ==> Pending(order[i], start, now))
    && (forall n :: n !in groups ==> At(now.root, n) == At(start.root, n))
  }

  ghost predicate AllWhole(s: Snapshot, start: Snapshot, groups: Groups) {
    forall d :: d in groups ==>
      IsNamespaceName(d) && Whole(s, Group(d, groups[d]), At(start.root, d), At(start.staging, d))
  }

  ghost predicate TraceWhole(trace: seq<Snapshot>, from: nat, start: Snapshot, groups: Groups) {
    forall i :: from <= i < |trace| ==> AllWhole(trace[i], start, groups)
  }

  /** The namespace has its old directory in place, or is published, or has its old directory kept aside for good. */
  ghost predicate Settled(g: Group, start: Snapshot, now: Snapshot, rollbackFailed: bool) {
    var was := At(start.root, g.name);
    || At(now.root, g.name) == was
    || PublishedAt(now.root, g, At(start.staging, g.name))
    || (rollbackFailed && Aside(now, g.name, was))
  }

  lemma GroupSettled(groups: Groups, order: seq<string>, k: nat, start: Snapshot, now: Snapshot, misread: set<string>,
                     rollbackFailed: bool, d: string)
    requires Progress(groups, order, k, start, now, misread) && d in order
    requires k < |order| ==>
      if rollbackFailed then order[k] !in now.root && Aside(now, order[k], At(start.root, order[k]))
      else At(now.root, order[k]) == At(start.root, order[k])
    ensures Settled(Group(d, groups[d]), start, now, rollbackFailed)
    ensures k == |order| ==> d in Elems(order[..k])
  {
    var i :| 0 <= i < |order| && order[i] == d;
    if i < k { assert Done(now, misread, Group(order[i], groups[order[i]]), start); }
    if k == |order| { assert order[..k] == order; }
  }

  /** A commit on its way: where it began, what the disk holds and held since, and what `exists` missed. */
  datatype Stage = Stage(start: Snapshot, now: Snapshot, trace: seq<Snapshot>, from: nat, misread: set<string>)

  /** The commit has gone through the first `k` groups. */
  ghost predicate Reached(groups: Groups, order: seq<string>, k: nat, s: Stage) {
    match s
    case Stage(start, now, trace, from, misread) =>
      && Progress(groups, order, k, start, now, misread)
      && (k < |order| ==> Pending(order[k], start, now) && order[k] !in misread)
      && (forall i :: k < i < |order| ==> order[i] !in misread)
      && AllWhole(now, start, groups) && TraceWhole(trace, from, start, groups)
  }

  /** The commit stopped at group `k`. */
  ghost predicate Stopped(groups: Groups, order: seq<string>, k: nat, s: Stage, rollbackFailed: bool) {
    match s
    case Stage(start, now, trace, from, misread) =>
      && k < |order| && Progress(groups, order, k, start, now, misread)
      && TraceWhole(trace, from, start, groups)
      && (if rollbackFailed then order[k] !in now.root && Aside(now, order[k], At(start.root, order[k]))
          else At(now.root, order[k]) == At(start.root, order[k]))
  }

  lemma FreshReached(groups: Groups, keys: seq<string>, start: Snapshot, trace: seq<Snapshot>)
    requires forall n :: n in start.staging ==> IsNamespaceName(n)
    requires forall n :: n in groups ==> IsNamespaceName(n)
    requires forall d :: d in keys <==> d in groups
    ensures Reached(groups, keys, 0, Stage(start, start, trace, |trace|, {}))
  {
    FreshOldNames(groups, keys, start);
  }

  /** Every group gone through is published exactly if its directory was not missed. */
  lemma ThroughMeaning(groups: Groups, order: seq<string>, k: nat, start: Snapshot, now: Snapshot, misread: set<string>)
    requires Progress(groups, order, k, start, now, misread)
    ensures forall d :: d in Elems(order[..k]) ==>
      d in groups && PublishedUnlessMissed(now.root, Group(d, groups[d]), At(start.staging, d), misread)
  {
    forall d | d in Elems(order[..k])
      ensures d in groups
      ensures PublishedUnlessMissed(now.root, Group(d, groups[d]), At(start.staging, d), misread)
    {
      var i :| 0 <= i < k && order[i] == d;
      DoneMeaning(now, misread, Group(order[i], groups[order[i]]), start);
    }
  }

  lemma StoppedMeaning(groups: Groups, order: seq<string>, k: nat, s: Stage, rollbackFailed: bool)
    requires Stopped(groups, order, k, s, rollbackFailed) && forall d :: d in groups ==> d in order
    ensures k < |order| && Progress(groups, order, k, s.start, s.now, s.misread)
    ensures TraceWhole(s.trace, s.from, s.start, groups)
    ensures if rollbackFailed then order[k] !in s.now.root && Aside(s.now, order[k], At(s.start.root, order[k]))
            else At(s.now.root, order[k]) == At(s.start.root, order[k])
    ensures !rollbackFailed && Elems(order[..k]) == {} ==> forall n :: At(s.now.root, n) == At(s.start.root, n)
    ensures forall d :: d in Elems(order[..k]) ==>
      d in groups && PublishedUnlessMissed(s.now.root, Group(d, groups[d]), At(s.start.staging, d), s.misread)
  {
    ThroughMeaning(groups, order, k, s.start, s.now, s.misread);
    if !rollbackFailed { NothingApplied(groups, order, k, s.start, s.now, s.misread); }
  }

  lemma ReachedEnd(groups: Groups, order: seq<string>, s: Stage)
    requires Reached(groups, order, |order|, s) && forall d :: d in groups ==> d in order
    ensures Progress(groups, order, |order|, s.start, s.now, s.misread) && TraceWhole(s.trace, s.from, s.start, groups)
    ensures Elems(order[..|order|]) == {} ==> forall n :: At(s.now.root, n) == At(s.start.root, n)
    ensures forall d :: d in Elems(order[..|order|]) ==>
      d in groups && PublishedUnlessMissed(s.now.root, Group(d, groups[d]), At(s.start.staging, d), s.misread)
  {
    ThroughMeaning(groups, order, |order|, s.start, s.now, s.misread);
    NothingApplied(groups, order, |order|, s.start, s.now, s.misread);
  }

  /** Nothing applied and nothing half-done means the root is as it was. */
  lemma NothingApplied(groups: Groups, order: seq<string>, k: nat, start: Snapshot, now: Snapshot, misread: set<string>)
    requires Progress(groups, order, k, start, now, misread)
    requires forall d :: d in groups ==> d in order
    requires k < |order| ==> At(now.root, order[k]) == At(start.root, order[k])
    ensures Elems(order[..k]) == {} ==> forall n :: At(now.root, n) == At(start.root, n)
  {
    assert k > 0 ==> order[..k][0] in Elems(order[..k]);
  }

  lemma FreshOldNames(groups: Groups, keys: seq<string>, start: Snapshot)
    requires forall n :: n in start.staging ==> IsNamespaceName(n)
    requires forall n :: n in groups ==> IsNamespaceName(n)
    requires forall d :: d in keys <==> d in groups
    ensures Progress(groups, keys, 0, start, start, {})
    ensures |keys| > 0 ==> Pending(keys[0], start, start)
    ensures AllWhole(start, start, groups)
  {
    forall i | 0 <= i < |keys|
      ensures keys[i] in groups && OldName(keys[i]) !in start.staging
    {
      assert keys[i] in keys;
      StagedNamesNeverCollide(keys[i], keys[i]);
    }
  }

  lemma ElsewhereKept(before: Snapshot, s: Snapshot, name: string, d: string)
    requires SameElsewhere(before, s, name) && d != name && IsNamespaceName(d) && IsNamespaceName(name)
    ensures At(s.root, d) == At(before.root, d)
    ensures At(s.staging, d) == At(before.staging, d)
    ensures At(s.staging, OldName(d)) == At(before.staging, OldName(d))
  {
    StagedNamesNeverCollide(d, name);
    StagedNamesNeverCollide(name, d);
  }

  lemma RoundWhole(start: Snapshot, before: Snapshot, s: Snapshot, groups: Groups, name: string)
    requires AllWhole(before, start, groups) && name in groups && Pending(name, start, before)
    requires Good(s, before, Group(name, groups[name]))
    ensures AllWhole(s, start, groups)
  {
    forall d | d in groups
      ensures Whole(s, Group(d, groups[d]), At(start.root, d), At(start.staging, d))
    {
      if d != name { ElsewhereKept(before, s, name, d); }
    }
  }

  lemma RoundTraceWhole(start: Snapshot, before: Snapshot, now: Snapshot, trace: seq<Snapshot>, from: nat,
                        seen: seq<Snapshot>,
                        groups: Groups, name: string)
    requires AllWhole(before, start, groups) && name in groups && Pending(name, start, before)
    requires seen <= trace && TraceWhole(seen, from, start, groups)
    requires AllGood(trace, |seen|, before, Group(name, groups[name])) && Good(now, before, Group(name, groups[name]))
    ensures TraceWhole(trace, from, start, groups) && AllWhole(now, start, groups)
  {
    RoundWhole(start, before, now, groups, name);
    forall i | from <= i < |trace|
      ensures AllWhole(trace[i], start, groups)
    {
      if i < |seen| { assert trace[i] == seen[i]; } else { RoundWhole(start, before, trace[i], groups, name); }
    }
  }

  /** A round moves only its own namespace: what was done stays done, what was pending stays pending. */
  lemma OthersKeep(groups: Groups, order: seq<string>, k: nat, start: Snapshot, before: Snapshot, now: Snapshot,
                   misread: set<string>, misread': set<string>)
    requires Ascending(order) && k < |order| && Progress(groups, order, k, start, before, misread)
    requires forall d :: d in groups ==> IsNamespaceName(d)
    requires SameElsewhere(before, now, order[k]) && misread <= misread' <= misread + {order[k]}
    ensures forall i :: 0 <= i < k ==> Done(now, misread', Group(order[i], groups[order[i]]), start)
    ensures forall i :: k < i < |order| ==> Pending(order[i], start, now)
    ensures forall n :: n !in groups ==> At(now.root, n) == At(start.root, n)
  {
    forall i | 0 <= i < |order| && i != k
      ensures order[i] != order[k]
      ensures At(now.root, order[i]) == At(before.root, order[i])
      ensures At(now.staging, order[i]) == At(before.staging, order[i])
      ensures At(now.staging, OldName(order[i])) == At(before.staging, OldName(order[i]))
    {
      assert if i < k then TextLess(order[i], order[k]) else TextLess(order[k], order[i]);
      ElsewhereKept(before, now, order[k], order[i]);
    }
  }

  lemma FailedRound(groups: Groups, order: seq<string>, k: nat, start: Snapshot, before: Snapshot, now: Snapshot,
                    misread: set<string>, misread': set<string>, rollbackFailed: bool)
    requires Ascending(order) && k < |order| && Progress(groups, order, k, start, before, misread)
    requires Pending(order[k], start, before) && AllWhole(before, start, groups)
    requires SameElsewhere(before, now, order[k]) && misread <= misread' <= misread + {order[k]}
    requires if rollbackFailed then order[k] !in now.root && Aside(now, order[k], At(before.root, order[k]))
             else now.root == before.root
    ensures Progress(groups, order, k, start, now, misread')
  {
    OthersKeep(groups, order, k, start, before, now, misread, misread');
  }

  lemma DoneRound(groups: Groups, order: seq<string>, k: nat, start: Snapshot, before: Snapshot, now: Snapshot,
                  misread: set<string>, misread': set<string>)
    requires Ascending(order) && k < |order| && Progress(groups, order, k, start, before, misread)
    requires Pending(order[k], start, before) && AllWhole(before, start, groups)
    requires SameElsewhere(before, now, order[k]) && misread <= misread' <= misread + {order[k]}
    requires Done(now, misread', Group(order[k], groups[order[k]]), before)
    ensures Progress(groups, order, k + 1, start, now, misread')
    ensures k + 1 < |order| ==> Pending(order[k + 1], start, now)
  {
    OthersKeep(groups, order, k, start, before, now, misread, misread');
  }

  // ---------------------------------------------------------------- one namespace, rename by rename

  ghost predicate Good(s: Snapshot, start: Snapshot, g: Group) {
    SameElsewhere(start, s, g.name) && Whole(s, g, At(start.root, g.name), At(start.staging, g.name))
  }

  ghost predicate AllGood(trace: seq<Snapshot>, from: nat, start: Snapshot, g: Group) {
    forall i :: from <= i < |trace| ==> Good(trace[i], start, g)
  }

  ghost predicate MovedAside(start: Snapshot, s: Snapshot, name: string) {
    && name in start.root
    && s.root == start.root - {name} && s.staging == start.staging[OldName(name) := start.root[name]]
  }

  lemma AfterAside(start: Snapshot, s: Snapshot, g: Group)
    requires IsNamespaceName(g.name) && g.name in start.root
    requires s.root == start.root - {g.name} && s.staging == start.staging[OldName(g.name) := start.root[g.name]]
    ensures Good(s, start, g) && At(s.staging, g.name) == At(start.staging, g.name)
  {
    StagedNamesNeverCollide(g.name, g.name);
  }

  lemma AfterMoveIn(start: Snapshot, before: Snapshot, s: Snapshot, g: Group, existed: bool)
    requires IsNamespaceName(g.name) && g.entries != []
    requires g.name in start.staging && Complete(start.staging[g.name], g.entries)
    requires if existed then
        && g.name in start.root && before.root == start.root - {g.name}
        && before.staging == start.staging[OldName(g.name) := start.root[g.name]]
      else before == start
    requires At(before.root, g.name) in {None, Some(map[])}
    requires s.root == before.root[g.name := start.staging[g.name]] && s.staging == before.staging - {g.name}
    ensures Good(s, start, g) && PublishedAt(s.root, g, At(start.staging, g.name))
    ensures forall misread :: Done(s, misread, g, start)
  {
    StagedNamesNeverCollide(g.name, g.name);
  }

  lemma AfterRestore(start: Snapshot, before: Snapshot, s: Snapshot, g: Group)
    requires IsNamespaceName(g.name) && g.name in start.root && OldName(g.name) !in start.staging
    requires before.root == start.root - {g.name}
    requires before.staging == start.staging[OldName(g.name) := start.root[g.name]]
    requires s.root == before.root[g.name := before.staging[OldName(g.name)]]
    requires s.staging == before.staging - {OldName(g.name)}
    ensures Good(s, start, g) && s.root == start.root
  {
    StagedNamesNeverCollide(g.name, g.name);
  }
}
