/**
 Uploads that overlap a commit. An upload that was accepted keeps its prepared store alive, so it
 may still write into the staging directory while the namespace is being published. One namespace
 with its uploads is followed down to the directories and files of the file system; namespaces do
 not meet there (`Paths.StagedNamesNeverCollide`). Every event is one call of the file system.
 */
module Overlap {
  import opened Wrappers
  import opened Temporaries
  import Text

  /** How far an upload is: accepted, its directory made, or copying into an open temporary file. */
  datatype Progress = Asked | InDirectory | Copying(directory: nat, file: nat, at: nat)

  datatype Upload = Upload(name: string, data: string, progress: Progress)

  /** The commit of the namespace: files checked so far, then the renames. */
  datatype Commit = Checking(passed: nat) | Moving(existed: bool) | Published | Stopped

  /** A name in a directory. */
  datatype Link = At(directory: nat, name: string)

  /**
   Files and directories by number: the bytes of each file, the file each name leads to, what the
   namespace's three paths name (in place, in staging, kept aside), the uploads in progress, the
   commit, and all that was ever accepted.
   */
  datatype State = State(
    files: map<nat, string>,
    links: map<Link, nat>,
    next: nat,
    root: Option<nat>,
    staged: Option<nat>,
    aside: Option<nat>,
    uploads: map<nat, Upload>,
    commit: Commit,
    sent: set<(string, string)>)

  datatype Event = Accept(upload: nat, name: string, data: string)
                 | MakeDirectory(upload: nat)
                 | Open(upload: nat)
                 | Copy(upload: nat, n: nat)
                 | Rename(upload: nat)
                 | Fail(upload: nat)
                 | Check
                 | MoveAside(existed: bool)
                 | MoveIn
                 | Restore
                 | GiveUp

  /** The planned sizes of the namespace's files, and the order in which the commit checks them. */
  datatype Plan = Plan(sizes: map<string, nat>, order: seq<string>) {
    ghost predicate Valid() {
      && order != []
      && (forall name :: name in sizes <==> name in order)
      && (forall name :: name in sizes ==> !Text.EndsWith(name, ".ttsync.tmp"))
    }
  }

  lemma TemporariesAreNotPlanned(plan: Plan)
    requires plan.Valid()
    ensures forall name :: Temporary(name) !in plan.sizes
  {
    forall name
      ensures Temporary(name) !in plan.sizes
    {
      TemporarySuffix(name);
    }
  }

  // ---------------------------------------------------------------- events

  /** `bytes` written at offset `at`; a gap is filled with zeros. */
  function Put(content: string, at: nat, bytes: string): string {
    if at <= |content| then
      content[..at] + bytes + if at + |bytes| < |content| then content[at + |bytes|..] else ""
    else content + seq(at - |content|, _ => '\0') + bytes
  }

  predicate Names(s: State, directory: Option<nat>, name: string) {
    directory.Some? && At(directory.value, name) in s.links
  }

  /** The commit's size check of one file. */
  predicate Passes(s: State, name: string, plan: Plan) {
    && name in plan.sizes && Names(s, s.staged, name)
    && s.links[At(s.staged.value, name)] in s.files && |s.files[s.links[At(s.staged.value, name)]]| == plan.sizes[name]
  }

  /** When an event can happen. An upload that cannot go on fails. */
  predicate Enabled(s: State, e: Event, plan: Plan) {
    match e
    case Accept(k, name, data) => k !in s.uploads && name in plan.sizes && |data| == plan.sizes[name]
    case MakeDirectory(k) => k in s.uploads && s.uploads[k].progress.Asked?
    case Open(k) => k in s.uploads && s.uploads[k].progress.InDirectory? && s.staged.Some?
    case Copy(k, n) =>
      && k in s.uploads && s.uploads[k].progress.Copying? && s.uploads[k].progress.file in s.files
      && s.uploads[k].progress.at + n <= |s.uploads[k].data|
    case Rename(k) =>
      && k in s.uploads && s.uploads[k].progress.Copying? && s.uploads[k].progress.at == |s.uploads[k].data|
      && Names(s, s.staged, Temporary(s.uploads[k].name))
    case Fail(k) => k in s.uploads
    case Check => s.commit.Checking? && s.commit.passed < |plan.order| && Passes(s, plan.order[s.commit.passed], plan)
    case MoveAside(existed) => s.commit.Checking? && s.commit.passed == |plan.order| && (existed ==> s.root.Some?)
    case MoveIn =>
      s.commit.Moving? && s.staged.Some? && (s.root.Some? ==> forall a :: a in s.links ==> a.directory != s.root.value)
    case Restore => s.commit.Moving? && s.commit.existed && s.root.None?
    case GiveUp => s.commit.Checking? || s.commit.Moving?
  }

  function Advance(s: State, k: nat, progress: Progress): State
    requires k in s.uploads
  {
    s.(uploads := s.uploads[k := s.uploads[k].(progress := progress)])
  }

  /** Open with truncation: the temporary file that is there, or a new one. */
  function Opened(s: State, k: nat): State
    requires k in s.uploads && s.staged.Some?
  {
    var d := s.staged.value;
    var tmp := At(d, Temporary(s.uploads[k].name));
    if tmp in s.links then
      Advance(s, k, Copying(d, s.links[tmp], 0)).(files := s.files[s.links[tmp] := ""])
    else
      Advance(s, k, Copying(d, s.next, 0)).(
        files := s.files[s.next := ""], links := s.links[tmp := s.next], next := s.next + 1)
  }

  /** The temporary name becomes the file's name, whatever file it leads to by now. */
  function Renamed(s: State, k: nat): State
    requires k in s.uploads && Names(s, s.staged, Temporary(s.uploads[k].name))
  {
    var d, name := s.staged.value, s.uploads[k].name;
    var tmp := At(d, Temporary(name));
    s.(links := (s.links - {tmp})[At(d, name) := s.links[tmp]], uploads := s.uploads - {k})
  }

  function Next(s: State, e: Event, plan: Plan): State
    requires Enabled(s, e, plan)
  {
    match e
    case Accept(k, name, data) =>
      s.(uploads := s.uploads[k := Upload(name, data, Asked)], sent := s.sent + {(name, data)})
    case MakeDirectory(k) =>
      var t := Advance(s, k, InDirectory);
      if s.staged.Some? then t else t.(staged := Some(s.next), next := s.next + 1)
    case Open(k) => Opened(s, k)
    case Copy(k, n) =>
      var u := s.uploads[k];
      var p := u.progress;
      Advance(s, k, p.(at := p.at + n)).(files := s.files[p.file := Put(s.files[p.file], p.at, u.data[p.at..p.at + n])])
    case Rename(k) => Renamed(s, k)
    case Fail(k) => s.(uploads := s.uploads - {k})
    case Check => s.(commit := Checking(s.commit.passed + 1))
    case MoveAside(existed) =>
      if existed then s.(root := None, aside := s.root, commit := Moving(true)) else s.(commit := Moving(false))
    case MoveIn => s.(root := s.staged, staged := None, commit := Published)
    case Restore => s.(root := s.aside, aside := None, commit := Stopped)
    case GiveUp => s.(commit := Stopped)
  }

  // ---------------------------------------------------------------- what holds at every moment

  /** The bytes a name leads to. */
  function BytesAt(s: State, a: Link): Option<string> {
    if a in s.links && s.links[a] in s.files then Some(s.files[s.links[a]]) else None
  }

  ghost predicate IsOld(start: State, d: nat) { start.root == Some(d) }

  /** The old directory has the same names with the same bytes. */
  ghost predicate OldKept(s: State, start: State) {
    forall a: Link :: IsOld(start, a.directory) ==>
      (a in s.links <==> a in start.links) && BytesAt(s, a) == BytesAt(start, a)
  }

  /** The name leads to exactly the bytes of one upload of it, all of them. */
  ghost predicate Whole(s: State, a: Link, plan: Plan) {
    && a in s.links && s.links[a] in s.files && a.name in plan.sizes
    && |s.files[s.links[a]]| == plan.sizes[a.name] && (a.name, s.files[s.links[a]]) in s.sent
  }

  /** The directory holds every planned file whole. */
  ghost predicate Complete(s: State, d: nat, plan: Plan) {
    forall name :: name in plan.sizes ==> Whole(s, At(d, name), plan)
  }

  /** The old directory in place, or kept aside, or a complete new one in place. */
  ghost predicate Unmixed(s: State, start: State, plan: Plan) {
    && OldKept(s, start)
    && (|| s.root == start.root
        || (s.root.None? && s.aside == start.root)
        || (s.root.Some? && Complete(s, s.root.value, plan)))
  }

  // ---------------------------------------------------------------- the invariant

  /** Numbers are given out once, and no file has two names. */
  ghost predicate Linked(s: State) {
    && (forall f :: f in s.files ==> f < s.next)
    && (forall a :: a in s.links ==> a.directory < s.next && s.links[a] in s.files)
    && (forall a, b :: a in s.links && b in s.links && s.links[a] == s.links[b] ==> a == b)
    && (s.root.Some? ==> s.root.value < s.next) && (s.staged.Some? ==> s.staged.value < s.next)
  }

  /** What uploads made holds whole planned files, beside temporary ones. */
  ghost predicate Sound(s: State, start: State, plan: Plan) {
    forall a :: a in s.links && !IsOld(start, a.directory) && a.name in plan.sizes ==> Whole(s, a, plan)
  }

  /** An upload that copies owns its temporary file, which holds what it has copied so far. */
  ghost predicate Owns(s: State, start: State, plan: Plan, u: Upload) {
    && u.name in plan.sizes && |u.data| == plan.sizes[u.name] && (u.name, u.data) in s.sent
    && (u.progress.Copying? ==> Holds(s, start, u, u.progress.directory, u.progress.file, u.progress.at))
  }

  ghost predicate Holds(s: State, start: State, u: Upload, d: nat, f: nat, at: nat) {
    var tmp := At(d, Temporary(u.name));
    && !IsOld(start, d) && tmp in s.links && s.links[tmp] == f && f in s.files
    && at <= |u.data| && s.files[f] == u.data[..at]
    && (Names(s, s.staged, Temporary(u.name)) ==> s.staged == Some(d))
  }

  ghost predicate AllOwn(s: State, start: State, plan: Plan) {
    forall k :: k in s.uploads ==> Owns(s, start, plan, s.uploads[k])
  }

  /** The upload has this temporary file open. */
  predicate CopiesTo(u: Upload, temporary: string) { u.progress.Copying? && Temporary(u.name) == temporary }

  /** No two uploads have the same temporary file open. */
  ghost predicate Apart(s: State) {
    forall k, k' :: k in s.uploads && k' in s.uploads && k != k' && s.uploads[k].progress.Copying? ==>
      !CopiesTo(s.uploads[k'], Temporary(s.uploads[k].name))
  }

  ghost predicate Placed(s: State, start: State, plan: Plan) {
    match s.commit
    case Checking(passed) =>
      && s.root == start.root && s.aside.None? && passed <= |plan.order|
      && forall i :: 0 <= i < passed ==> Names(s, s.staged, plan.order[i])
    case Moving(existed) =>
      && (if existed then s.root.None? && s.aside == start.root else s.root == start.root && s.aside.None?)
      && forall i :: 0 <= i < |plan.order| ==> Names(s, s.staged, plan.order[i])
    case Published =>
      && s.root.Some? && s.staged != s.root && !IsOld(start, s.root.value)
      && forall i :: 0 <= i < |plan.order| ==> Names(s, s.root, plan.order[i])
    case Stopped => s.root == start.root || (s.root.None? && s.aside == start.root)
  }

  ghost predicate Inv(s: State, start: State, plan: Plan) {
    && plan.Valid() && Linked(s) && OldKept(s, start) && Sound(s, start, plan)
    && AllOwn(s, start, plan) && Apart(s) && Placed(s, start, plan)
    && (s.staged.Some? ==> !IsOld(start, s.staged.value)) && (start.root.Some? ==> start.root.value < s.next)
  }

  lemma InvMeansUnmixed(s: State, start: State, plan: Plan)
    requires Inv(s, start, plan)
    ensures Unmixed(s, start, plan)
    ensures s.commit.Published? ==> s.root.Some? && Complete(s, s.root.value, plan)
  {
    if s.commit.Published? {
      forall name | name in plan.sizes
        ensures Whole(s, At(s.root.value, name), plan)
      {
        var i :| 0 <= i < |plan.order| && plan.order[i] == name;
        assert Names(s, s.root, plan.order[i]);
      }
    }
  }

  // ---------------------------------------------------------------- every event keeps it

  /** No upload opens a temporary file that another one has open: the caller's side of the bargain. */
  predicate Separate(s: State, e: Event) {
    e.Open? && e.upload in s.uploads ==>
      forall k :: k in s.uploads ==> !CopiesTo(s.uploads[k], Temporary(s.uploads[e.upload].name))
  }

  /** Only the name `changed` leads anywhere new. */
  ghost predicate SameBut(t: State, s: State, changed: Link) {
    forall a :: a != changed && (a in t.links || a in s.links) ==>
      a in t.links && a in s.links && t.links[a] == s.links[a] && BytesAt(t, a) == BytesAt(s, a)
  }

  lemma SoundStep(t: State, s: State, start: State, plan: Plan, changed: Link)
    requires Sound(s, start, plan) && s.sent <= t.sent
    requires forall a :: a in t.links && a != changed && a.name in plan.sizes ==>
      a in s.links && BytesAt(t, a) == BytesAt(s, a)
    requires changed in t.links && changed.name in plan.sizes ==> Whole(t, changed, plan)
    ensures Sound(t, start, plan)
  {
    forall a | a in t.links && !IsOld(start, a.directory) && a.name in plan.sizes
      ensures Whole(t, a, plan)
    {
      if a != changed { assert Whole(s, a, plan); }
    }
  }

  ghost predicate SameFiles(t: State, s: State) { t.files == s.files && t.links == s.links && s.sent <= t.sent }

  lemma FilesStep(t: State, s: State, start: State, plan: Plan)
    requires SameFiles(t, s) && Sound(s, start, plan) && OldKept(s, start)
    ensures Sound(t, start, plan) && OldKept(t, start)
  {
    assert forall a :: BytesAt(t, a) == BytesAt(s, a) && (Whole(s, a, plan) ==> Whole(t, a, plan));
  }

  /** What happens outside the old directory leaves it alone. */
  lemma OldStep(t: State, s: State, start: State, directory: nat)
    requires OldKept(s, start) && !IsOld(start, directory)
    requires forall a: Link :: a.directory != directory ==>
      (a in t.links <==> a in s.links) && BytesAt(t, a) == BytesAt(s, a)
    ensures OldKept(t, start)
  {
    forall a: Link | IsOld(start, a.directory)
      ensures (a in t.links <==> a in start.links) && BytesAt(t, a) == BytesAt(start, a)
    {
      assert a.directory != directory;
    }
  }

  lemma OwnsStep(t: State, s: State, start: State, plan: Plan, u: Upload)
    requires Owns(s, start, plan, u) && s.sent <= t.sent
    requires u.progress.Copying? ==>
      var tmp := At(u.progress.directory, Temporary(u.name));
      && tmp in t.links && tmp in s.links && t.links[tmp] == s.links[tmp] && BytesAt(t, tmp) == BytesAt(s, tmp)
    requires u.progress.Copying? && Names(t, t.staged, Temporary(u.name)) ==>
      t.staged == s.staged && Names(s, s.staged, Temporary(u.name))
    ensures Owns(t, start, plan, u)
  {
  }

  lemma PlacedStep(t: State, s: State, start: State, plan: Plan)
    requires plan.Valid() && Placed(s, start, plan) && t.commit == s.commit && t.root == s.root && t.aside == s.aside
    requires (s.staged.Some? ==> t.staged == s.staged) && (s.commit.Published? ==> t.staged != s.root)
    requires forall a :: a in s.links && a.name in plan.sizes ==> a in t.links
    ensures Placed(t, start, plan)
  {
    assert forall i :: 0 <= i < |plan.order| ==> plan.order[i] in plan.sizes;
  }

  lemma AcceptKeeps(s: State, start: State, plan: Plan, k: nat, name: string, data: string)
    requires Inv(s, start, plan) && Enabled(s, Accept(k, name, data), plan)
    ensures Inv(Next(s, Accept(k, name, data), plan), start, plan)
  {
  }

  lemma MakeDirectoryKeeps(s: State, start: State, plan: Plan, k: nat)
    requires Inv(s, start, plan) && Enabled(s, MakeDirectory(k), plan)
    ensures Inv(Next(s, MakeDirectory(k), plan), start, plan)
  {
    var t := Next(s, MakeDirectory(k), plan);
    forall j | j in t.uploads
      ensures Owns(t, start, plan, t.uploads[j])
    {
      if j != k { OwnsStep(t, s, start, plan, s.uploads[j]); } else { assert Owns(s, start, plan, s.uploads[k]); }
    }
    FilesStep(t, s, start, plan);
    PlacedStep(t, s, start, plan);
  }

  lemma OpenLinked(s: State, start: State, plan: Plan, k: nat)
    requires Inv(s, start, plan) && Enabled(s, Open(k), plan)
    ensures Linked(Opened(s, k))
  {
  }

  /** Truncating or creating the upload's temporary file touches no other name. */
  lemma OpenLinks(s: State, start: State, plan: Plan, k: nat)
    requires Linked(s) && Enabled(s, Open(k), plan)
    ensures SameBut(Opened(s, k), s, At(s.staged.value, Temporary(s.uploads[k].name)))
  {
  }

  lemma OpenOwns(s: State, start: State, plan: Plan, k: nat)
    requires Inv(s, start, plan) && Enabled(s, Open(k), plan) && Separate(s, Open(k))
    requires SameBut(Opened(s, k), s, At(s.staged.value, Temporary(s.uploads[k].name)))
    ensures AllOwn(Opened(s, k), start, plan)
  {
    var t := Opened(s, k);
    forall j | j in t.uploads
      ensures Owns(t, start, plan, t.uploads[j])
    {
      assert Owns(s, start, plan, s.uploads[j]);
      if j != k { OwnsStep(t, s, start, plan, s.uploads[j]); }
    }
  }

  lemma OpenApart(s: State, k: nat)
    requires Apart(s) && k in s.uploads && s.staged.Some? && Separate(s, Open(k))
    ensures Apart(Opened(s, k))
  {
  }

  lemma OpenKeeps(s: State, start: State, plan: Plan, k: nat)
    requires Inv(s, start, plan) && Enabled(s, Open(k), plan) && Separate(s, Open(k))
    ensures Inv(Next(s, Open(k), plan), start, plan)
  {
    var t, tmp := Opened(s, k), At(s.staged.value, Temporary(s.uploads[k].name));
    TemporariesAreNotPlanned(plan);
    OpenLinked(s, start, plan, k);
    OpenLinks(s, start, plan, k);
    OpenOwns(s, start, plan, k);
    OpenApart(s, k);
    SoundStep(t, s, start, plan, tmp);
    OldStep(t, s, start, s.staged.value);
    PlacedStep(t, s, start, plan);
  }

  /** Copying touches only the upload's own temporary file. */
  lemma CopyLinks(s: State, start: State, plan: Plan, k: nat, n: nat)
    requires Linked(s) && Enabled(s, Copy(k, n), plan) && Owns(s, start, plan, s.uploads[k])
    ensures var u := s.uploads[k];
      SameBut(Next(s, Copy(k, n), plan), s, At(u.progress.directory, Temporary(u.name)))
  {
  }

  lemma CopyOwns(s: State, start: State, plan: Plan, k: nat, n: nat)
    requires Enabled(s, Copy(k, n), plan) && Owns(s, start, plan, s.uploads[k])
    ensures var u := s.uploads[k];
      Owns(Next(s, Copy(k, n), plan), start, plan, u.(progress := u.progress.(at := u.progress.at + n)))
  {
    var u := s.uploads[k];
    var at := u.progress.at;
    assert Put(u.data[..at], at, u.data[at..at + n]) == u.data[..at + n];
  }

  lemma CopyKeeps(s: State, start: State, plan: Plan, k: nat, n: nat)
    requires Inv(s, start, plan) && Enabled(s, Copy(k, n), plan)
    ensures Inv(Next(s, Copy(k, n), plan), start, plan)
  {
    var t, u := Next(s, Copy(k, n), plan), s.uploads[k];
    TemporariesAreNotPlanned(plan);
    assert Owns(s, start, plan, u);
    CopyLinks(s, start, plan, k, n);
    CopyOwns(s, start, plan, k, n);
    forall j | j in t.uploads
      ensures Owns(t, start, plan, t.uploads[j])
    {
      if j != k { OwnsStep(t, s, start, plan, s.uploads[j]); }
    }
    SoundStep(t, s, start, plan, At(u.progress.directory, Temporary(u.name)));
    OldStep(t, s, start, u.progress.directory);
    PlacedStep(t, s, start, plan);
  }

  lemma RenameLinked(s: State, start: State, plan: Plan, k: nat)
    requires Inv(s, start, plan) && Enabled(s, Rename(k), plan)
    ensures Linked(Renamed(s, k))
  {
  }

  /** A finished upload leaves its file whole under its own name, and touches no other. */
  lemma RenameLinks(s: State, start: State, plan: Plan, k: nat)
    requires Inv(s, start, plan) && Enabled(s, Rename(k), plan)
    ensures Whole(Renamed(s, k), At(s.staged.value, s.uploads[k].name), plan)
    ensures forall a ::
      a != At(s.staged.value, s.uploads[k].name) && a != At(s.staged.value, Temporary(s.uploads[k].name)) ==>
      (a in Renamed(s, k).links <==> a in s.links) && BytesAt(Renamed(s, k), a) == BytesAt(s, a)
  {
    var u := s.uploads[k];
    assert Owns(s, start, plan, u);
    assert u.data[..u.progress.at] == u.data;
  }

  lemma RenameOwns(s: State, start: State, plan: Plan, k: nat)
    requires Inv(s, start, plan) && Enabled(s, Rename(k), plan)
    ensures AllOwn(Renamed(s, k), start, plan)
  {
    var t := Renamed(s, k);
    TemporariesAreNotPlanned(plan);
    assert Owns(s, start, plan, s.uploads[k]);
    forall j | j in t.uploads
      ensures Owns(t, start, plan, t.uploads[j])
    {
      assert Owns(s, start, plan, s.uploads[j]);
      OwnsStep(t, s, start, plan, s.uploads[j]);
    }
  }

  lemma RenameKeeps(s: State, start: State, plan: Plan, k: nat)
    requires Inv(s, start, plan) && Enabled(s, Rename(k), plan)
    ensures Inv(Next(s, Rename(k), plan), start, plan)
  {
    var t := Renamed(s, k);
    TemporariesAreNotPlanned(plan);
    assert Owns(s, start, plan, s.uploads[k]);
    RenameLinked(s, start, plan, k);
    RenameLinks(s, start, plan, k);
    RenameOwns(s, start, plan, k);
    SoundStep(t, s, start, plan, At(s.staged.value, s.uploads[k].name));
    OldStep(t, s, start, s.staged.value);
    PlacedStep(t, s, start, plan);
  }

  predicate OfTheCommit(e: Event) { e.Fail? || e.Check? || e.MoveAside? || e.MoveIn? || e.Restore? || e.GiveUp? }

  /** The commit's own steps touch no file. */
  lemma CommitOwns(s: State, start: State, plan: Plan, e: Event)
    requires Inv(s, start, plan) && Enabled(s, e, plan)
    requires OfTheCommit(e)
    ensures AllOwn(Next(s, e, plan), start, plan)
  {
    var t := Next(s, e, plan);
    forall j | j in t.uploads
      ensures Owns(t, start, plan, t.uploads[j])
    {
      OwnsStep(t, s, start, plan, s.uploads[j]);
    }
  }

  lemma CommitLinks(s: State, start: State, plan: Plan, e: Event)
    requires Linked(s) && Placed(s, start, plan) && Enabled(s, e, plan) && OfTheCommit(e)
    requires (s.staged.Some? ==> !IsOld(start, s.staged.value)) && (start.root.Some? ==> start.root.value < s.next)
    ensures var t := Next(s, e, plan);
      && SameFiles(t, s) && Linked(t) && t.next == s.next
      && (t.staged.Some? ==> !IsOld(start, t.staged.value))
  {
  }

  lemma CommitApart(s: State, plan: Plan, e: Event)
    requires Apart(s) && Enabled(s, e, plan) && OfTheCommit(e)
    ensures Apart(Next(s, e, plan))
  {
  }

  lemma CommitPlaced(s: State, start: State, plan: Plan, e: Event)
    requires plan.Valid() && Placed(s, start, plan) && Enabled(s, e, plan)
    requires s.staged.Some? ==> !IsOld(start, s.staged.value)
    requires OfTheCommit(e)
    ensures Placed(Next(s, e, plan), start, plan)
  {
  }

  lemma CommitKeeps(s: State, start: State, plan: Plan, e: Event)
    requires Inv(s, start, plan) && Enabled(s, e, plan)
    requires OfTheCommit(e)
    ensures Inv(Next(s, e, plan), start, plan)
  {
    CommitOwns(s, start, plan, e);
    CommitPlaced(s, start, plan, e);
    CommitLinks(s, start, plan, e);
    CommitApart(s, plan, e);
    FilesStep(Next(s, e, plan), s, start, plan);
  }

  lemma StepKeeps(s: State, start: State, plan: Plan, e: Event)
    requires Inv(s, start, plan) && Enabled(s, e, plan) && Separate(s, e)
    ensures Inv(Next(s, e, plan), start, plan)
  {
    match e
    case Accept(k, name, data) => AcceptKeeps(s, start, plan, k, name, data);
    case MakeDirectory(k) => MakeDirectoryKeeps(s, start, plan, k);
    case Open(k) => OpenKeeps(s, start, plan, k);
    case Copy(k, n) => CopyKeeps(s, start, plan, k, n);
    case Rename(k) => RenameKeeps(s, start, plan, k);
    case _ => CommitKeeps(s, start, plan, e);
  }

  /** After the publishing, no upload changes a planned file in place. */
  lemma PublishedStep(s: State, start: State, plan: Plan, e: Event, name: string)
    requires Inv(s, start, plan) && Enabled(s, e, plan) && s.commit.Published? && name in plan.sizes
    ensures var t := Next(s, e, plan); t.commit.Published? && t.root == s.root
    ensures BytesAt(Next(s, e, plan), At(s.root.value, name)) == BytesAt(s, At(s.root.value, name))
  {
    TemporariesAreNotPlanned(plan);
    match e
    case Open(k) => OpenLinks(s, start, plan, k);
    case Copy(k, n) => CopyLinks(s, start, plan, k, n);
    case Rename(k) => RenameLinks(s, start, plan, k);
    case _ =>
  }

  // ---------------------------------------------------------------- every interleaving

  /** Nothing received yet: the old directory, if there is one, is all there is. */
  ghost predicate Initial(s: State) {
    && Linked(s) && s.staged.None? && s.aside.None? && s.uploads == map[] && s.commit == Checking(0) && s.sent == {}
    && forall a :: a in s.links ==> s.root == Some(a.directory)
  }

  ghost predicate StepAt(states: seq<State>, events: seq<Event>, plan: Plan, n: nat)
    requires n < |events| && |states| == |events| + 1
  {
    Enabled(states[n], events[n], plan) && states[n + 1] == Next(states[n], events[n], plan)
  }

  ghost predicate IsRun(states: seq<State>, events: seq<Event>, plan: Plan) {
    && |states| == |events| + 1 && plan.Valid() && Initial(states[0])
    && forall n :: 0 <= n < |events| ==> StepAt(states, events, plan, n)
  }

  /** In the whole run, no two uploads have the same temporary file open at a time. */
  ghost predicate AllSeparate(states: seq<State>, events: seq<Event>) {
    |states| == |events| + 1 && forall n :: 0 <= n < |events| ==> Separate(states[n], events[n])
  }

  lemma {:induction false} RunKeeps(states: seq<State>, events: seq<Event>, plan: Plan, n: nat)
    requires IsRun(states, events, plan) && AllSeparate(states, events) && n < |states|
    ensures Inv(states[n], states[0], plan)
  {
    if n > 0 {
      RunKeeps(states, events, plan, n - 1);
      assert StepAt(states, events, plan, n - 1) && Separate(states[n - 1], events[n - 1]);
      StepKeeps(states[n - 1], states[0], plan, events[n - 1]);
    }
  }

  /**
   However uploads and the commit interleave, and wherever they stop: the namespace is the old one,
   or kept aside, or complete, each planned file with the bytes of a single upload of it.
   */
  lemma OverlapNeverMixes(states: seq<State>, events: seq<Event>, plan: Plan, n: nat)
    requires IsRun(states, events, plan) && AllSeparate(states, events) && n < |states|
    ensures Unmixed(states[n], states[0], plan)
    ensures states[n].commit.Published? ==> states[n].root.Some? && Complete(states[n], states[n].root.value, plan)
  {
    RunKeeps(states, events, plan, n);
    InvMeansUnmixed(states[n], states[0], plan);
  }

  /** A published namespace keeps its bytes, whatever late uploads still do. */
  lemma {:induction false} PublishedStays(states: seq<State>, events: seq<Event>, plan: Plan, m: nat, n: nat,
                                          name: string)
    requires IsRun(states, events, plan) && AllSeparate(states, events) && m <= n < |states|
    requires states[m].commit.Published? && name in plan.sizes
    ensures states[n].commit.Published? && states[n].root == states[m].root && states[n].root.Some?
    ensures BytesAt(states[n], At(states[n].root.value, name)) == BytesAt(states[m], At(states[m].root.value, name))
  {
    RunKeeps(states, events, plan, n);
    if m < n {
      PublishedStays(states, events, plan, m, n - 1, name);
      RunKeeps(states, events, plan, n - 1);
      assert StepAt(states, events, plan, n - 1);
      PublishedStep(states[n - 1], states[0], plan, events[n - 1], name);
    }
  }

  // ---------------------------------------------------------------- runs in which no upload fails

  ghost function CopyingTo(s: State, temporary: string): set<nat> {
    set k | k in s.uploads && CopiesTo(s.uploads[k], temporary)
  }

  /** The uploads that have the temporary file open, less the one that can still rename it. */
  ghost function Surplus(s: State, temporary: string): int {
    |CopyingTo(s, temporary)| - if Names(s, s.staged, temporary) then 1 else 0
  }

  /** Directories are numbered below `next`, and uploads are of planned files. */
  ghost predicate Numbered(s: State, plan: Plan) {
    && (forall a :: a in s.links ==> a.directory < s.next)
    && (s.staged.Some? ==> s.staged.value < s.next)
    && (forall k :: k in s.uploads ==> s.uploads[k].name in plan.sizes)
  }

  lemma NumberedStep(s: State, e: Event, plan: Plan)
    requires Numbered(s, plan) && Enabled(s, e, plan)
    ensures Numbered(Next(s, e, plan), plan)
  {
  }

  lemma OpenCopying(s: State, k: nat, temporary: string)
    requires k in s.uploads && !s.uploads[k].progress.Copying? && s.staged.Some?
    ensures CopyingTo(Opened(s, k), temporary)
      == CopyingTo(s, temporary) + if temporary == Temporary(s.uploads[k].name) then {k} else {}
  {
    var t := Opened(s, k);
    forall j: nat
      ensures j in CopyingTo(t, temporary) <==>
        j in CopyingTo(s, temporary) || (j == k && temporary == Temporary(s.uploads[k].name))
    {
      assert j in t.uploads <==> j in s.uploads;
      if j in s.uploads && j != k { assert t.uploads[j] == s.uploads[j]; }
    }
  }

  lemma OpenNames(s: State, k: nat, temporary: string)
    requires k in s.uploads && s.staged.Some?
    ensures var t := Opened(s, k);
      Names(t, t.staged, temporary) <==> Names(s, s.staged, temporary) || temporary == Temporary(s.uploads[k].name)
  {
  }

  lemma OpenSurplus(s: State, k: nat, plan: Plan, temporary: string)
    requires Enabled(s, Open(k), plan)
    ensures Surplus(s, temporary) <= Surplus(Opened(s, k), temporary)
    ensures temporary == Temporary(s.uploads[k].name) ==>
      Surplus(Opened(s, k), temporary) == |CopyingTo(s, temporary)|
  {
    OpenCopying(s, k, temporary);
    OpenNames(s, k, temporary);
    assert k !in CopyingTo(s, temporary);
  }

  lemma RenameSurplus(s: State, k: nat, plan: Plan, name: string)
    requires plan.Valid() && Numbered(s, plan) && Enabled(s, Rename(k), plan)
    ensures Surplus(s, Temporary(name)) <= Surplus(Renamed(s, k), Temporary(name))
  {
    TemporariesAreNotPlanned(plan);
    if Temporary(name) == Temporary(s.uploads[k].name) {
      assert CopyingTo(Renamed(s, k), Temporary(name)) == CopyingTo(s, Temporary(name)) - {k};
    } else {
      assert CopyingTo(Renamed(s, k), Temporary(name)) == CopyingTo(s, Temporary(name));
    }
  }

  /** Without a failing upload the surplus never goes down: only a rename ends a copy, and it uses up the name. */
  lemma SurplusStep(s: State, e: Event, plan: Plan, name: string)
    requires plan.Valid() && Numbered(s, plan) && Enabled(s, e, plan) && !e.Fail?
    ensures Surplus(s, Temporary(name)) <= Surplus(Next(s, e, plan), Temporary(name))
  {
    if e.Open? {
      OpenSurplus(s, e.upload, plan, Temporary(name));
    } else if e.Rename? {
      RenameSurplus(s, e.upload, plan, name);
    } else {
      assert CopyingTo(Next(s, e, plan), Temporary(name)) == CopyingTo(s, Temporary(name));
    }
  }

  ghost predicate NothingFails(events: seq<Event>) { forall n :: 0 <= n < |events| ==> !events[n].Fail? }

  lemma {:induction false} RunNumbered(states: seq<State>, events: seq<Event>, plan: Plan, n: nat)
    requires IsRun(states, events, plan) && n < |states|
    ensures Numbered(states[n], plan)
  {
    if n > 0 {
      RunNumbered(states, events, plan, n - 1);
      assert StepAt(states, events, plan, n - 1);
      NumberedStep(states[n - 1], events[n - 1], plan);
    }
  }

  lemma {:induction false} SurplusGrows(states: seq<State>, events: seq<Event>, plan: Plan, m: nat, n: nat,
                                        name: string)
    requires IsRun(states, events, plan) && NothingFails(events) && m <= n < |states|
    ensures Surplus(states[m], Temporary(name)) <= Surplus(states[n], Temporary(name))
  {
    if m < n {
      SurplusGrows(states, events, plan, m, n - 1, name);
      RunNumbered(states, events, plan, n - 1);
      assert StepAt(states, events, plan, n - 1);
      SurplusStep(states[n - 1], events[n - 1], plan, name);
    }
  }

  /**
   When no upload fails and none is left over, no two ever had one temporary file open: such a clash
   always takes away from one of them the name it is to rename.
   */
  lemma NothingFailedIsSeparate(states: seq<State>, events: seq<Event>, plan: Plan)
    requires IsRun(states, events, plan) && NothingFails(events) && states[|events|].uploads == map[]
    ensures AllSeparate(states, events)
  {
    forall n | 0 <= n < |events|
      ensures Separate(states[n], events[n])
    {
      assert StepAt(states, events, plan, n);
      if events[n].Open? {
        var k := events[n].upload;
        var name := states[n].uploads[k].name;
        SurplusGrows(states, events, plan, n + 1, |events|, name);
        assert CopyingTo(states[|events|], Temporary(name)) == {};
        OpenSurplus(states[n], k, plan, Temporary(name));
        assert CopyingTo(states[n], Temporary(name)) == {};
        assert forall j :: j in states[n].uploads ==> j !in CopyingTo(states[n], Temporary(name));
      }
    }
  }

  predicate OfAnUpload(e: Event) { e.Accept? || e.MakeDirectory? || e.Open? || e.Copy? || e.Rename? }

  /** Everything accepted is still on its way or has its name in the directory. */
  ghost predicate Underway(s: State) {
    forall name, data :: (name, data) in s.sent ==>
      Names(s, s.staged, name) || exists k :: k in s.uploads && s.uploads[k].name == name
  }

  lemma UnderwayStep(s: State, e: Event, plan: Plan)
    requires plan.Valid() && Numbered(s, plan) && Underway(s) && Enabled(s, e, plan) && OfAnUpload(e)
    requires forall name, data :: (name, data) in s.sent ==> name in plan.sizes
    ensures Underway(Next(s, e, plan))
    ensures forall name, data :: (name, data) in Next(s, e, plan).sent ==> name in plan.sizes
  {
    TemporariesAreNotPlanned(plan);
    var t := Next(s, e, plan);
    forall name, data | (name, data) in t.sent
      ensures Names(t, t.staged, name) || exists k :: k in t.uploads && t.uploads[k].name == name
    {
      if (name, data) !in s.sent {
        assert e == Accept(e.upload, name, data) && t.uploads[e.upload].name == name;
      } else if !Names(s, s.staged, name) {
        var k :| k in s.uploads && s.uploads[k].name == name;
        if e != Rename(k) { assert k in t.uploads && t.uploads[k].name == name; }
      }
    }
  }

  lemma {:induction false} RunUnderway(states: seq<State>, events: seq<Event>, plan: Plan, n: nat)
    requires IsRun(states, events, plan) && n < |states|
    requires forall i :: 0 <= i < |events| ==> OfAnUpload(events[i])
    ensures Underway(states[n]) && forall name, data :: (name, data) in states[n].sent ==> name in plan.sizes
  {
    if n > 0 {
      RunUnderway(states, events, plan, n - 1);
      RunNumbered(states, events, plan, n - 1);
      assert StepAt(states, events, plan, n - 1);
      UnderwayStep(states[n - 1], events[n - 1], plan);
    }
  }

  /**
   Files written into one directory at the same time, in any interleaving of their file-system
   calls: when none of the writes fails and none is left over, every file sent is in place, whole.
   */
  lemma NothingFailedIsWhole(states: seq<State>, events: seq<Event>, plan: Plan, name: string, data: string)
    requires IsRun(states, events, plan) && forall i :: 0 <= i < |events| ==> OfAnUpload(events[i])
    requires states[|events|].uploads == map[] && (name, data) in states[|events|].sent
    ensures states[|events|].staged.Some? && Whole(states[|events|], At(states[|events|].staged.value, name), plan)
  {
    NothingFailedIsSeparate(states, events, plan);
    RunKeeps(states, events, plan, |events|);
    RunUnderway(states, events, plan, |events|);
    assert Names(states[|events|], states[|events|].staged, name);
  }

  // ---------------------------------------------------------------- the commit can go on

  /** Once all files are checked the old directory can be moved aside, and from there be put back as it was. */
  lemma RestoreGoesThrough(s: State, plan: Plan)
    requires s.commit == Checking(|plan.order|) && s.root.Some?
    ensures Enabled(s, MoveAside(true), plan)
    ensures var t := Next(s, MoveAside(true), plan);
      t.root == None && t.aside == s.root && t.staged == s.staged && t.links == s.links && t.files == s.files
    ensures Enabled(Next(s, MoveAside(true), plan), Restore, plan)
    ensures Next(Next(s, MoveAside(true), plan), Restore, plan) == s.(aside := None, commit := Stopped)
  {
  }

  /** And it can be replaced by the staged one. */
  lemma ReplaceGoesThrough(s: State, plan: Plan)
    requires s.commit == Checking(|plan.order|) && s.root.Some? && s.staged.Some?
    ensures Enabled(s, MoveAside(true), plan) && Enabled(Next(s, MoveAside(true), plan), MoveIn, plan)
    ensures Next(Next(s, MoveAside(true), plan), MoveIn, plan)
      == s.(root := s.staged, staged := None, aside := s.root, commit := Published)
  {
  }

  /** A planned file that is staged at its size passes the next check. */
  lemma CheckGoesThrough(s: State, plan: Plan, i: nat)
    requires i < |plan.order| && s.commit == Checking(i) && s.staged.Some? && plan.order[i] in plan.sizes
    requires BytesAt(s, At(s.staged.value, plan.order[i])).Some?
    ensures Enabled(s, Check, plan)
      <==> |BytesAt(s, At(s.staged.value, plan.order[i])).value| == plan.sizes[plan.order[i]]
    ensures Enabled(s, Check, plan) ==> Next(s, Check, plan) == s.(commit := Checking(i + 1))
  {
  }
}
