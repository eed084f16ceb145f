/** The bundle reader: frames off the stream, files into the workspace. */
module BundleReader {
  import opened Wrappers
  import opened Seqs
  import opened Text
  import opened Paths
  import opened Manifest
  import opened Planner
  import opened Sync
  import opened BundleCodec
  import opened BundleStream
  import opened Engine

  /** The files still expected, by wire path. */
  type Expected = map<string, Entry>

  function SizesOf(expected: Expected): Sizes {
    map path | path in expected :: expected[path].size
  }

  /** Every expected entry is filed under its own rendered path. */
  ghost predicate Keyed(expected: Expected) {
    forall path :: path in expected ==> ValidPath(expected[path].path) && Render(expected[path].path) == path
  }

  ghost predicate ExpectedFrom(expected: Expected, transfer: seq<Entry>)
    requires AllValid(transfer)
  {
    && Keyed(expected)
    && (forall i :: 0 <= i < |transfer| ==> Render(transfer[i].path) in expected)
    && (forall path :: path in expected ==> expected[path] in transfer)
  }

  function ExpectedOf(transfer: seq<Entry>): Expected
    requires AllValid(transfer)
  {
    if transfer == [] then map[]
    else ExpectedOf(transfer[..|transfer| - 1])[Render(transfer[|transfer| - 1].path) := transfer[|transfer| - 1]]
  }

  lemma {:induction false} ExpectedOfMeaning(transfer: seq<Entry>)
    requires AllValid(transfer)
    ensures ExpectedFrom(ExpectedOf(transfer), transfer)
  {
    if transfer != [] {
      var init := transfer[..|transfer| - 1];
      ExpectedOfMeaning(init);
      assert transfer == init + [transfer[|transfer| - 1]];
    }
  }

  /** The `HashMap` built from the plan. */
  method Expect(transfer: seq<Entry>) returns (expected: Expected)
    requires AllValid(transfer)
    ensures expected == ExpectedOf(transfer)
  {
    expected := map[];
    for i := 0 to |transfer|
      invariant expected == ExpectedOf(transfer[..i])
    {
      assert transfer[..i + 1][..i] == transfer[..i];
      expected := expected[Render(transfer[i].path) := transfer[i]];
    }
    assert transfer[..|transfer|] == transfer;
  }

  // ---------------------------------------------------------------- one frame

  /** The header of the next frame: the entry it announces, nothing at the terminator, or the refusal. */
  method NextEntry(source: Source, expected: Expected) returns (r: Result<Option<Entry>>, ghost path: string)
    requires !source.faulted
    modifies source
    ensures source.faulted ==> r == Err(Io) && !source.reliable
    ensures !source.faulted && r.Err? ==> ReadHead(old(source.rest), SizesOf(expected)) == Stop(Refuse(r.error))
    ensures !source.faulted && r.Ok? && r.value.None? ==>
      |old(source.rest)| >= 4 && DecodeU32(old(source.rest)[..4]) == 0 && source.rest == old(source.rest)[4..]
    ensures !source.faulted && r.Ok? && r.value.Some? ==>
      path in expected && r.value.value == expected[path] && Announced(old(source.rest), path, source.rest)
  {
    ghost var data := source.rest;
    path := "";
    var pathLen := source.ReadU32();
    if pathLen.Err? {
      return Err(pathLen.error), path;
    }
    if pathLen.value == 0 {
      return Ok(None), path;
    }
    if pathLen.value > MAX_BUNDLE_PATH_LEN {
      return Err(InvalidData), path;
    }
    var pathBytes := source.ReadExact(pathLen.value);
    if pathBytes.Err? {
      return Err(pathBytes.error), path;
    }
    path := pathBytes.value;
    if !IsUtf8(pathBytes.value) {
      return Err(InvalidData), path;
    }
    if !ValidSyncPath(pathBytes.value) {
      return Err(InvalidData), path;
    }
    if pathBytes.value !in expected {
      return Err(NotFound), path;
    }
    return Ok(Some(expected[pathBytes.value])), path;
  }

  /** `data` starts with a well-formed header for `path`; the rest is the file bytes and what follows. */
  ghost predicate Announced(data: string, path: string, tail: string) {
    && |data| >= 4 && 0 < DecodeU32(data[..4]) <= MAX_BUNDLE_PATH_LEN
    && DecodeU32(data[..4]) <= |data| - 4
    && path == data[4..][..DecodeU32(data[..4])] && tail == data[4..][DecodeU32(data[..4])..]
    && WirePath(path)
  }

  // ---------------------------------------------------------------- the loop

  function Prepend(frames: seq<Frame>, o: Outcome): Outcome { Outcome(o.result, frames + o.written) }

  /** The peer's frames carry the files of a replica, at the planned sizes and times. */
  ghost predicate Carries(frames: seq<Frame>, incoming: Replica, expected: Expected) {
    forall i :: 0 <= i < |frames| ==> CarriesOne(frames[i], incoming, expected)
  }

  ghost predicate CarriesOne(f: Frame, incoming: Replica, expected: Expected) {
    f.path in expected ==>
      var e := expected[f.path];
      e.path in incoming && incoming[e.path] == File(e.size, e.mtime, f.content)
  }

  /** Every planned path is expected still or has landed. */
  ghost predicate Accounted(all: Expected, remaining: Expected, got: set<Path>) {
    && (forall path :: path in remaining ==> path in all && remaining[path] == all[path])
    && (forall path :: path in all && path !in remaining ==> all[path].path in got)
    && (forall p :: p in got ==> exists path :: path in all && all[path].path == p)
  }

  lemma AllLanded(all: Expected, transfer: seq<Entry>, got: set<Path>)
    requires AllValid(transfer) && ExpectedFrom(all, transfer) && Accounted(all, map[], got)
    ensures got == PathSet(transfer)
  {
    forall q | q in PathSet(transfer)
      ensures q in got
    {
      var i :| 0 <= i < |transfer| && transfer[i].path == q;
      SegmentsOfRender(q);
      SegmentsOfRender(all[Render(q)].path);
      assert all[Render(q)].path == q;
    }
    OnlyPlanned(all, map[], transfer, got);
  }

  /** Whatever has landed was planned. */
  lemma OnlyPlanned(all: Expected, remaining: Expected, transfer: seq<Entry>, got: set<Path>)
    requires AllValid(transfer) && ExpectedFrom(all, transfer) && Accounted(all, remaining, got)
    ensures got <= PathSet(transfer)
    ensures forall path :: path in remaining ==> remaining[path].path in PathSet(transfer)
  {
    forall q | q in got
      ensures q in PathSet(transfer)
    {
      var path :| path in all && all[path].path == q;
      assert all[path] in transfer;
    }
    forall path | path in remaining
      ensures remaining[path].path in PathSet(transfer)
    {
      assert all[path] in transfer;
    }
  }

  /** What is recorded: exactly the entries no longer expected, each once. */
  ghost predicate Filed(all: Expected, remaining: Expected, writes: seq<Entry>) {
    && Distinct(writes)
    && forall e :: e in writes <==> exists path :: path in all && path !in remaining && all[path] == e
  }

  lemma FiledMore(all: Expected, remaining: Expected, writes: seq<Entry>, path: string)
    requires Keyed(all) && Filed(all, remaining, writes) && path in remaining
    requires path in all && remaining[path] == all[path]
    ensures Filed(all, remaining - {path}, writes + [remaining[path]])
  {
    var e := remaining[path];
    forall other | other in all && all[other] == e
      ensures other == path
    {
      assert Render(all[other].path) == other;
    }
    assert e !in writes;
    forall x | x in writes
      ensures exists other :: other in all && other !in remaining - {path} && all[other] == x
    {
      var other :| other in all && other !in remaining && all[other] == x;
      assert other !in remaining - {path};
    }
    assert path !in remaining - {path};
    forall other | other in all && other !in remaining - {path}
      ensures all[other] in writes + [e]
    {
      if other != path { assert other !in remaining; }
    }
  }

  lemma FiledAll(all: Expected, transfer: seq<Entry>, writes: seq<Entry>)
    requires AllValid(transfer) && ExpectedFrom(all, transfer) && DistinctPaths(transfer) && Filed(all, map[], writes)
    ensures multiset(writes) == multiset(transfer)
  {
    forall e
      ensures e in writes <==> e in transfer
    {
      if e in transfer {
        SegmentsOfRender(e.path);
        SegmentsOfRender(all[Render(e.path)].path);
        assert all[Render(e.path)].path == e.path;
        assert all[Render(e.path)] == e;
      }
    }
    assert Distinct(transfer);
    SameMembers(writes, transfer);
  }

  lemma StepWhole(data: string, remaining: Expected, path: string, tail: string)
    requires Announced(data, path, tail) && path in remaining && remaining[path].size <= |tail|
    ensures Read(data, SizesOf(remaining))
      == After(Frame(path, tail[..remaining[path].size]),
               Read(tail[remaining[path].size..], SizesOf(remaining - {path})))
  {
    assert SizesOf(remaining - {path}) == SizesOf(remaining) - {path};
  }

  lemma StepShort(data: string, remaining: Expected, path: string, tail: string)
    requires Announced(data, path, tail) && path in remaining && |tail| < remaining[path].size
    ensures Read(data, SizesOf(remaining)) == Refuse(Io)
  {
  }

  lemma StepEnd(data: string, remaining: Expected)
    requires |data| >= 4 && DecodeU32(data[..4]) == 0
    ensures Read(data, SizesOf(remaining))
      == if remaining != map[] || |data| > 4 then Refuse(InvalidData) else Outcome(Ok(()), [])
  {
    assert SizesOf(remaining) == map[] <==> remaining == map[] by {
      assert SizesOf(remaining).Keys == remaining.Keys;
    }
  }

  /**
   One planned file: copy exactly its bytes off the stream, write it, record it. `refused` says that
   the workspace did not take it, by a fault or because its path is blocked.
   */
  method ReceiveFile(workspace: Workspace, tracker: Tracker, source: Source, entry: Entry, ghost incoming: Replica)
    returns (r: WriteOutcome, ghost refused: bool)
    requires !source.faulted && workspace.transfer.Fresh()
    requires entry.size <= |source.rest| ==>
      entry.path in incoming && incoming[entry.path] == File(entry.size, entry.mtime, source.rest[..entry.size])
    modifies source, workspace`files, workspace`dirs, tracker`writes
    modifies workspace.transfer.disk`staging, workspace.transfer.disk`trace, workspace.transfer.disk`faulted
    ensures workspace.transfer.Fresh()
    ensures NoFalseFault(old(workspace.transfer.disk.faulted), workspace.transfer.disk.faulted,
                         workspace.transfer.disk.reliable)
    ensures r.Written? ==>
      !source.faulted && entry.size <= |old(source.rest)| && source.rest == old(source.rest)[entry.size..]
    ensures r.Written? ==> !Blocked(old(workspace.Now()), entry.path)
    ensures r.Written? ==> WrittenBy(workspace.Now(), old(workspace.Now()), entry.path, incoming[entry.path])
    ensures r.Written? ==> tracker.writes == old(tracker.writes) + [entry]
    ensures r.Written? && Namespace(entry.path).Some? ==> workspace.files == old(workspace.files)
    ensures r.WriteFailed? ==> tracker.writes == old(tracker.writes)
    ensures r.WriteFailed? && !r.targetChanged ==> workspace.files == old(workspace.files)
    ensures r.WriteFailed? && !refused && !source.faulted ==> r.error == Io && |old(source.rest)| < entry.size
    ensures (r.WriteFailed? && !refused) || |old(source.rest)| < entry.size ==>
      r.WriteFailed? && !refused && workspace.Now() == old(workspace.Now())
    ensures refused || source.faulted ==> r.WriteFailed?
    ensures source.faulted ==> !source.reliable
    ensures refused ==> workspace.transfer.disk.faulted || Blocked(old(workspace.Now()), entry.path)
    ensures Meddles(workspace.files, old(workspace.files), incoming, entry.path, {})
  {
    refused := false;
    var window := new ExactSizeReader(source, entry.size);
    var content := window.CopyToFile();
    if content.Err? {
      return WriteFailed(Io, false), refused;
    }
    ghost var was := workspace.files;
    r := workspace.WriteFile(entry.path, File(entry.size, entry.mtime, content.value));
    assert r.Written? && Namespace(entry.path).None? ==> Get(workspace.files, entry.path) == Get(incoming, entry.path);
    MeddlesOnce(workspace.files, was, incoming, entry.path, {});
    if r.WriteFailed? {
      refused := true;
      return;
    }
    tracker.RecordWrite(entry);
  }

  lemma CarriesHead(f: Frame, rest: seq<Frame>, incoming: Replica, expected: Expected)
    requires Carries([f] + rest, incoming, expected)
    ensures CarriesOne(f, incoming, expected) && Carries(rest, incoming, expected)
  {
    assert ([f] + rest)[0] == f;
    forall i | 0 <= i < |rest|
      ensures CarriesOne(rest[i], incoming, expected)
    {
      assert ([f] + rest)[i + 1] == rest[i];
    }
  }

  lemma PrependMore(read: seq<Frame>, f: Frame, o: Outcome)
    ensures Prepend(read, After(f, o)) == Prepend(read + [f], o)
  {
    assert read + ([f] + o.written) == read + [f] + o.written;
  }

  /**
   The reader between two frames: the stream left, the files still expected, the frames read, the paths
   landed and the entries recorded.
   */
  datatype Place = Place(rest: string, remaining: Expected, read: seq<Frame>, got: set<Path>, recorded: seq<Entry>) {
    /** What the rest of the stream has in store. */
    ghost function Ahead(): Outcome { Read(rest, SizesOf(remaining)) }

    function Next(path: string, tail: string): Place
      requires path in remaining && remaining[path].size <= |tail|
    {
      var e := remaining[path];
      Place(tail[e.size..], remaining - {path}, read + [Frame(path, tail[..e.size])], got + {e.path}, recorded + [e])
    }
  }

  /** The planned paths of the frames read. */
  ghost function PathsRead(frames: seq<Frame>, all: Expected): set<Path> {
    set i | 0 <= i < |frames| && frames[i].path in all :: all[frames[i].path].path
  }

  lemma PathsReadMore(frames: seq<Frame>, f: Frame, all: Expected)
    requires f.path in all
    ensures PathsRead(frames + [f], all) == PathsRead(frames, all) + {all[f.path].path}
  {
    var more := frames + [f];
    assert more[|frames|] == f;
    forall p | p in PathsRead(frames, all)
      ensures p in PathsRead(more, all)
    {
      var i :| 0 <= i < |frames| && frames[i].path in all && all[frames[i].path].path == p;
      assert more[i] == frames[i];
    }
  }

  /** What a reader has to do: the stream, the plan and its expectations, the peer's files, the side at the start. */
  datatype Job = Job(data: string, transfer: seq<Entry>, all: Expected, incoming: Replica, start: Side) {
    ghost predicate Proper() { AllValid(transfer) && ExpectedFrom(all, transfer) }

    ghost function Verdict(): Outcome { Read(data, SizesOf(all)) }
  }

  /** Between two frames: the verdict so far, and what has landed. */
  ghost predicate Midway(job: Job, at: Place, now: Side) {
    match at
    case Place(_, _, _, _, _) =>
      && job.Proper() && job.Verdict() == Prepend(at.read, at.Ahead())
      && Carries(at.Ahead().written, job.incoming, job.all)
      && Accounted(job.all, at.remaining, at.got) && at.got == PathsRead(at.read, job.all)
      && Landed(at.got, job.incoming, now, job.start) && Smooth(at.got, job.start)
      && Filed(job.all, at.remaining, at.recorded)
  }

  lemma MidwayStarts(job: Job)
    requires job.Proper() && Carries(job.Verdict().written, job.incoming, job.all)
    ensures Midway(job, Place(job.data, job.all, [], {}, []), job.start)
  {
    NothingLanded(job.incoming, job.start);
  }

  /** The announced file is the peer's, or the stream ends too early and the verdict is a broken stream. */
  lemma NextContent(job: Job, at: Place, now: Side, path: string, tail: string)
    requires Midway(job, at, now) && Announced(at.rest, path, tail) && path in at.remaining
    ensures var e := at.remaining[path];
      if e.size <= |tail| then e.path in job.incoming && job.incoming[e.path] == File(e.size, e.mtime, tail[..e.size])
      else job.Verdict().result == Err(Io)
    ensures Render(at.remaining[path].path) == path
  {
    var e := at.remaining[path];
    if e.size <= |tail| {
      StepWhole(at.rest, at.remaining, path, tail);
      CarriesHead(Frame(path, tail[..e.size]), Read(tail[e.size..], SizesOf(at.remaining - {path})).written,
                  job.incoming, job.all);
    } else {
      StepShort(at.rest, at.remaining, path, tail);
    }
  }

  /** One more file read keeps the verdict in sight. */
  lemma VerdictStep(job: Job, at: Place, path: string, tail: string)
    requires job.Verdict() == Prepend(at.read, at.Ahead()) && Carries(at.Ahead().written, job.incoming, job.all)
    requires Announced(at.rest, path, tail) && path in at.remaining && at.remaining[path].size <= |tail|
    ensures var next := at.Next(path, tail);
      job.Verdict() == Prepend(next.read, next.Ahead()) && Carries(next.Ahead().written, job.incoming, job.all)
  {
    var next, f := at.Next(path, tail), Frame(path, tail[..at.remaining[path].size]);
    StepWhole(at.rest, at.remaining, path, tail);
    CarriesHead(f, next.Ahead().written, job.incoming, job.all);
    PrependMore(at.read, f, next.Ahead());
  }

  lemma AccountedStep(all: Expected, remaining: Expected, got: set<Path>, path: string)
    requires Accounted(all, remaining, got) && path in remaining
    ensures Accounted(all, remaining - {path}, got + {remaining[path].path})
  {
    assert all[path] == remaining[path];
  }

  lemma MidwayStep(job: Job, at: Place, now: Side, was: Side, path: string, tail: string)
    requires Midway(job, at, was)
    requires Announced(at.rest, path, tail) && path in at.remaining && at.remaining[path].size <= |tail|
    requires at.remaining[path].path in job.incoming && !Blocked(was, at.remaining[path].path)
    requires WrittenBy(now, was, at.remaining[path].path, job.incoming[at.remaining[path].path])
    ensures Midway(job, at.Next(path, tail), now)
  {
    var p := at.remaining[path].path;
    VerdictStep(job, at, path, tail);
    PathsReadMore(at.read, Frame(path, tail[..at.remaining[path].size]), job.all);
    AccountedStep(job.all, at.remaining, at.got, path);
    FiledMore(job.all, at.remaining, at.recorded, path);
    LandMore(at.got, p, job.incoming, now, was, job.start);
    SmoothMore(at.got, p, job.incoming, was, job.start);
  }

  /** An expected path that is blocked shows that the plan cannot be carried out. */
  lemma MidwayBlocked(job: Job, at: Place, was: Side, path: string)
    requires Midway(job, at, was) && path in at.remaining && Blocked(was, at.remaining[path].path)
    ensures !Smooth(PathSet(job.transfer), job.start)
  {
    OnlyPlanned(job.all, at.remaining, job.transfer, at.got);
    PlannedAreLasting(job.transfer);
    BlockedOnTheWay(at.got, PathSet(job.transfer), at.remaining[path].path, job.incoming, was, job.start);
  }

  /** A peer that sends the planned files, completely or cut short, carries its replica's files. */
  lemma PeerStreamCarries(frames: seq<Frame>, data: string, incoming: Replica, expected: Expected)
    requires Fits(frames, SizesOf(expected)) && Covers(frames, SizesOf(expected)) && Encodable(frames)
    requires data <= Encode(frames) && Carries(frames, incoming, expected)
    ensures Carries(Read(data, SizesOf(expected)).written, incoming, expected)
  {
    if data == Encode(frames) {
      RoundTrip(frames, SizesOf(expected));
    } else {
      CutStreamRefused(frames, data, SizesOf(expected));
    }
  }

  /** A writer's items are the expected entries, each once, in any order. */
  ghost predicate ItemsMatch(items: seq<Item>, expected: Expected) {
    && (forall i, j :: 0 <= i < j < |items| ==> items[i].path != items[j].path)
    && (forall i :: 0 <= i < |items| ==>
          items[i].path in expected && items[i].size == expected[items[i].path].size && WirePath(items[i].path))
    && (forall path :: path in expected ==> exists i :: 0 <= i < |items| && items[i].path == path)
  }

  /** The reader restores exactly what the writer sent in full, and refuses whatever a failed writer left. */
  lemma WrittenIsRead(items: seq<Item>, frames: seq<Frame>, data: string, expected: Expected, local: map<string,
                      string>)
    requires ItemsMatch(items, expected) && FramesFor(frames, items) && Encodable(frames)
    ensures AllSent(frames, items, local) && data == Encode(frames) ==>
      Read(data, SizesOf(expected)) == Outcome(Ok(()), frames)
    ensures data <= EncodeFrames(frames) ==> Read(data, SizesOf(expected)).result == Err(Io)
  {
    var sizes := SizesOf(expected);
    forall i | 0 <= i < |frames|
      ensures FitsOne(frames[i], sizes)
    {
      assert FrameFor(frames[i], items[i]);
    }
    assert forall i, j :: 0 <= i < j < |frames| ==> FrameFor(frames[i], items[i]) && FrameFor(frames[j], items[j]);
    assert Fits(frames, sizes);
    if AllSent(frames, items, local) && data == Encode(frames) {
      forall path | path in sizes
        ensures exists i :: 0 <= i < |frames| && frames[i].path == path
      {
        var i :| 0 <= i < |items| && items[i].path == path;
        assert FrameFor(frames[i], items[i]);
      }
      RoundTrip(frames, sizes);
    }
    if data <= EncodeFrames(frames) {
      CutStreamRefused(frames, data, sizes);
    }
  }

  datatype BundleResult = BundleRead(filesWritten: nat) | BundleFailed(error: SyncError, targetChanged: bool)

  /** The result is the one the stream calls for, and exactly the files it delivers in full have landed. */
  ghost predicate AsPrescribed(r: BundleResult, job: Job, now: Side) {
    && (if r.BundleRead? then job.Verdict().result.Ok? && r.filesWritten == |job.Verdict().written|
        else job.Verdict().result == Err(r.error))
    && Landed(PathsRead(job.Verdict().written, job.all), job.incoming, now, job.start)
  }

  ghost function JobOf(workspace: Workspace, transfer: seq<Entry>, data: string, incoming: Replica): Job
    requires AllValid(transfer)
    reads workspace, workspace.transfer, workspace.transfer.disk
  {
    Job(data, transfer, ExpectedOf(transfer), incoming, workspace.Now())
  }

  lemma MidwayRefused(job: Job, at: Place, now: Side, error: SyncError)
    requires Midway(job, at, now) && job.Verdict() == Outcome(Err(error), at.read)
    ensures forall changed :: AsPrescribed(BundleFailed(error, changed), job, now)
  {
  }

  /** At the terminator the verdict is out. */
  lemma VerdictAtEnd(job: Job, at: Place, now: Side)
    requires Midway(job, at, now) && |at.rest| >= 4 && DecodeU32(at.rest[..4]) == 0
    ensures job.Verdict()
      == Outcome(if at.remaining != map[] || |at.rest| > 4 then Err(InvalidData) else Ok(()), at.read)
  {
    StepEnd(at.rest, at.remaining);
  }

  lemma MidwayEnds(job: Job, at: Place, now: Side, filesWritten: nat)
    requires Midway(job, at, now) && |at.rest| >= 4 && DecodeU32(at.rest[..4]) == 0 && filesWritten == |at.read|
    ensures if at.remaining != map[] || |at.rest| > 4 then AsPrescribed(BundleFailed(InvalidData, false), job, now)
            else AsPrescribed(BundleRead(filesWritten), job, now)
  {
    VerdictAtEnd(job, at, now);
  }

  lemma EverythingLanded(job: Job, at: Place, now: Side)
    requires Midway(job, at, now) && at.remaining == map[]
    ensures Landed(PathSet(job.transfer), job.incoming, now, job.start) && Smooth(PathSet(job.transfer), job.start)
    ensures DistinctPaths(job.transfer) ==> multiset(at.recorded) == multiset(job.transfer)
  {
    AllLanded(job.all, job.transfer, at.got);
    if DistinctPaths(job.transfer) { FiledAll(job.all, job.transfer, at.recorded); }
  }

  /** One turn of the reader's loop: a file stored, the terminator, or a failure. */
  datatype Turned = Stored(path: string) | Ended | Stuck(error: SyncError, targetChanged: bool)

  /** Take the next frame off the stream; `refused` says that the workspace did not take its file. */
  method TakeFrame(workspace: Workspace, tracker: Tracker, source: Source, remaining: Expected, ghost job: Job,
                   ghost at: Place)
    returns (turned: Turned, ghost next: Place, ghost refused: bool)
    requires !source.faulted && workspace.transfer.Fresh() && source.rest == at.rest && remaining == at.remaining
    requires tracker.writes == at.recorded
    requires Midway(job, at, workspace.Now())
    requires Reported(workspace.files, job.start.files, false, tracker.writes, [], false)
    requires Left(workspace.files, job.start.files, job.incoming, job.transfer, 1)
    modifies source, workspace`files, workspace`dirs, tracker`writes
    modifies workspace.transfer.disk`staging, workspace.transfer.disk`trace, workspace.transfer.disk`faulted
    ensures workspace.transfer.Fresh()
    ensures NoFalseFault(old(workspace.transfer.disk.faulted), workspace.transfer.disk.faulted,
                         workspace.transfer.disk.reliable)
    ensures source.faulted || refused ==> turned.Stuck?
    ensures source.faulted ==> !source.reliable
    ensures !turned.Stuck? ==> tracker.writes == next.recorded
    ensures turned.Stored? ==> (source.rest == next.rest && |next.rest| < |at.rest| && |next.read| == |at.read| + 1
      && next.remaining == remaining - {turned.path})
    ensures !turned.Stuck? ==> Midway(job, next, workspace.Now())
    ensures !turned.Stored? ==> next == at
    ensures turned.Ended? ==> |at.rest| >= 4 && DecodeU32(at.rest[..4]) == 0 && source.rest == at.rest[4..]
    ensures turned.Stuck? && !source.faulted && !refused ==>
      job.Verdict() == Outcome(Err(turned.error), at.read) && Midway(job, at, workspace.Now())
    ensures at.Ahead().written == [] ==> !turned.Stored? && workspace.Now() == old(workspace.Now())
    ensures refused ==> workspace.transfer.disk.faulted || !Smooth(PathSet(job.transfer), job.start)
    ensures Reported(workspace.files, job.start.files, turned.Stuck? && turned.targetChanged, tracker.writes, [], false)
    ensures Left(workspace.files, job.start.files, job.incoming, job.transfer, 1)
  {
    refused, next := false, at;
    var head, path := NextEntry(source, remaining);
    if head.Err? {
      return Stuck(head.error, false), next, refused;
    }
    if head.value.None? {
      return Ended, next, refused;
    }
    var entry := head.value.value;
    ghost var tail, was, writes := source.rest, workspace.Now(), tracker.writes;
    NextContent(job, at, was, path, tail);
    var written, turnedDown := ReceiveFile(workspace, tracker, source, entry, job.incoming);
    refused := turnedDown;
    OnlyPlanned(job.all, at.remaining, job.transfer, at.got);
    LeftAlone(workspace.files, was.files, job.start.files, job.incoming, job.transfer, 1, entry.path);
    if written.WriteFailed? {
      if Blocked(was, entry.path) {
        MidwayBlocked(job, at, was, path);
      }
      return Stuck(written.error, written.targetChanged), next, refused;
    }
    ReportedStep(was.files, workspace.files, job.start.files, false, false, writes, tracker.writes, false, false,
                 entry);
    MidwayStep(job, at, workspace.Now(), was, path, tail);
    next := at.Next(path, tail);
    return Stored(Render(entry.path)), next, refused;
  }

  /** The reader's loop: frames until the terminator or a failure. */
  method TakeFrames(workspace: Workspace, tracker: Tracker, source: Source, transfer: seq<Entry>, ghost job: Job)
    returns (r: BundleResult, remaining: Expected, ghost at: Place, ghost refused: bool)
    requires !source.faulted && workspace.transfer.Fresh() && tracker.writes == []
    requires job.data == source.rest && job.start == workspace.Now() && job.transfer == transfer
    requires AllValid(transfer) && job.all == ExpectedOf(transfer)
    requires job.Proper() && Carries(job.Verdict().written, job.incoming, job.all)
    modifies source, workspace`files, workspace`dirs, tracker`writes
    modifies workspace.transfer.disk`staging, workspace.transfer.disk`trace, workspace.transfer.disk`faulted
    ensures workspace.transfer.Fresh()
    ensures NoFalseFault(old(workspace.transfer.disk.faulted), workspace.transfer.disk.faulted,
                         workspace.transfer.disk.reliable)
    ensures source.faulted || refused ==> r.BundleFailed?
    ensures source.faulted ==> !source.reliable
    ensures r.BundleRead? ==>
      Midway(job, at, workspace.Now()) && remaining == at.remaining && r.filesWritten == |at.read|
    ensures r.BundleRead? ==> |at.rest| >= 4 && DecodeU32(at.rest[..4]) == 0 && source.rest == at.rest[4..]
    ensures r.BundleFailed? && !source.faulted && !refused ==>
      job.Verdict() == Outcome(Err(r.error), at.read) && Midway(job, at, workspace.Now())
    ensures job.Verdict().written == [] ==> workspace.Now() == job.start
    ensures r.BundleRead? ==> tracker.writes == at.recorded
    ensures refused ==> workspace.transfer.disk.faulted || !Smooth(PathSet(job.transfer), job.start)
    ensures Reported(workspace.files, job.start.files, r.BundleFailed? && r.targetChanged, tracker.writes, [], false)
    ensures Left(workspace.files, job.start.files, job.incoming, transfer, 1)
  {
    remaining := Expect(transfer);
    at, refused := Place(source.rest, remaining, [], {}, []), false;
    MidwayStarts(job);
    var filesWritten: nat := 0;
    while true
      invariant !source.faulted && !refused && workspace.transfer.Fresh()
      invariant source.rest == at.rest && remaining == at.remaining && filesWritten == |at.read|
      invariant Midway(job, at, workspace.Now()) && tracker.writes == at.recorded
      invariant job.Verdict().written == [] ==> at.read == [] && workspace.Now() == job.start
      invariant Reported(workspace.files, job.start.files, false, tracker.writes, [], false)
      invariant Left(workspace.files, job.start.files, job.incoming, transfer, 1)
      invariant NoFalseFault(old(workspace.transfer.disk.faulted), workspace.transfer.disk.faulted,
                             workspace.transfer.disk.reliable)
      decreases |source.rest|
    {
      var turned;
      turned, at, refused := TakeFrame(workspace, tracker, source, remaining, job, at);
      match turned {
        case Stored(path) =>
          remaining := remaining - {path};
          filesWritten := filesWritten + 1;
        case Ended =>
          return BundleRead(filesWritten), remaining, at, refused;
        case Stuck(error, targetChanged) =>
          return BundleFailed(error, targetChanged), remaining, at, refused;
      }
    }
  }

  /** The checks once the terminator has come: no file is missing, and the stream ends. */
  method CloseBundle(source: Source, remaining: Expected, filesWritten: nat, ghost job: Job, ghost at: Place,
                     ghost now: Side)
    returns (r: BundleResult)
    requires !source.faulted && Midway(job, at, now) && remaining == at.remaining && filesWritten == |at.read|
    requires |at.rest| >= 4 && DecodeU32(at.rest[..4]) == 0 && source.rest == at.rest[4..]
    modifies source
    ensures source.faulted ==> r.BundleFailed? && !source.reliable
    ensures r.BundleFailed? ==> !r.targetChanged
    ensures !source.faulted ==> AsPrescribed(r, job, now)
    ensures r.BundleRead? ==> remaining == map[]
  {
    MidwayEnds(job, at, now, filesWritten);
    if remaining != map[] {
      return BundleFailed(InvalidData, false);
    }
    var end := source.ExpectEof();
    return if end.Err? then BundleFailed(end.error, false) else BundleRead(filesWritten);
  }

  /**
   `write_bundle_to_workspace`, and the loop of `bundle_upload`. Without faults the verdict is the
   one the format prescribes, whatever the chunks, unless a planned path is blocked; success means
   every planned file has landed; a failure that changed the visible tree is flagged or recorded,
   and leaves each file old or as planned but perhaps for its time.
   */
  method WriteBundleToWorkspace(workspace: Workspace, tracker: Tracker, transfer: seq<Entry>, source: Source,
                                ghost incoming: Replica)
    returns (r: BundleResult, ghost refused: bool)
    requires AllValid(transfer)
    requires !source.faulted && workspace.transfer.Fresh() && tracker.writes == []
    requires Carries(Read(source.rest, SizesOf(ExpectedOf(transfer))).written, incoming, ExpectedOf(transfer))
    modifies source, workspace`files, workspace`dirs, tracker`writes
    modifies workspace.transfer.disk`staging, workspace.transfer.disk`trace, workspace.transfer.disk`faulted
    ensures workspace.transfer.Fresh()
    ensures NoFalseFault(old(workspace.transfer.disk.faulted), workspace.transfer.disk.faulted,
                         workspace.transfer.disk.reliable)
    ensures r.BundleRead? ==> Landed(PathSet(transfer), incoming, workspace.Now(), old(workspace.Now()))
    ensures r.BundleRead? ==> Smooth(PathSet(transfer), old(workspace.Now()))
    ensures r.BundleRead? && DistinctPaths(transfer) ==> multiset(tracker.writes) == multiset(transfer)
    ensures !source.faulted && !refused ==>
      AsPrescribed(r, old(JobOf(workspace, transfer, source.rest, incoming)), workspace.Now())
    ensures source.faulted || refused ==> r.BundleFailed?
    ensures source.faulted ==> !source.reliable
    ensures old(Read(source.rest, SizesOf(ExpectedOf(transfer)))).written == [] ==>
      workspace.Now() == old(workspace.Now())
    ensures refused ==> workspace.transfer.disk.faulted || !Smooth(PathSet(transfer), old(workspace.Now()))
    ensures Reported(workspace.files, old(workspace.files), r.BundleFailed? && r.targetChanged, tracker.writes, [],
                     false)
    ensures Left(workspace.files, old(workspace.files), incoming, transfer, 1)
  {
    ExpectedOfMeaning(transfer);
    ghost var job := JobOf(workspace, transfer, source.rest, incoming);
    var remaining;
    ghost var at;
    r, remaining, at, refused := TakeFrames(workspace, tracker, source, transfer, job);
    if r.BundleFailed? {
      if !source.faulted && !refused { MidwayRefused(job, at, workspace.Now(), r.error); }
      return;
    }
    r := CloseBundle(source, remaining, r.filesWritten, job, at, workspace.Now());
    if r.BundleRead? { EverythingLanded(job, at, workspace.Now()); }
  }
}
