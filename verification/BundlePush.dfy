/** A push by the bundle route: the client's writer, the server's reader, and what the client reports. */
module BundlePush {
  import opened Wrappers
  import opened Paths
  import opened Policy
  import opened Manifest
  import opened Planner
  import opened Sync
  import opened Publish
  import opened BundleCodec
  import opened BundleStream
  import opened Engine
  import opened BundleReader
  import opened Pull
  import opened Push

  /** The plan's files can be named on the wire, each once. */
  ghost predicate WirePlan(transfer: seq<Entry>) {
    && DistinctPaths(transfer)
    && forall e :: e in transfer ==> ValidPath(e.path) && WirePath(Render(e.path))
  }

  function ItemOf(e: Entry): Item { Item(TextOf(e.path), e.size) }

  function ItemsOf(transfer: seq<Entry>): (items: seq<Item>)
    ensures |items| == |transfer| && forall i :: 0 <= i < |items| ==> items[i] == ItemOf(transfer[i])
  {
    seq(|transfer|, i requires 0 <= i < |transfer| => ItemOf(transfer[i]))
  }

  /** The file the stream carries for an entry: the local bytes, as many as planned. */
  ghost function Carried(e: Entry, disk: map<string, string>): File {
    File(e.size, e.mtime, Planned(ItemOf(e), disk))
  }

  ghost function Incoming(transfer: seq<Entry>, disk: map<string, string>): Replica {
    map p | p in PathSet(transfer) && LastFor(transfer, p).Some? :: Carried(LastFor(transfer, p).value, disk)
  }

  lemma IncomingAt(transfer: seq<Entry>, disk: map<string, string>, i: nat)
    requires DistinctPaths(transfer) && i < |transfer|
    ensures transfer[i].path in Incoming(transfer, disk)
    ensures Incoming(transfer, disk)[transfer[i].path] == Carried(transfer[i], disk)
  {
    LastForMeaning(transfer, transfer[i].path);
  }

  lemma IncomingServes(transfer: seq<Entry>, disk: map<string, string>)
    requires DistinctPaths(transfer)
    ensures Serves(Incoming(transfer, disk), transfer)
  {
    forall i | 0 <= i < |transfer|
      ensures ServesOne(Incoming(transfer, disk), transfer[i])
    {
      IncomingAt(transfer, disk, i);
    }
  }

  // ---------------------------------------------------------------- what the stream carries

  /** The writer's frames answer the plan. */
  lemma FramesAnswer(frames: seq<Frame>, transfer: seq<Entry>)
    requires WirePlan(transfer) && AllValid(transfer) && FramesFor(frames, ItemsOf(transfer))
    ensures Fits(frames, SizesOf(ExpectedOf(transfer)))
    ensures |frames| == |transfer| ==> Covers(frames, SizesOf(ExpectedOf(transfer)))
  {
    var all, items := ExpectedOf(transfer), ItemsOf(transfer);
    ExpectedOfMeaning(transfer);
    forall i | 0 <= i < |frames|
      ensures FitsOne(frames[i], SizesOf(all))
    {
      assert FrameFor(frames[i], items[i]) && transfer[i] in transfer;
      ExpectedAt(transfer, i);
    }
    forall i, j | 0 <= i < j < |frames|
      ensures frames[i].path != frames[j].path
    {
      assert FrameFor(frames[i], items[i]) && FrameFor(frames[j], items[j]);
      assert transfer[i] in transfer && transfer[j] in transfer;
      SegmentsOfRender(transfer[i].path);
      SegmentsOfRender(transfer[j].path);
    }
    if |frames| == |transfer| {
      forall path | path in all
        ensures exists i :: 0 <= i < |frames| && frames[i].path == path
      {
        var i :| 0 <= i < |transfer| && transfer[i] == all[path];
        assert FrameFor(frames[i], items[i]);
      }
    }
  }

  /** A planned entry is expected under its wire path. */
  lemma ExpectedAt(transfer: seq<Entry>, i: nat)
    requires DistinctPaths(transfer) && AllValid(transfer) && i < |transfer|
    ensures Render(transfer[i].path) in ExpectedOf(transfer)
    ensures ExpectedOf(transfer)[Render(transfer[i].path)] == transfer[i]
  {
    ExpectedOfMeaning(transfer);
    var e := ExpectedOf(transfer)[Render(transfer[i].path)];
    SegmentsOfRender(e.path);
    SegmentsOfRender(transfer[i].path);
    var j :| 0 <= j < |transfer| && transfer[j] == e;
  }

  /** However much of the writer's stream gets through, the files in it are the planned ones with the local bytes. */
  lemma StreamCarries(frames: seq<Frame>, data: string, transfer: seq<Entry>, disk: map<string, string>)
    requires WirePlan(transfer) && AllValid(transfer)
    requires FramesFor(frames, ItemsOf(transfer)) && Encodable(frames)
    requires forall i :: 0 <= i < |frames| ==> frames[i].content == Planned(ItemsOf(transfer)[i], disk)
    requires data <= EncodeFrames(frames) || (|frames| == |transfer| && data <= Encode(frames))
    ensures Carries(Read(data, SizesOf(ExpectedOf(transfer))).written, Incoming(transfer, disk), ExpectedOf(transfer))
    ensures Read(data, SizesOf(ExpectedOf(transfer))).result.Ok? ==> data == Encode(frames) && |frames| == |transfer|
  {
    var sizes := SizesOf(ExpectedOf(transfer));
    FramesAnswer(frames, transfer);
    if data == Encode(frames) { RoundTrip(frames, sizes); } else { CutStreamRefused(frames, data, sizes); }
    var written := Read(data, sizes).written;
    forall i | 0 <= i < |written|
      ensures CarriesOne(written[i], Incoming(transfer, disk), ExpectedOf(transfer))
    {
      assert written[i] == frames[i] && FrameFor(frames[i], ItemsOf(transfer)[i]);
      ExpectedAt(transfer, i);
      IncomingAt(transfer, disk, i);
    }
  }

  // ---------------------------------------------------------------- a first file that changed

  /** All planned bytes of the item go out although it is refused: the file has grown, or an empty one is gone. */
  predicate Slips(item: Item, disk: map<string, string>) {
    && |item.path| <= MAX_BUNDLE_PATH_LEN
    && if item.path in disk then |disk[item.path]| > item.size else item.size == 0
  }

  /** The frame the writer makes for an entry. */
  ghost function FrameOf(e: Entry, disk: map<string, string>): Frame { Frame(ItemOf(e).path, Planned(ItemOf(e), disk)) }

  lemma FirstWhole(data: string, item: Item, disk: map<string, string>, sizes: Sizes)
    requires Slips(item, disk) && FitsOne(Frame(item.path, Planned(item, disk)), sizes)
    requires data == Header(item.path) + SentPart(item, disk)
    ensures Read(data, sizes) == Outcome(Err(Io), [Frame(item.path, Planned(item, disk))])
  {
    var f := Frame(item.path, Planned(item, disk));
    assert f.content == SentPart(item, disk);
    assert data == EncodeFrame(f) + "";
    ReadFrame(f, "", sizes);
  }

  lemma FirstCut(data: string, item: Item, disk: map<string, string>, sizes: Sizes)
    requires !Slips(item, disk) && !Sendable(item, disk) && FitsOne(Frame(item.path, Planned(item, disk)), sizes)
    requires data == Header(item.path) + SentPart(item, disk)
    requires data <= EncodeFrame(Frame(item.path, Planned(item, disk)))
    ensures Read(data, sizes) == Refuse(Io)
  {
    var f := Frame(item.path, Planned(item, disk));
    assert |data| < |EncodeFrame(f)|;
    assert data == EncodeFrame(f)[..|data|];
    ReadCutFrame(f, |data|, sizes);
  }

  /** What of the first item gets through: the whole file if it slips, and nothing otherwise. */
  lemma FirstSlips(data: string, transfer: seq<Entry>, disk: map<string, string>)
    requires WirePlan(transfer) && AllValid(transfer) && transfer != []
    requires FirstBrokeOff(data, ItemOf(transfer[0]), disk, false)
    ensures Read(data, SizesOf(ExpectedOf(transfer)))
      == if Slips(ItemOf(transfer[0]), disk) then Outcome(Err(Io), [FrameOf(transfer[0], disk)]) else Refuse(Io)
  {
    var item, sizes := ItemOf(transfer[0]), SizesOf(ExpectedOf(transfer));
    assert transfer[0] in transfer;
    ExpectedAt(transfer, 0);
    if Slips(item, disk) {
      FirstWhole(data, item, disk, sizes);
    } else if |item.path| <= MAX_BUNDLE_PATH_LEN {
      FirstCut(data, item, disk, sizes);
    }
  }

  // ---------------------------------------------------------------- the upload

  /**
   The upload request: the server reads what gets through. `astray` says that something failed on
   the way; without that the server has seen the whole stream and its answer came back.
   */
  method SendBundle(remote: Workspace, transfer: seq<Entry>, data: string, ghost incoming: Replica)
    returns (r: Result<()>, ghost astray: bool)
    requires AllValid(transfer) && remote.transfer.Fresh()
    requires forall part :: part <= data ==> BundleServes(part, incoming, transfer)
    modifies remote`files, remote`dirs
    modifies remote.transfer.disk`staging, remote.transfer.disk`trace, remote.transfer.disk`faulted
    ensures remote.transfer.Fresh()
    ensures NoFalseFault(old(remote.transfer.disk.faulted), remote.transfer.disk.faulted, remote.transfer.disk.reliable)
    ensures remote.transfer.disk.faulted ==> astray
    ensures astray ==> old(remote.transfer.disk.faulted) || !remote.transfer.disk.reliable
    ensures r.Ok? ==> Landed(PathSet(transfer), incoming, remote.Now(), old(remote.Now()))
    ensures r.Ok? ==> Smooth(PathSet(transfer), old(remote.Now()))
    ensures r.Ok? ==> exists part :: part <= data && Read(part, SizesOf(ExpectedOf(transfer))).result.Ok?
    ensures r.Err? ==>
      astray || Read(data, SizesOf(ExpectedOf(transfer))).result.Err? || !Smooth(PathSet(transfer), old(remote.Now()))
    ensures !astray && Read(data, SizesOf(ExpectedOf(transfer))).written == [] ==> remote.Now() == old(remote.Now())
    ensures !astray && Smooth(PathSet(transfer), old(remote.Now())) ==>
      Landed(PathsRead(Read(data, SizesOf(ExpectedOf(transfer))).written, ExpectedOf(transfer)), incoming, remote.Now(),
             old(remote.Now()))
    ensures Left(remote.files, old(remote.files), incoming, transfer, 1)
  {
    var refused := FaultUnless(remote.transfer.disk.reliable);
    var cut := FaultUnless(remote.transfer.disk.reliable);
    var lost := FaultUnless(remote.transfer.disk.reliable);
    astray := refused || cut || lost || remote.transfer.disk.faulted;
    if refused {
      return Err(Io), astray;
    }
    var n: nat :| n <= |data| && (cut || n == |data|);
    ghost var part, start := data[..n], remote.Now();
    assert BundleServes(part, incoming, transfer) && (n == |data| ==> part == data);
    var stream := new Source(data[..n], remote.transfer.disk.reliable);
    var tracker := new Tracker();
    var received, turnedDown := WriteBundleToWorkspace(remote, tracker, transfer, stream, incoming);
    astray := astray || stream.faulted || remote.transfer.disk.faulted;
    if received.BundleFailed? {
      return Err(received.error), astray;
    }
    return if lost then Err(Io) else Ok(()), astray;
  }

  ghost predicate AllSendable(transfer: seq<Entry>, disk: map<string, string>) {
    forall e :: e in transfer ==> Sendable(ItemOf(e), disk)
  }

  /** A failure that does not flag the remote: what it means for the remote depends on the first file alone. */
  ghost predicate Unflagged(transfer: seq<Entry>, disk: map<string, string>, now: Side, start: Side) {
    && transfer != []
    && (!Slips(ItemOf(transfer[0]), disk) ==> now == start)
    && (Slips(ItemOf(transfer[0]), disk) && Smooth(PathSet(transfer), start) ==>
          Landed({transfer[0].path}, Incoming(transfer, disk), now, start))
  }

  lemma FirstLanded(transfer: seq<Entry>, disk: map<string, string>)
    requires WirePlan(transfer) && AllValid(transfer) && transfer != []
    ensures PathsRead([FrameOf(transfer[0], disk)], ExpectedOf(transfer)) == {transfer[0].path}
  {
    assert transfer[0] in transfer;
    ExpectedAt(transfer, 0);
    assert [FrameOf(transfer[0], disk)][0].path in ExpectedOf(transfer);
  }

  lemma OnlyTheFirst(transfer: seq<Entry>, disk: map<string, string>, read: Outcome, now: Side, start: Side)
    requires WirePlan(transfer) && AllValid(transfer) && transfer != []
    requires read.written == if Slips(ItemOf(transfer[0]), disk) then [FrameOf(transfer[0], disk)] else []
    requires read.written == [] ==> now == start
    requires Smooth(PathSet(transfer), start) ==>
      Landed(PathsRead(read.written, ExpectedOf(transfer)), Incoming(transfer, disk), now, start)
    ensures Unflagged(transfer, disk, now, start)
  {
    FirstLanded(transfer, disk);
  }

  lemma PartsCarry(frames: seq<Frame>, data: string, transfer: seq<Entry>, disk: map<string, string>)
    requires WirePlan(transfer) && AllValid(transfer)
    requires FramesFor(frames, ItemsOf(transfer)) && Encodable(frames)
    requires forall i :: 0 <= i < |frames| ==> frames[i].content == Planned(ItemsOf(transfer)[i], disk)
    requires data <= EncodeFrames(frames) || (|frames| == |transfer| && data <= Encode(frames))
    ensures forall part :: part <= data ==> BundleServes(part, Incoming(transfer, disk), transfer)
  {
    forall part | part <= data
      ensures BundleServes(part, Incoming(transfer, disk), transfer)
    {
      StreamCarries(frames, part, transfer, disk);
    }
  }

  /** A complete stream is accepted, and every planned file was fit to be sent. */
  lemma SentAll(frames: seq<Frame>, transfer: seq<Entry>, disk: map<string, string>)
    requires WirePlan(transfer) && AllValid(transfer)
    requires FramesFor(frames, ItemsOf(transfer)) && AllSent(frames, ItemsOf(transfer), disk)
    ensures AllSendable(transfer, disk)
    ensures Encodable(frames) && Read(Encode(frames), SizesOf(ExpectedOf(transfer))).result.Ok?
  {
    FramesAnswer(frames, transfer);
    RoundTrip(frames, SizesOf(ExpectedOf(transfer)));
    forall e | e in transfer
      ensures Sendable(ItemOf(e), disk)
    {
      var i :| 0 <= i < |transfer| && transfer[i] == e;
      assert SentWhole(frames[i], ItemsOf(transfer)[i], disk);
    }
  }

  /** The writer's part of an upload: what goes into the pipe, and how far the writer got. */
  method StreamOut(transfer: seq<Entry>, disk: map<string, string>, reliable: bool)
    returns (sent: Result<()>, filesDone: nat, data: string, ghost broken: bool)
    requires WirePlan(transfer) && AllValid(transfer) && transfer != []
    ensures broken ==> !reliable
    ensures forall part :: part <= data ==> BundleServes(part, Incoming(transfer, disk), transfer)
    ensures sent.Ok? ==> filesDone == |transfer| && AllSendable(transfer, disk)
    ensures sent.Ok? ==> Read(data, SizesOf(ExpectedOf(transfer))).result.Ok?
    ensures sent.Err? ==> broken || !AllSendable(transfer, disk)
    ensures Slips(ItemOf(transfer[0]), disk) ==> sent.Err? && filesDone == 0
    ensures sent.Err? && filesDone == 0 && !broken ==>
      Read(data, SizesOf(ExpectedOf(transfer)))
      == if Slips(ItemOf(transfer[0]), disk) then Outcome(Err(Io), [FrameOf(transfer[0], disk)]) else Refuse(Io)
  {
    var items := ItemsOf(transfer);
    var out := new Out(reliable);
    assert forall i :: 0 <= i < |items| ==> transfer[i] in transfer && items[i].path != "";
    ghost var unread, frames;
    sent, filesDone, unread, frames := WriteBundle(out, items, disk);
    data, broken := out.data, unread || out.broken;
    PartsCarry(frames, data, transfer, disk);
    if sent.Ok? {
      SentAll(frames, transfer, disk);
    } else if filesDone == 0 && !broken {
      FirstSlips(data, transfer, disk);
    }
  }

  /**
   `upload_bundle`. Success means that every planned file has arrived with the local bytes. A
   failure counts as a possible remote change once one file's turn is over, so a first file that
   slips goes unreported: without faults an unflagged failure left the remote alone exactly when
   the first planned file does not slip.
   */
  method UploadBundle(remote: Workspace, transfer: seq<Entry>, disk: map<string, string>)
    returns (r: UploadResult, ghost astray: bool)
    requires WirePlan(transfer) && AllValid(transfer) && transfer != [] && remote.transfer.Fresh()
    modifies remote`files, remote`dirs
    modifies remote.transfer.disk`staging, remote.transfer.disk`trace, remote.transfer.disk`faulted
    ensures remote.transfer.Fresh()
    ensures NoFalseFault(old(remote.transfer.disk.faulted), remote.transfer.disk.faulted, remote.transfer.disk.reliable)
    ensures remote.transfer.disk.faulted ==> astray
    ensures astray ==> old(remote.transfer.disk.faulted) || !remote.transfer.disk.reliable
    ensures r.Uploaded? ==> AllSendable(transfer, disk) && Smooth(PathSet(transfer), old(remote.Now()))
    ensures r.Uploaded? ==> Landed(PathSet(transfer), Incoming(transfer, disk), remote.Now(), old(remote.Now()))
    ensures r.UploadFailed? ==> astray || !AllSendable(transfer, disk) || !Smooth(PathSet(transfer), old(remote.Now()))
    ensures Slips(ItemOf(transfer[0]), disk) ==> r.UploadFailed? && !r.remoteMaybeChanged
    ensures r.UploadFailed? && !r.remoteMaybeChanged && !astray ==>
      Unflagged(transfer, disk, remote.Now(), old(remote.Now()))
    ensures Left(remote.files, old(remote.files), Incoming(transfer, disk), transfer, 1)
  {
    ghost var start := remote.Now();
    var sent, filesDone, data, broken := StreamOut(transfer, disk, remote.transfer.disk.reliable);
    var uploaded, wayward := SendBundle(remote, transfer, data, Incoming(transfer, disk));
    astray := broken || wayward;
    if sent.Err? && filesDone == 0 && !astray {
      OnlyTheFirst(transfer, disk, Read(data, SizesOf(ExpectedOf(transfer))), remote.Now(), start);
    }
    if uploaded.Err? {
      return UploadFailed(uploaded.error, filesDone > 0), astray;
    }
    if sent.Err? {
      return UploadFailed(sent.error, filesDone > 0), astray;
    }
    return Uploaded, astray;
  }

  /**
   `apply_push_plan` by the bundle route, which is taken for plans that send something. Success
   leaves every path of the remote exactly as planned, with the local bytes; it fails only if
   something goes astray, a local file is no longer as planned, or a path hinders it. Finished or
   not, it leaves each file old, planned or deleted, and each namespace whole.
   */
  method ApplyBundlePush(remote: Workspace, plan: Plan, mode: SyncMode, disk: map<string, string>)
    returns (r: UploadResult, ghost astray: bool)
    requires WirePlan(plan.transfer) && AllValid(plan.transfer) && plan.transfer != []
    requires DisjointFrom(plan.delete, plan.transfer) && TableShaped(remote.table)
    requires remote.transfer.Fresh() && remote.transfer.disk.staging == map[]
    requires GroupsOf(remote.transfer.groups, plan.transfer, plan.delete)
    modifies remote`files, remote`dirs
    modifies remote.transfer`applied, remote.transfer`rollbackFailed, remote.transfer.disk
    ensures r.Uploaded? ==> AllSendable(plan.transfer, disk) && Smooth(PathSet(plan.transfer), old(remote.Now()))
    ensures r.Uploaded? ==>
      ShowsPulled(remote.files, remote.transfer.disk.root, old(remote.files), old(remote.transfer.disk.root),
                  Incoming(plan.transfer, disk), plan, mode, remote.transfer.disk.misread)
    ensures r.Uploaded? ==> AllRemovable(remote.table, DeletesOf(plan, mode))
    ensures astray ==> old(remote.transfer.disk.faulted) || !remote.transfer.disk.reliable
    ensures remote.transfer.SlipsAreFaults() && (remote.transfer.disk.faulted ==> astray)
    ensures r.UploadFailed? ==>
      astray || !AllSendable(plan.transfer, disk) || !Unhindered(plan, mode, remote.table, old(remote.Now()))
    ensures r.UploadFailed? && !r.remoteMaybeChanged && !astray ==>
      Unflagged(plan.transfer, disk, remote.Now(),
                old(remote.Now())) && remote.transfer.disk.root == old(remote.transfer.disk.root)
    ensures FilesLeft(remote.files, old(remote.files), Incoming(plan.transfer, disk), plan, mode, 1)
    ensures InOrder(remote.files, remote.transfer.disk.root, old(remote.files), old(remote.transfer.disk.root),
                    Incoming(plan.transfer, disk), plan, mode)
    ensures NamespacesLeft(remote.transfer.disk.root, old(remote.transfer.disk.root), Incoming(plan.transfer, disk),
                           plan, remote.transfer.rollbackFailed)
    ensures remote.transfer.rollbackFailed ==>
      TwiceRefused(old(remote.transfer.disk.refused), remote.transfer.disk.refused)
  {
    ghost var start, incoming := remote.Now(), Incoming(plan.transfer, disk);
    r, astray := UploadBundle(remote, plan.transfer, disk);
    if r.UploadFailed? {
      LeftThenThinned(remote.files, remote.files, start.files, incoming, plan, mode, 1);
      NothingGone(remote.files, remote.transfer.disk.root, start.files, incoming, plan, mode, 1);
      return;
    }
    IncomingServes(plan.transfer, disk);
    ghost var half := Halfway(start, remote.Now());
    var committed := CommitPlan(remote, plan.delete, mode, plan, incoming, half);
    LeftThenThinned(remote.files, half.landed.files, start.files, incoming, plan, mode, 1);
    var lost := FaultUnless(remote.transfer.disk.reliable);
    astray := astray || lost || remote.transfer.disk.faulted;
    if committed.Err? || lost {
      r := UploadFailed(if committed.Err? then committed.error else Io, true);
    }
  }
}
