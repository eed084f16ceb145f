/**
 Byte streams that arrive in arbitrary chunks, the readers and copy loops over them, and the
 bundle writer of both sides.
 */
module BundleStream {
  import opened Wrappers
  import opened BundleCodec

  const BUNDLE_STREAM_BUFFER_SIZE: nat := 64 * 1024

  /**
   The peer's stream: the bytes still to come, handed out in chunks of any size. A fault ends it with an
   error; a `reliable` stream has none.
   */
  class Source {
    const reliable: bool
    var rest: string
    ghost var faulted: bool

    constructor (data: string, reliable: bool)
      ensures rest == data && !faulted && this.reliable == reliable
    {
      this.reliable := reliable;
      rest, faulted := data, false;
    }

    /** `read`: some bytes, at least one unless nothing was asked for or the stream has ended. */
    method Read(max: nat) returns (r: Result<string>)
      requires !faulted
      modifies this
      ensures (r.Err? <==> faulted) && (faulted ==> !reliable)
      ensures r.Err? ==> r.error == Io && rest == old(rest)
      ensures r.Ok? ==> old(rest) == r.value + rest && |r.value| <= max
      ensures r.Ok? && r.value == "" ==> max == 0 || rest == ""
    {
      var fault := FaultUnless(reliable);
      if fault {
        faulted := true;
        return Err(Io);
      }
      var n: nat :| n <= max && n <= |rest| && (n == 0 ==> max == 0 || rest == "");
      r := Ok(rest[..n]);
      assert rest == rest[..n] + rest[n..];
      rest := rest[n..];
    }

    /** `read_exact`. */
    method ReadExact(n: nat) returns (r: Result<string>)
      requires !faulted
      modifies this
      ensures faulted ==> r == Err(Io) && !reliable
      ensures !faulted ==> if n <= |old(rest)| then r == Ok(old(rest)[..n]) && rest == old(rest)[n..] else r == Err(Io)
    {
      var got := "";
      while |got| < n
        invariant !faulted && |got| <= n && old(rest) == got + rest
        decreases n - |got|
      {
        var chunk :- Read(n - |got|);
        if chunk == "" {
          return Err(Io);
        }
        got := got + chunk;
      }
      return Ok(got);
    }

    /** `read_u32_be`. */
    method ReadU32() returns (r: Result<nat>)
      requires !faulted
      modifies this
      ensures faulted ==> r == Err(Io) && !reliable
      ensures !faulted ==>
        if 4 <= |old(rest)| then r == Ok(DecodeU32(old(rest)[..4])) && rest == old(rest)[4..] else r == Err(Io)
    {
      var bytes :- ReadExact(4);
      return Ok(DecodeU32(bytes));
    }

    /** `expect_eof`. */
    method ExpectEof() returns (r: Result<()>)
      requires !faulted
      modifies this
      ensures faulted ==> r == Err(Io) && !reliable
      ensures !faulted ==> r == if old(rest) == "" then Ok(()) else Err(InvalidData)
    {
      var extra :- Read(1);
      return if extra == "" then Ok(()) else Err(InvalidData);
    }
  }

  function Min(a: nat, b: nat): nat { if a <= b then a else b }

  /** `ExactSizeReader`: a window of exactly `remaining` bytes on the stream. */
  class ExactSizeReader {
    const inner: Source
    var remaining: nat

    constructor (inner: Source, size: nat)
      ensures this.inner == inner && remaining == size
    {
      this.inner, remaining := inner, size;
    }

    /** `poll_read` into a buffer with `max` free bytes: an end of stream before the last byte is an error. */
    method PollRead(max: nat) returns (r: Result<string>)
      requires !inner.faulted
      modifies this`remaining, inner
      ensures r.Ok? ==> !inner.faulted && old(inner.rest) == r.value + inner.rest && |r.value| <= max
      ensures r.Ok? ==> remaining == old(remaining) - |r.value|
      ensures r.Ok? && r.value == "" ==> remaining == 0 || max == 0
      ensures r.Err? ==> r.error == Io && inner.rest == old(inner.rest) && remaining == old(remaining)
      ensures r.Err? && !inner.faulted ==> inner.rest == "" && remaining > 0
      ensures inner.faulted ==> !inner.reliable
    {
      if remaining == 0 {
        return Ok("");
      }
      var limit := Min(remaining, max);
      if limit == 0 {
        return Ok("");
      }
      var chunk :- inner.Read(limit);
      if chunk == "" {
        return Err(Io);
      }
      remaining := remaining - |chunk|;
      return Ok(chunk);
    }

    /** `copy_to_file`: drain the window through a buffer. The outcome does not depend on the chunks. */
    method CopyToFile() returns (r: Result<string>)
      requires !inner.faulted
      modifies this`remaining, inner
      ensures inner.faulted ==> r == Err(Io) && !inner.reliable
      ensures !inner.faulted ==>
        if old(remaining) <= |old(inner.rest)|
        then r == Ok(old(inner.rest)[..old(remaining)]) && inner.rest == old(inner.rest)[old(remaining)..]
        else r == Err(Io)
    {
      var file := "";
      while true
        invariant !inner.faulted && old(inner.rest) == file + inner.rest
        invariant remaining + |file| == old(remaining)
        decreases remaining
      {
        var chunk :- PollRead(BUNDLE_STREAM_BUFFER_SIZE);
        if chunk == "" {
          assert old(inner.rest)[..|file|] == file;
          return Ok(file);
        }
        file := file + chunk;
      }
    }
  }

  // ---------------------------------------------------------------- writing

  /** The writing end of the pipe: unless it is reliable a write may break off anywhere, and then the pipe is gone. */
  class Out {
    const reliable: bool
    var data: string
    ghost var broken: bool

    constructor (reliable: bool)
      ensures data == "" && !broken && this.reliable == reliable
    {
      this.reliable := reliable;
      data, broken := "", false;
    }

    method WriteAll(s: string) returns (r: Result<()>)
      requires !broken
      modifies this
      ensures (r.Err? <==> broken) && (broken ==> !reliable)
      ensures r.Ok? ==> data == old(data) + s
      ensures r.Err? ==> r.error == Io && old(data) <= data <= old(data) + s
    {
      var fault := FaultUnless(reliable);
      if fault {
        var n: nat :| n <= |s|;
        data, broken := data + s[..n], true;
        return Err(Io);
      }
      data := data + s;
      return Ok(());
    }
  }

  /** A local file opened for reading, or not. */
  method OpenFile(local: map<string, string>, path: string, reliable: bool)
    returns (r: Result<Source>, ghost faulted: bool)
    ensures r.Ok? ==> fresh(r.value) && path in local && r.value.rest == local[path] && !r.value.faulted
    ensures r.Ok? ==> r.value.reliable == reliable
    ensures r.Err? ==> r.error == Io && (faulted || path !in local)
    ensures faulted ==> r.Err? && !reliable
  {
    var fault := FaultUnless(reliable);
    faulted := fault;
    if fault || path !in local {
      return Err(Io), fault;
    }
    var file := new Source(local[path], reliable);
    r := Ok(file);
  }

  lemma Regroup(a: string, b: string, c: string)
    ensures a + (b + c) == a + b + c
  {
  }

  /** Bytes that went out before a write broke off are still a prefix of what was to go out. */
  lemma CutPrefix(before: string, all: string, size: nat, sent: string, chunk: string, now: string)
    requires sent + chunk <= all && |sent| + |chunk| <= size
    requires before + sent <= now <= before + sent + chunk
    ensures before <= now <= before + all[..Min(size, |all|)]
  {
    assert sent + chunk <= all[..Min(size, |all|)];
    Regroup(before, sent, chunk);
    assert before + (sent + chunk) <= before + all[..Min(size, |all|)];
  }

  /** `copy_exact`: what reaches the pipe is always a prefix of the first `size` bytes of the file. */
  method CopyExact(file: Source, out: Out, size: nat) returns (r: Result<()>)
    requires !file.faulted && !out.broken
    modifies file, out
    ensures r.Ok? ==> !file.faulted && !out.broken && size <= |old(file.rest)|
    ensures r.Ok? ==> out.data == old(out.data) + old(file.rest)[..size] && file.rest == old(file.rest)[size..]
    ensures r.Err? ==> r.error == Io && (file.faulted || out.broken || |old(file.rest)| < size)
    ensures r.Err? ==> old(out.data) <= out.data <= old(out.data) + old(file.rest)[..Min(size, |old(file.rest)|)]
    ensures r.Err? && !file.faulted && !out.broken ==> out.data == old(out.data) + old(file.rest)
    ensures (file.faulted ==> !file.reliable) && (out.broken ==> !out.reliable)
  {
    var remaining: nat := size;
    ghost var all, sent := file.rest, "";
    while remaining > 0
      invariant !file.faulted && !out.broken && |sent| + remaining == size
      invariant all == sent + file.rest && out.data == old(out.data) + sent
    {
      var chunk :- file.Read(Min(BUNDLE_STREAM_BUFFER_SIZE, remaining));
      if chunk == "" {
        return Err(Io);
      }
      Regroup(sent, chunk, file.rest);
      Regroup(old(out.data), sent, chunk);
      r := out.WriteAll(chunk);
      if r.Err? {
        CutPrefix(old(out.data), all, size, sent, chunk, out.data);
        return;
      }
      sent := sent + chunk;
      remaining := remaining - |chunk|;
    }
    assert all[..size] == sent;
    return Ok(());
  }

  // ---------------------------------------------------------------- the bundle writer

  datatype Item = Item(path: string, size: nat)

  /** The item can be sent: its path is encodable and its local file has exactly the planned size. */
  predicate Sendable(item: Item, local: map<string, string>) {
    |item.path| <= MAX_BUNDLE_PATH_LEN && item.path in local && |local[item.path]| == item.size
  }

  /** Frames for the leading items of a plan, each of the planned size. */
  ghost predicate FramesFor(frames: seq<Frame>, items: seq<Item>) {
    && |frames| <= |items|
    && forall i :: 0 <= i < |frames| ==> FrameFor(frames[i], items[i])
  }

  ghost predicate FrameFor(f: Frame, item: Item) {
    f.path == item.path && |f.content| == item.size && |f.path| <= MAX_BUNDLE_PATH_LEN
  }

  function Pad(s: string, n: nat): (r: string)
    ensures |r| == n
    ensures |s| <= n ==> s <= r
    ensures |s| >= n ==> r == s[..n]
  {
    if |s| >= n then s[..n] else s + seq(n - |s|, _ => ' ')
  }

  /** The length and the path of a frame. */
  function Header(path: string): string
    requires |path| < U32_LIMIT
  {
    EncodeU32(|path|) + path
  }

  method WriteHeader(out: Out, path: string) returns (r: Result<()>)
    requires !out.broken && |path| <= MAX_BUNDLE_PATH_LEN
    modifies out
    ensures (r.Err? <==> out.broken) && (out.broken ==> !out.reliable)
    ensures r.Ok? ==> out.data == old(out.data) + Header(path)
    ensures r.Err? ==> old(out.data) <= out.data <= old(out.data) + Header(path)
  {
    ghost var before := out.data;
    r := out.WriteAll(EncodeU32(|path|));
    assert before + EncodeU32(|path|) + path == before + Header(path);
    if r.Ok? {
      r := out.WriteAll(path);
    }
  }

  /** The file bytes of a frame: exactly the planned size, or the file is refused. */
  method WriteContent(out: Out, item: Item, local: map<string, string>) returns (r: Result<()>, ghost faulted: bool)
    requires !out.broken && |item.path| <= MAX_BUNDLE_PATH_LEN
    modifies out
    ensures r.Ok? ==> !out.broken && Sendable(item, local) && out.data == old(out.data) + local[item.path]
    ensures r.Err? ==> faulted || out.broken || !Sendable(item, local)
    ensures r.Err? ==> old(out.data) <= out.data <= old(out.data) + Planned(item, local)
    ensures r.Err? && !faulted && !out.broken ==> out.data == old(out.data) + SentPart(item, local)
    ensures faulted || out.broken ==> r.Err? && !out.reliable
  {
    var file, missing := OpenFile(local, item.path, out.reliable);
    faulted := missing;
    if file.Err? {
      return Err(file.error), faulted;
    }
    var source := file.value;
    ghost var before, content := out.data, local[item.path];
    ghost var part := content[..Min(item.size, |content|)];
    assert part <= Planned(item, local);
    r := CopyExact(source, out, item.size);
    faulted := source.faulted;
    if r.Err? {
      CutFrame(before, out.data, part, Planned(item, local));
      return;
    }
    r := source.ExpectEof();
    faulted := source.faulted;
    assert content == content[..item.size] + content[item.size..];
  }

  /** The local bytes that go out: none of a missing file, and never more than planned. */
  function SentPart(item: Item, local: map<string, string>): string {
    if item.path in local then local[item.path][..Min(item.size, |local[item.path]|)] else ""
  }

  /** The local bytes, cut or filled up to the planned size. */
  function Planned(item: Item, local: map<string, string>): (r: string)
    ensures |r| == item.size
    ensures Sendable(item, local) ==> r == local[item.path]
  {
    Pad(if item.path in local then local[item.path] else "", item.size)
  }

  /** One turn of the writer loop: the frame goes out whole, or only part of such a frame does. */
  method WriteItem(out: Out, item: Item, local: map<string, string>)
    returns (r: Result<()>, ghost faulted: bool, ghost frame: Frame)
    requires !out.broken
    modifies out
    ensures frame == Frame(item.path, Planned(item, local))
    ensures r.Ok? ==> !out.broken && Sendable(item, local) && out.data == old(out.data) + EncodeFrame(frame)
    ensures r.Err? ==> faulted || out.broken || !Sendable(item, local)
    ensures r.Err? && |item.path| <= MAX_BUNDLE_PATH_LEN ==> out.data <= old(out.data) + EncodeFrame(frame)
    ensures r.Err? && !faulted && !out.broken && |item.path| <= MAX_BUNDLE_PATH_LEN ==>
      out.data == old(out.data) + Header(item.path) + SentPart(item, local)
    ensures |item.path| > MAX_BUNDLE_PATH_LEN ==> out.data == old(out.data) && r == Err(InvalidData)
    ensures faulted || out.broken ==> r.Err? && !out.reliable
  {
    faulted := false;
    frame := Frame(item.path, Planned(item, local));
    if |item.path| > MAX_BUNDLE_PATH_LEN {
      return Err(InvalidData), faulted, frame;
    }
    ghost var before := out.data;
    assert before + Header(item.path) + frame.content == before + EncodeFrame(frame);
    r := WriteHeader(out, item.path);
    if r.Ok? {
      r, faulted := WriteContent(out, item, local);
    }
  }

  lemma CutFrame(sent: string, now: string, part: string, whole: string)
    requires sent <= now <= sent + part && part <= whole
    ensures now <= sent + whole
  {
    assert sent + part <= sent + whole;
  }

  /** The frames of a plan sent in full. */
  ghost predicate AllSent(frames: seq<Frame>, items: seq<Item>, local: map<string, string>) {
    && |frames| == |items|
    && forall i :: 0 <= i < |items| ==> SentWhole(frames[i], items[i], local)
  }

  ghost predicate SentWhole(f: Frame, item: Item, local: map<string, string>) {
    Sendable(item, local) && f == Frame(item.path, local[item.path])
  }

  lemma {:induction false} EncodeAppend(frames: seq<Frame>, f: Frame)
    requires Encodable(frames) && 1 <= |f.path| <= MAX_BUNDLE_PATH_LEN
    ensures Encodable(frames + [f]) && EncodeFrames(frames + [f]) == EncodeFrames(frames) + EncodeFrame(f)
  {
    if frames == [] {
      assert frames + [f] == [f];
      EncodeStep(f, []);
    } else {
      EncodeAppend(frames[1..], f);
      assert (frames + [f])[1..] == frames[1..] + [f];
      EncodeStep(frames[0], frames[1..] + [f]);
      assert frames + [f] == [frames[0]] + (frames[1..] + [f]);
    }
  }

  /**
   What is in the pipe when the first item failed: part of its frame, and without faults all that there
   was to send.
   */
  ghost predicate FirstBrokeOff(data: string, item: Item, local: map<string, string>, astray: bool) {
    if |item.path| > MAX_BUNDLE_PATH_LEN then data == ""
    else
      && data <= EncodeFrame(Frame(item.path, Planned(item, local)))
      && (!astray ==> !Sendable(item, local) && data == Header(item.path) + SentPart(item, local))
  }

  /** The loop of the writer: the items in order, up to the first that fails. */
  method WriteItems(out: Out, items: seq<Item>, local: map<string, string>)
    returns (r: Result<()>, filesDone: nat, ghost faulted: bool, ghost frames: seq<Frame>)
    requires !out.broken && out.data == ""
    requires forall i :: 0 <= i < |items| ==> items[i].path != ""
    modifies out
    ensures r.Ok? ==> SoFar(out.data, frames, items, |items|, local) && filesDone == |items| && !faulted && !out.broken
    ensures r.Err? ==> filesDone < |items| && BrokeOff(out.data, frames, items, filesDone, local, faulted || out.broken)
    ensures faulted || out.broken ==> !out.reliable
  {
    frames, faulted, filesDone := [], false, 0;
    for i := 0 to |items|
      invariant !out.broken && !faulted && filesDone == i && SoFar(out.data, frames, items, i, local)
    {
      ghost var before := out.data;
      ghost var frame;
      r, faulted, frame := WriteItem(out, items[i], local);
      if r.Err? {
        SentAreSendable(before, frames, items, i, local);
        ItemFailed(before, frames, items, i, local, out.data);
        frames := WithFrame(frames, items[i], local);
        return;
      }
      ItemSent(before, frames, items, i, local);
      frames := WithFrame(frames, items[i], local);
      filesDone := filesDone + 1;
    }
    r := Ok(());
  }

  /** What is in the pipe when item `done` failed: the beginning of the items' stream, and why it failed. */
  ghost predicate BrokeOff(data: string, frames: seq<Frame>, items: seq<Item>, done: nat, local: map<string, string>,
                           astray: bool)
    requires done < |items|
  {
    && FramesFor(frames, items) && Encodable(frames) && data <= EncodeFrames(frames)
    && (forall k :: 0 <= k < |frames| ==> frames[k].content == Planned(items[k], local))
    && (forall k :: 0 <= k < done ==> Sendable(items[k], local))
    && (astray || !Sendable(items[done], local))
    && (done == 0 ==> FirstBrokeOff(data, items[0], local, astray))
  }

  /**
   `write_bundle_upload` and `write_bundle_download`: success is the complete stream of the local
   files in plan order; a failure leaves a stream that breaks off before its terminator, unless
   the pipe broke while the terminator itself was going out. `filesDone` is the progress reported:
   the files whose turn came to a good end.
   */
  method WriteBundle(out: Out, items: seq<Item>, local: map<string, string>)
    returns (r: Result<()>, filesDone: nat, ghost faulted: bool, ghost frames: seq<Frame>)
    requires !out.broken && out.data == ""
    requires forall i :: 0 <= i < |items| ==> items[i].path != ""
    modifies out
    ensures FramesFor(frames, items) && Encodable(frames)
    ensures r.Ok? ==> AllSent(frames, items, local) && out.data == Encode(frames) && filesDone == |items|
    ensures r.Err? ==> out.data <= EncodeFrames(frames) || (AllSent(frames, items, local) && out.data <= Encode(frames))
    ensures r.Err? && filesDone == 0 && items != [] ==> FirstBrokeOff(out.data, items[0], local, faulted || out.broken)
    ensures filesDone <= |items| && forall i :: 0 <= i < filesDone ==> Sendable(items[i], local)
    ensures r.Ok? ==> !faulted && !out.broken
    ensures faulted || out.broken ==> !out.reliable
    ensures r.Err? ==> faulted || out.broken || exists i :: 0 <= i < |items| && !Sendable(items[i], local)
    ensures forall i :: 0 <= i < |frames| ==> frames[i].content == Planned(items[i], local)
  {
    r, filesDone, faulted, frames := WriteItems(out, items, local);
    if r.Ok? {
      SentAreSendable(out.data, frames, items, |items|, local);
      AllSoFar(out.data, frames, items, local);
      r := out.WriteAll(EncodeU32(0));
    }
  }

  /** The first `done` items have been sent whole. */
  ghost predicate SoFar(data: string, frames: seq<Frame>, items: seq<Item>, done: nat, local: map<string, string>) {
    && |frames| == done <= |items| && Encodable(frames) && data == EncodeFrames(frames)
    && forall k :: 0 <= k < done ==> SentWhole(frames[k], items[k], local)
  }

  lemma SentAreSendable(data: string, frames: seq<Frame>, items: seq<Item>, done: nat, local: map<string, string>)
    requires SoFar(data, frames, items, done, local)
    ensures forall k :: 0 <= k < done ==> Sendable(items[k], local)
  {
    forall k | 0 <= k < done
      ensures Sendable(items[k], local)
    {
      assert SentWhole(frames[k], items[k], local);
    }
  }

  /** The frames with one for the next item, as far as its path can be encoded. */
  ghost function WithFrame(frames: seq<Frame>, item: Item, local: map<string, string>): seq<Frame> {
    if |item.path| <= MAX_BUNDLE_PATH_LEN then frames + [Frame(item.path, Planned(item, local))] else frames
  }

  lemma ItemSent(before: string, frames: seq<Frame>, items: seq<Item>, i: nat, local: map<string, string>)
    requires i < |items| && SoFar(before, frames, items, i, local) && Sendable(items[i], local) && items[i].path != ""
    ensures var frame := Frame(items[i].path, Planned(items[i], local));
      SoFar(before + EncodeFrame(frame), WithFrame(frames, items[i], local), items, i + 1, local)
  {
    EncodeAppend(frames, Frame(items[i].path, Planned(items[i], local)));
  }

  lemma ItemFailed(before: string, frames: seq<Frame>, items: seq<Item>, i: nat, local: map<string, string>,
                   now: string)
    requires i < |items| && SoFar(before, frames, items, i, local) && items[i].path != ""
    requires |items[i].path| <= MAX_BUNDLE_PATH_LEN ==>
      now <= before + EncodeFrame(Frame(items[i].path, Planned(items[i], local)))
    requires |items[i].path| > MAX_BUNDLE_PATH_LEN ==> now == before
    ensures var frames' := WithFrame(frames, items[i], local);
      && FramesFor(frames', items) && Encodable(frames') && now <= EncodeFrames(frames')
      && forall k :: 0 <= k < |frames'| ==> frames'[k].content == Planned(items[k], local)
  {
    forall k | 0 <= k < i
      ensures FrameFor(frames[k], items[k])
    {
      assert SentWhole(frames[k], items[k], local);
    }
    if |items[i].path| <= MAX_BUNDLE_PATH_LEN {
      EncodeAppend(frames, Frame(items[i].path, Planned(items[i], local)));
    }
  }

  lemma AllSoFar(data: string, frames: seq<Frame>, items: seq<Item>, local: map<string, string>)
    requires SoFar(data, frames, items, |items|, local)
    ensures AllSent(frames, items, local) && FramesFor(frames, items)
    ensures forall k :: 0 <= k < |frames| ==> frames[k].content == Planned(items[k], local)
  {
    forall k | 0 <= k < |frames|
      ensures FrameFor(frames[k], items[k]) && frames[k].content == Planned(items[k], local)
    {
      assert SentWhole(frames[k], items[k], local);
    }
  }
}
