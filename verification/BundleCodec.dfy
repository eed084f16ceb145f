/**
 The bundle format: frames of path length, path and file bytes, closed by a zero length. File
 sizes are not on the wire; a reader takes them from the plan.
 */
module BundleCodec {
  import opened Wrappers
  import opened Text
  import opened Paths

  const U32_LIMIT: nat := 0x1_0000_0000
  const MAX_BUNDLE_PATH_LEN: nat := 16 * 1024

  // ---------------------------------------------------------------- big-endian u32

  function ByteChar(n: nat): char
    requires n < 256
  {
    n as char
  }

  /** `u32::to_be_bytes`. */
  function EncodeU32(n: nat): (s: string)
    requires n < U32_LIMIT
    ensures |s| == 4
  {
    [ByteChar(n / 0x100_0000), ByteChar(n / 0x1_0000 % 256), ByteChar(n / 256 % 256), ByteChar(n % 256)]
  }

  /** `u32::from_be_bytes`. */
  function DecodeU32(s: string): nat
    requires |s| == 4
  {
    ((s[0] as int * 256 + s[1] as int) * 256 + s[2] as int) * 256 + s[3] as int
  }

  lemma DecodeEncode(n: nat)
    requires n < U32_LIMIT
    ensures DecodeU32(EncodeU32(n)) == n && IsBytes(EncodeU32(n))
  {
    var hi, mid := n / 0x1_0000, n / 256;
    assert mid / 256 == hi && hi / 256 == n / 0x100_0000;
    assert hi == hi / 256 * 256 + hi % 256;
    assert mid == hi * 256 + mid % 256;
    assert n == mid * 256 + n % 256;
  }

  lemma EncodeDecode(s: string)
    requires |s| == 4 && IsBytes(s)
    ensures DecodeU32(s) < U32_LIMIT && EncodeU32(DecodeU32(s)) == s
  {
    var a, b, c, d := s[0] as int, s[1] as int, s[2] as int, s[3] as int;
    assert IsByte(s[0]) && IsByte(s[1]) && IsByte(s[2]) && IsByte(s[3]);
    var n := DecodeU32(s);
    assert n % 256 == d && n / 256 == (a * 256 + b) * 256 + c;
    assert n / 0x1_0000 == a * 256 + b && n / 0x100_0000 == a;
  }

  /** The first byte is the one that counts most. */
  lemma BigEndian(s: string, n: nat)
    requires |s| == 4 && IsBytes(s) && n < U32_LIMIT
    ensures EncodeU32(n) == s
      <==> n == s[0] as int * 0x100_0000 + s[1] as int * 0x1_0000 + s[2] as int * 256 + s[3] as int
  {
    EncodeDecode(s);
    DecodeEncode(n);
  }

  // ---------------------------------------------------------------- frames

  datatype Frame = Frame(path: string, content: string)

  /** The plan as the reader keeps it: the files still expected, with their sizes. */
  type Sizes = map<string, nat>

  predicate WirePath(path: string) { IsUtf8(path) && ValidSyncPath(path) }

  function EncodeFrame(f: Frame): string
    requires |f.path| < U32_LIMIT
  {
    EncodeU32(|f.path|) + f.path + f.content
  }

  ghost predicate Encodable(frames: seq<Frame>) {
    forall i :: 0 <= i < |frames| ==> 1 <= |frames[i].path| <= MAX_BUNDLE_PATH_LEN
  }

  ghost function EncodeFrames(frames: seq<Frame>): string
    requires Encodable(frames)
  {
    if frames == [] then "" else EncodeFrame(frames[0]) + EncodeFrames(frames[1..])
  }

  /** A complete stream. */
  ghost function Encode(frames: seq<Frame>): string
    requires Encodable(frames)
  {
    EncodeFrames(frames) + EncodeU32(0)
  }

  // ---------------------------------------------------------------- what a reader does with a stream

  datatype Outcome = Outcome(result: Result<()>, written: seq<Frame>)

  function Refuse(error: SyncError): Outcome { Outcome(Err(error), []) }

  function After(f: Frame, o: Outcome): Outcome { Outcome(o.result, [f] + o.written) }

  datatype Head = Stop(outcome: Outcome) | Next(frame: Frame, rest: string)

  /** One turn of the reader loop of both sides, on a stream that delivers exactly `data` and then ends. */
  function ReadHead(data: string, remaining: Sizes): (h: Head)
    ensures h.Next? ==> |h.rest| < |data|
  {
    if |data| < 4 then Stop(Refuse(Io))
    else
      var n, body := DecodeU32(data[..4]), data[4..];
      if n == 0 then
        Stop(if remaining != map[] || body != "" then Refuse(InvalidData) else Outcome(Ok(()), []))
      else if n > MAX_BUNDLE_PATH_LEN then Stop(Refuse(InvalidData))
      else if |body| < n then Stop(Refuse(Io))
      else
        var path, tail := body[..n], body[n..];
        if !WirePath(path) then Stop(Refuse(InvalidData))
        else if path !in remaining then Stop(Refuse(NotFound))
        else if |tail| < remaining[path] then Stop(Refuse(Io))
        else Next(Frame(path, tail[..remaining[path]]), tail[remaining[path]..])
  }

  /** The whole reader loop. */
  function Read(data: string, remaining: Sizes): Outcome
    decreases |data|
  {
    match ReadHead(data, remaining)
    case Stop(outcome) => outcome
    case Next(frame, rest) => After(frame, Read(rest, remaining - {frame.path}))
  }

  /** The frames answer the plan so far: distinct planned paths, each with exactly its planned number of bytes. */
  ghost predicate Fits(frames: seq<Frame>, sizes: Sizes) {
    && (forall i, j :: 0 <= i < j < |frames| ==> frames[i].path != frames[j].path)
    && (forall i :: 0 <= i < |frames| ==> FitsOne(frames[i], sizes))
  }

  ghost predicate FitsOne(f: Frame, sizes: Sizes) {
    && f.path in sizes && |f.content| == sizes[f.path]
    && WirePath(f.path) && |f.path| <= 16384
  }

  ghost predicate Covers(frames: seq<Frame>, sizes: Sizes) {
    forall path :: path in sizes ==> exists i :: 0 <= i < |frames| && frames[i].path == path
  }

  lemma FitsRest(frames: seq<Frame>, sizes: Sizes)
    requires Fits(frames, sizes) && frames != []
    ensures FitsOne(frames[0], sizes)
    ensures Fits(frames[1..], sizes - {frames[0].path})
    ensures Covers(frames, sizes) ==> Covers(frames[1..], sizes - {frames[0].path})
  {
    var rest := frames[1..];
    forall i | 0 <= i < |rest|
      ensures FitsOne(rest[i], sizes - {frames[0].path})
    {
      assert rest[i] == frames[i + 1] && FitsOne(frames[i + 1], sizes);
    }
    if Covers(frames, sizes) {
      forall path | path in sizes - {frames[0].path}
        ensures exists i :: 0 <= i < |rest| && rest[i].path == path
      {
        var i :| 0 <= i < |frames| && frames[i].path == path;
        assert rest[i - 1].path == path;
      }
    }
  }

  /** One complete frame at the head of the stream is taken off whole. */
  lemma ReadFrame(f: Frame, rest: string, sizes: Sizes)
    requires FitsOne(f, sizes)
    ensures ReadHead(EncodeFrame(f) + rest, sizes) == Next(f, rest)
  {
    var data := EncodeFrame(f) + rest;
    DecodeEncode(|f.path|);
    assert data[..4] == EncodeU32(|f.path|);
    assert data[4..] == f.path + f.content + rest;
    assert data[4..][..|f.path|] == f.path;
    assert data[4..][|f.path|..] == f.content + rest;
    assert (f.content + rest)[..|f.content|] == f.content;
    assert (f.content + rest)[|f.content|..] == rest;
  }

  /** A frame cut short anywhere is refused as a broken stream. */
  lemma ReadCutFrame(f: Frame, n: nat, sizes: Sizes)
    requires FitsOne(f, sizes) && n < |EncodeFrame(f)|
    ensures ReadHead(EncodeFrame(f)[..n], sizes) == Stop(Refuse(Io))
  {
    var data := EncodeFrame(f)[..n];
    if n >= 4 {
      DecodeEncode(|f.path|);
      assert data[..4] == EncodeU32(|f.path|);
      assert data[4..] == (f.path + f.content)[..n - 4];
      if n - 4 >= |f.path| {
        assert data[4..][..|f.path|] == f.path;
      }
    }
  }

  lemma EncodeStep(f: Frame, rest: seq<Frame>)
    requires 1 <= |f.path| <= MAX_BUNDLE_PATH_LEN && Encodable(rest)
    ensures Encodable([f] + rest)
    ensures EncodeFrames([f] + rest) == EncodeFrame(f) + EncodeFrames(rest)
    ensures Encode([f] + rest) == EncodeFrame(f) + Encode(rest)
  {
    assert ([f] + rest)[1..] == rest;
  }

  lemma ReadTerminator(rest: string, sizes: Sizes)
    ensures ReadHead(EncodeU32(0) + rest, sizes)
      == Stop(if sizes == map[] && rest == "" then Outcome(Ok(()), []) else Refuse(InvalidData))
  {
    DecodeEncode(0);
    assert (EncodeU32(0) + rest)[..4] == EncodeU32(0);
    assert (EncodeU32(0) + rest)[4..] == rest;
  }

  /** Four bytes, a path, the file bytes and the rest make up the stream. */
  lemma Slices(data: string, n: nat, m: nat)
    requires 4 + n + m <= |data|
    ensures var body := data[4..];
      && data == data[..4] + body[..n] + body[n..][..m] + body[n..][m..]
      && forall i :: 0 <= i < |body[n..][m..]| ==> body[n..][m..][i] == data[4 + n + m + i]
  {
    var body := data[4..];
    var tail := body[n..];
    assert tail == tail[..m] + tail[m..];
    assert data[..4] + body[..n] == data[..4 + n];
    assert data[..4 + n] + tail[..m] == data[..4 + n + m];
    assert tail[m..] == data[4 + n + m..];
  }

  /** What an accepted stream starts with: the terminator and nothing else, or one planned frame. */
  lemma AcceptedHead(data: string, sizes: Sizes)
    requires IsBytes(data)
    ensures var h := ReadHead(data, sizes);
      if h.Stop? then h.outcome.result.Ok? ==> data == EncodeU32(0) && sizes == map[] && h.outcome.written == []
      else FitsOne(h.frame, sizes) && 1 <= |h.frame.path| && data == EncodeFrame(h.frame) + h.rest && IsBytes(h.rest)
  {
    var h := ReadHead(data, sizes);
    if |data| >= 4 {
      EncodeDecode(data[..4]);
      assert data == data[..4] + data[4..];
    }
    if h.Next? {
      Slices(data, DecodeU32(data[..4]), |h.frame.content|);
    }
  }

  lemma FitsCons(f: Frame, rest: seq<Frame>, sizes: Sizes)
    requires FitsOne(f, sizes) && Fits(rest, sizes - {f.path}) && Covers(rest, sizes - {f.path})
    ensures Fits([f] + rest, sizes) && Covers([f] + rest, sizes)
  {
    var frames := [f] + rest;
    forall i | 0 <= i < |frames|
      ensures FitsOne(frames[i], sizes) && (i > 0 ==> frames[i].path != f.path)
    {
      if i > 0 { assert frames[i] == rest[i - 1] && FitsOne(rest[i - 1], sizes - {f.path}); }
    }
    CoversCons(f, rest, sizes);
  }

  lemma CoversCons(f: Frame, rest: seq<Frame>, sizes: Sizes)
    requires Covers(rest, sizes - {f.path})
    ensures Covers([f] + rest, sizes)
  {
    var frames := [f] + rest;
    forall path | path in sizes
      ensures exists i :: 0 <= i < |frames| && frames[i].path == path
    {
      if path == f.path {
        assert frames[0].path == path;
      } else {
        assert path in sizes - {f.path};
        var i :| 0 <= i < |rest| && rest[i].path == path;
        assert frames[i + 1].path == path;
      }
    }
  }

  // ---------------------------------------------------------------- the two directions

  /** Reading restores exactly the files written, in whatever order the plan's files were sent. */
  lemma {:induction false} RoundTrip(frames: seq<Frame>, sizes: Sizes)
    requires Fits(frames, sizes) && Covers(frames, sizes)
    ensures Encodable(frames) && Read(Encode(frames), sizes) == Outcome(Ok(()), frames)
  {
    if frames == [] {
      assert sizes == map[];
      ReadTerminator("", sizes);
      assert Encode(frames) == EncodeU32(0) + "";
    } else {
      var f, rest := frames[0], frames[1..];
      FitsRest(frames, sizes);
      RoundTrip(rest, sizes - {f.path});
      RoundTripStep(f, rest, sizes);
      assert frames == [f] + rest;
    }
  }

  lemma RoundTripStep(f: Frame, rest: seq<Frame>, sizes: Sizes)
    requires FitsOne(f, sizes) && Encodable(rest)
    requires Read(Encode(rest), sizes - {f.path}) == Outcome(Ok(()), rest)
    ensures Encodable([f] + rest) && Read(Encode([f] + rest), sizes) == Outcome(Ok(()), [f] + rest)
  {
    EncodeStep(f, rest);
    ReadFrame(f, Encode(rest), sizes);
  }

  /** Only such streams are accepted: every planned path once, exact bytes, the terminator, nothing more. */
  lemma {:induction false} AcceptedIsEncoded(data: string, sizes: Sizes)
    requires IsBytes(data) && Read(data, sizes).result.Ok?
    ensures var frames := Read(data, sizes).written;
      Fits(frames, sizes) && Covers(frames, sizes) && Encodable(frames) && data == Encode(frames)
    decreases |data|
  {
    AcceptedHead(data, sizes);
    var h := ReadHead(data, sizes);
    if h.Next? {
      var f, left := h.frame, sizes - {h.frame.path};
      AcceptedIsEncoded(h.rest, left);
      FitsCons(f, Read(h.rest, left).written, sizes);
      EncodeStep(f, Read(h.rest, left).written);
    }
  }

  /** Exactly which streams a reader accepts, and with which files. */
  lemma AcceptsExactly(data: string, sizes: Sizes, frames: seq<Frame>)
    requires IsBytes(data)
    ensures Read(data, sizes) == Outcome(Ok(()), frames)
      <==> Fits(frames, sizes) && Covers(frames, sizes) && Encodable(frames) && data == Encode(frames)
  {
    if Read(data, sizes) == Outcome(Ok(()), frames) { AcceptedIsEncoded(data, sizes); }
    if Fits(frames, sizes) && Covers(frames, sizes) { RoundTrip(frames, sizes); }
  }

  /** A stream that stops anywhere before its end is always refused as broken. */
  lemma {:induction false} CutStreamRefused(frames: seq<Frame>, data: string, sizes: Sizes)
    requires Fits(frames, sizes) && Encodable(frames) && data <= Encode(frames) && data != Encode(frames)
    ensures Read(data, sizes).result == Err(Io)
    ensures Read(data, sizes).written <= frames
  {
    if frames != [] {
      var first := EncodeFrame(frames[0]);
      FitsRest(frames, sizes);
      assert frames == [frames[0]] + frames[1..];
      EncodeStep(frames[0], frames[1..]);
      if |data| < |first| {
        assert data == first[..|data|];
        ReadCutFrame(frames[0], |data|, sizes);
      } else {
        var rest := data[|first|..];
        assert data == first + rest;
        assert rest <= Encode(frames[1..]);
        CutStreamRefused(frames[1..], rest, sizes - {frames[0].path});
        ReadFrame(frames[0], rest, sizes);
      }
    }
  }

  // ---------------------------------------------------------------- refusals

  /** What is still expected after some frames. */
  ghost function StillExpected(sizes: Sizes, frames: seq<Frame>): Sizes {
    sizes - (set i | 0 <= i < |frames| :: frames[i].path)
  }

  /** The stream breaks off: in a length, in a path, or in the bytes of an expected file. */
  ghost predicate BreaksOff(data: string, expected: Sizes) {
    || |data| < 4
    || (exists n: nat, part: string ::
          && 0 < n <= 16384 && |part| < n
          && data == EncodeU32(n) + part)
    || (exists path: string, part: string ::
          && AnnouncedPath(path) && WirePath(path) && path in expected && |part| < expected[path]
          && data == EncodeU32(|path|) + path + part)
  }

  /** A frame's path has a length the format allows. */
  predicate AnnouncedPath(path: string) { 0 < |path| <= 16384 }

  /**
   What the stream says is wrong: it ends while files are expected or goes on after its end, a path is too
   long, or is no sync path in UTF-8.
   */
  ghost predicate SaysWrong(data: string, expected: Sizes) {
    || (exists rest: string :: data == EncodeU32(0) + rest && (expected != map[] || rest != ""))
    || (exists n: nat, rest: string :: 16384 < n < U32_LIMIT && data == EncodeU32(n) + rest)
    || (exists path: string, rest: string ::
          AnnouncedPath(path) && !WirePath(path) && data == EncodeU32(|path|) + path + rest)
  }

  /** A file is announced that was not planned, or has come before. */
  ghost predicate SendsUnexpected(data: string, expected: Sizes) {
    exists path: string, rest: string ::
      AnnouncedPath(path) && WirePath(path) && path !in expected && data == EncodeU32(|path|) + path + rest
  }

  ghost predicate RefusedAs(data: string, expected: Sizes, error: SyncError) {
    match error
    case Io => BreaksOff(data, expected)
    case InvalidData => SaysWrong(data, expected)
    case NotFound => SendsUnexpected(data, expected)
    case _ => false
  }

  /** The parts of a stream that starts with a length. */
  lemma HeadParts(n: nat, rest: string)
    requires n < U32_LIMIT
    ensures var data := EncodeU32(n) + rest; DecodeU32(data[..4]) == n && data[4..] == rest
  {
    DecodeEncode(n);
    assert (EncodeU32(n) + rest)[..4] == EncodeU32(n);
    assert (EncodeU32(n) + rest)[4..] == rest;
  }

  lemma PathParts(path: string, rest: string)
    requires |path| < U32_LIMIT
    ensures var data := EncodeU32(|path|) + path + rest;
      && DecodeU32(data[..4]) == |path|
      && |data| - 4 >= |path| && data[4..][..|path|] == path && data[4..][|path|..] == rest
  {
    assert EncodeU32(|path|) + path + rest == EncodeU32(|path|) + (path + rest);
    HeadParts(|path|, path + rest);
  }

  /** A header is taken off; then it depends on the path and on how much follows. */
  lemma HeaderIsRead(path: string, rest: string, expected: Sizes)
    requires AnnouncedPath(path)
    ensures !WirePath(path) ==> ReadHead(EncodeU32(|path|) + path + rest, expected) == Stop(Refuse(InvalidData))
    ensures WirePath(path) && path !in expected ==>
      ReadHead(EncodeU32(|path|) + path + rest, expected) == Stop(Refuse(NotFound))
    ensures WirePath(path) && path in expected && |rest| < expected[path] ==>
      ReadHead(EncodeU32(|path|) + path + rest, expected) == Stop(Refuse(Io))
  {
    PathParts(path, rest);
  }

  lemma BrokenIsRead(data: string, expected: Sizes)
    requires BreaksOff(data, expected)
    ensures ReadHead(data, expected) == Stop(Refuse(Io))
  {
    if n: nat, part: string :| 0 < n <= MAX_BUNDLE_PATH_LEN && |part| < n && data == EncodeU32(n) + part {
      HeadParts(n, part);
    } else if |data| >= 4 {
      var path: string, part: string :| AnnouncedPath(path) && WirePath(path) && path in expected
        && |part| < expected[path] && data == EncodeU32(|path|) + path + part;
      HeaderIsRead(path, part, expected);
    }
  }

  lemma WrongIsSaid(data: string, expected: Sizes)
    requires SaysWrong(data, expected)
    ensures ReadHead(data, expected) == Stop(Refuse(InvalidData))
  {
    if rest: string :| data == EncodeU32(0) + rest && (expected != map[] || rest != "") {
      HeadParts(0, rest);
    } else if n: nat, rest: string :| MAX_BUNDLE_PATH_LEN < n < U32_LIMIT && data == EncodeU32(n) + rest {
      HeadParts(n, rest);
    } else {
      var path: string, rest: string :|
        AnnouncedPath(path) && !WirePath(path) && data == EncodeU32(|path|) + path + rest;
      HeaderIsRead(path, rest, expected);
    }
  }

  /** What is wrong at the head of a stream is what the reader says. */
  lemma RefusedIsRead(data: string, expected: Sizes, error: SyncError)
    requires RefusedAs(data, expected, error)
    ensures ReadHead(data, expected) == Stop(Refuse(error))
  {
    if error == Io {
      BrokenIsRead(data, expected);
    } else if error == InvalidData {
      WrongIsSaid(data, expected);
    } else {
      assert SendsUnexpected(data, expected);
      var path: string, rest: string :|
        AnnouncedPath(path) && WirePath(path) && path !in expected && data == EncodeU32(|path|) + path + rest;
      HeaderIsRead(path, rest, expected);
    }
  }

  /** What the reader says is what is wrong at the head of the stream. */
  lemma ReadIsRefused(data: string, expected: Sizes, error: SyncError)
    requires IsBytes(data) && ReadHead(data, expected) == Stop(Refuse(error))
    ensures RefusedAs(data, expected, error)
  {
    if |data| >= 4 {
      EncodeDecode(data[..4]);
      var n, body := DecodeU32(data[..4]), data[4..];
      assert data == EncodeU32(n) + body;
      if 0 < n <= MAX_BUNDLE_PATH_LEN && |body| >= n {
        var path, rest := body[..n], body[n..];
        assert data == EncodeU32(|path|) + path + rest;
        assert AnnouncedPath(path);
      }
    }
  }

  lemma StillExpectedRest(sizes: Sizes, f: Frame, rest: seq<Frame>)
    ensures StillExpected(sizes, [f] + rest) == StillExpected(sizes - {f.path}, rest)
  {
    var frames := [f] + rest;
    forall path | path in sizes
      ensures path in (set i | 0 <= i < |frames| :: frames[i].path)
        <==> path == f.path || path in (set i | 0 <= i < |rest| :: rest[i].path)
    {
      if i :| 0 <= i < |rest| && rest[i].path == path { assert frames[i + 1].path == path; }
      if i :| 0 <= i < |frames| && frames[i].path == path && i > 0 { assert rest[i - 1].path == path; }
      assert frames[0].path == f.path;
    }
  }

  /** The stream is some complete frames the plan asks for, and then something wrong. */
  ghost predicate GoesWrong(data: string, sizes: Sizes, frames: seq<Frame>, error: SyncError) {
    && Fits(frames, sizes) && Encodable(frames) && EncodeFrames(frames) <= data
    && RefusedAs(data[|EncodeFrames(frames)|..], StillExpected(sizes, frames), error)
  }

  lemma {:induction false} WrongIsRead(data: string, sizes: Sizes, frames: seq<Frame>, error: SyncError)
    requires GoesWrong(data, sizes, frames, error)
    ensures Read(data, sizes) == Outcome(Err(error), frames)
    decreases |frames|
  {
    if frames == [] {
      assert StillExpected(sizes, frames) == sizes && data[|EncodeFrames(frames)|..] == data;
      RefusedIsRead(data, sizes, error);
    } else {
      var f, more := frames[0], frames[1..];
      assert frames == [f] + more;
      FitsRest(frames, sizes);
      EncodeStep(f, more);
      StillExpectedRest(sizes, f, more);
      var rest := data[|EncodeFrame(f)|..];
      assert data == EncodeFrame(f) + rest && EncodeFrames(more) <= rest;
      assert data[|EncodeFrames(frames)|..] == rest[|EncodeFrames(more)|..];
      WrongIsRead(rest, sizes - {f.path}, more, error);
      ReadFrame(f, rest, sizes);
    }
  }

  lemma {:induction false} ReadIsWrong(data: string, sizes: Sizes)
    requires IsBytes(data) && Read(data, sizes).result.Err?
    ensures GoesWrong(data, sizes, Read(data, sizes).written, Read(data, sizes).result.error)
    decreases |data|
  {
    var h := ReadHead(data, sizes);
    AcceptedHead(data, sizes);
    if h.Stop? {
      assert StillExpected(sizes, []) == sizes && data[|EncodeFrames([])|..] == data;
      ReadIsRefused(data, sizes, h.outcome.result.error);
    } else {
      ReadIsWrong(h.rest, sizes - {h.frame.path});
      WrongAfter(data, sizes, h.frame, h.rest, Read(h.rest, sizes - {h.frame.path}).written,
                 Read(data, sizes).result.error);
    }
  }

  lemma WrongAfter(data: string, sizes: Sizes, f: Frame, rest: string, more: seq<Frame>, error: SyncError)
    requires FitsOne(f, sizes) && 1 <= |f.path| && data == EncodeFrame(f) + rest
    requires GoesWrong(rest, sizes - {f.path}, more, error)
    ensures GoesWrong(data, sizes, [f] + more, error)
  {
    var frames := [f] + more;
    EncodeStep(f, more);
    StillExpectedRest(sizes, f, more);
    forall i | 0 <= i < |frames|
      ensures FitsOne(frames[i], sizes) && (i > 0 ==> frames[i].path != f.path)
    {
      if i > 0 { assert frames[i] == more[i - 1] && FitsOne(more[i - 1], sizes - {f.path}); }
    }
    assert data == EncodeFrame(f) + EncodeFrames(more) + rest[|EncodeFrames(more)|..];
    assert data[|EncodeFrames(frames)|..] == rest[|EncodeFrames(more)|..];
  }

  /**
   Exactly which streams a reader refuses, with which error and after which files: those that go on,
   after some files of the plan, with a broken end, with something wrong, or with a file not expected.
   */
  lemma RefusesExactly(data: string, sizes: Sizes, frames: seq<Frame>, error: SyncError)
    requires IsBytes(data)
    ensures Read(data, sizes) == Outcome(Err(error), frames) <==> GoesWrong(data, sizes, frames, error)
  {
    if Read(data, sizes) == Outcome(Err(error), frames) { ReadIsWrong(data, sizes); }
    if GoesWrong(data, sizes, frames, error) { WrongIsRead(data, sizes, frames, error); }
  }
}
