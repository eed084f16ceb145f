/** The canonical text of a signed request: seven lines, the last without a newline. */
module Canonical {
  import opened Wrappers
  import opened Text

  const CANONICAL_REQUEST_PREFIX := "TT-SYNC-V2"

  datatype CanonicalRequest = CanonicalRequest(
    deviceId: string,
    timestampMs: u64,
    nonce: string,
    verb: string,
    pathAndQuery: string,
    bodyHash: string)

  datatype CanonicalError = NonUtf8
                          | InvalidFormat
                          | InvalidPrefix
                          | BadDeviceId
                          | InvalidTimestamp
                          | InvalidField(field: string)

  datatype Parse = Parsed(request: CanonicalRequest) | Refused(error: CanonicalError)

  predicate IsHexDigit(c: char) { '0' <= c <= '9' || 'a' <= c <= 'f' || 'A' <= c <= 'F' }

  /** `validate_uuid`: 8-4-4-4-12 hexadecimal digits with hyphens. */
  predicate ValidDeviceId(s: string) {
    |s| == 36 && forall i :: 0 <= i < 36 ==> if i in {8, 13, 18, 23} then s[i] == '-' else IsHexDigit(s[i])
  }

  predicate ValidField(s: string) { '\n' !in s && '\r' !in s }

  /** `CanonicalRequest::new`, on a device id that is already one. */
  function New(deviceId: string, timestampMs: u64, nonce: string, verb: string, pathAndQuery: string,
               bodyHash: string): Parse {
    if !ValidField(nonce) then Refused(InvalidField("nonce"))
    else if !ValidField(verb) then Refused(InvalidField("method"))
    else if !ValidField(pathAndQuery) then Refused(InvalidField("path_and_query"))
    else if !ValidField(bodyHash) then Refused(InvalidField("body_sha256_base64url"))
    else Parsed(CanonicalRequest(deviceId, timestampMs, nonce, verb, pathAndQuery, bodyHash))
  }

  /** Requests that `new` can build. */
  predicate Built(r: CanonicalRequest) {
    && ValidDeviceId(r.deviceId)
    && New(r.deviceId, r.timestampMs, r.nonce, r.verb, r.pathAndQuery, r.bodyHash) == Parsed(r)
  }

  /** `Display`. */
  function Render(r: CanonicalRequest): string {
    CANONICAL_REQUEST_PREFIX + "\n" + (r.deviceId + "\n" + (PrintDecimal(r.timestampMs) + "\n" + (r.nonce
    + "\n" + (r.verb + "\n" + (r.pathAndQuery + "\n" + r.bodyHash)))))
  }

  /** `strip_suffix('\n').unwrap_or(input)`. */
  function StripNewline(s: string): string {
    if EndsWith(s, "\n") then s[..|s| - 1] else s
  }

  function ParseLines(parts: seq<string>): Parse {
    if |parts| != 7 then Refused(InvalidFormat)
    else if parts[0] != CANONICAL_REQUEST_PREFIX then Refused(InvalidPrefix)
    else if !ValidDeviceId(parts[1]) then Refused(BadDeviceId)
    else match ParseU64(parts[2])
      case None => Refused(InvalidTimestamp)
      case Some(timestampMs) => New(parts[1], timestampMs, parts[3], parts[4], parts[5], parts[6])
  }

  function ParseStr(input: string): Parse { ParseLines(Split(StripNewline(input), '\n')) }

  function ParseBytes(input: string): Parse {
    if !IsUtf8(input) then Refused(NonUtf8) else ParseStr(input)
  }

  lemma LinesBuilt(parts: seq<string>)
    requires ParseLines(parts).Parsed?
    ensures Built(ParseLines(parts).request)
  {
  }

  // ---------------------------------------------------------------- rendering

  /** The seven lines of a request, with a given spelling of the time. */
  function Lines(r: CanonicalRequest, time: string): (parts: seq<string>)
    ensures |parts| == 7
  {
    [CANONICAL_REQUEST_PREFIX, r.deviceId, time, r.nonce, r.verb, r.pathAndQuery, r.bodyHash]
  }

  /** A spelling of a number that `parse::<u64>` reads. */
  predicate Spells(time: string, t: u64) { ParseU64(time) == Some(t) }

  lemma JoinSeven(a: string, b: string, c: string, d: string, e: string, f: string, g: string, sep: char)
    ensures Join([a, b, c, d, e, f, g], sep)
      == a + [sep] + (b + [sep] + (c + [sep] + (d + [sep] + (e + [sep] + (f + [sep] + g)))))
  {
    JoinCons(f, [g], sep);
    JoinCons(e, [f, g], sep);
    JoinCons(d, [e, f, g], sep);
    JoinCons(c, [d, e, f, g], sep);
    JoinCons(b, [c, d, e, f, g], sep);
    JoinCons(a, [b, c, d, e, f, g], sep);
    assert [a] + [b, c, d, e, f, g] == [a, b, c, d, e, f, g];
    assert [b] + [c, d, e, f, g] == [b, c, d, e, f, g];
    assert [c] + [d, e, f, g] == [c, d, e, f, g];
    assert [d] + [e, f, g] == [d, e, f, g];
    assert [e] + [f, g] == [e, f, g];
    assert [f] + [g] == [f, g];
  }

  lemma RenderIsJoin(r: CanonicalRequest)
    ensures Render(r) == Join(Lines(r, PrintDecimal(r.timestampMs)), '\n')
  {
    JoinSeven(CANONICAL_REQUEST_PREFIX, r.deviceId, PrintDecimal(r.timestampMs), r.nonce, r.verb, r.pathAndQuery,
              r.bodyHash, '\n');
  }

  lemma SpellingIsOneLine(time: string, t: u64)
    requires Spells(time, t)
    ensures '\n' !in time
  {
    var digits := if time != "" && time[0] == '+' then time[1..] else time;
    forall i | 0 <= i < |time|
      ensures time[i] != '\n'
    {
      if digits == time {
        assert IsDigit(digits[i]);
      } else if i > 0 {
        assert IsDigit(digits[i - 1]);
      }
    }
  }

  lemma LinesAreLines(r: CanonicalRequest, time: string)
    requires Built(r) && Spells(time, r.timestampMs)
    ensures Split(Join(Lines(r, time), '\n'), '\n') == Lines(r, time)
    ensures ParseLines(Lines(r, time)) == Parsed(r)
  {
    SpellingIsOneLine(time, r.timestampMs);
    var parts := Lines(r, time);
    forall i | 0 <= i < |parts|
      ensures '\n' !in parts[i]
    {
      if i == 1 {
        assert forall k :: 0 <= k < 36 ==> r.deviceId[k] == '-' || IsHexDigit(r.deviceId[k]);
      }
    }
    SplitJoin(parts, '\n');
  }

  lemma {:induction false} JoinEnd(parts: seq<string>, sep: char)
    requires |parts| >= 1
    ensures parts[|parts| - 1] != "" ==>
      var s, last := Join(parts, sep), parts[|parts| - 1];
      s != "" && s[|s| - 1] == last[|last| - 1]
    ensures |parts| >= 2 && parts[|parts| - 1] == "" ==>
      Join(parts, sep) == Join(parts[..|parts| - 1], sep) + [sep]
  {
    if |parts| >= 2 {
      JoinEnd(parts[1..], sep);
      assert parts[1..][..|parts| - 2] == parts[1..|parts| - 1];
      if |parts| > 2 {
        assert parts[..|parts| - 1][1..] == parts[1..|parts| - 1];
      }
    }
  }

  // ---------------------------------------------------------------- properties

  /** What `render` then `parse` gives: the request itself exactly when its body hash is not empty. */
  lemma RoundTripExactly(r: CanonicalRequest)
    requires Built(r)
    ensures ParseStr(Render(r)) == Parsed(r) <==> r.bodyHash != ""
    ensures r.bodyHash == "" ==> ParseStr(Render(r)) == Refused(InvalidFormat)
  {
    var time := PrintDecimal(r.timestampMs);
    var parts := Lines(r, time);
    ParsePrint(r.timestampMs);
    RenderIsJoin(r);
    LinesAreLines(r, time);
    JoinEnd(parts, '\n');
    if r.bodyHash != "" {
      assert r.bodyHash[|r.bodyHash| - 1] in r.bodyHash;
      assert StripNewline(Render(r)) == Render(r);
    } else {
      assert StripNewline(Render(r)) == Join(parts[..6], '\n');
      forall i | 0 <= i < 6
        ensures '\n' !in parts[i]
      {
        JoinSplit(Render(r), '\n');
      }
      SplitJoin(parts[..6], '\n');
    }
  }

  /** A text and a trailing newline parse alike, so an empty body hash survives with one. */
  lemma TrailingNewlineRoundTrip(r: CanonicalRequest)
    requires Built(r)
    ensures ParseStr(Render(r) + "\n") == Parsed(r)
  {
    ParsePrint(r.timestampMs);
    RenderIsJoin(r);
    LinesAreLines(r, PrintDecimal(r.timestampMs));
    assert StripNewline(Render(r) + "\n") == Render(r);
  }

  /** Different requests never render alike, so a signature binds every field. */
  lemma RenderInjective(a: CanonicalRequest, b: CanonicalRequest)
    requires Built(a) && Built(b) && Render(a) == Render(b)
    ensures a == b
  {
    TrailingNewlineRoundTrip(a);
    TrailingNewlineRoundTrip(b);
  }

  /**
   The request's seven lines, with some spelling of the time, and a final newline unless the body hash
   makes it optional.
   */
  predicate ReadsAs(input: string, r: CanonicalRequest, time: string) {
    && Spells(time, r.timestampMs)
    && (input == Join(Lines(r, time), '\n') + "\n" || (r.bodyHash != "" && input == Join(Lines(r, time), '\n')))
  }

  /** Exactly which texts are read as a request. */
  lemma ParsesExactly(input: string, r: CanonicalRequest)
    ensures ParseStr(input) == Parsed(r) <==> Built(r) && exists time :: ReadsAs(input, r, time)
  {
    if ParseStr(input) == Parsed(r) {
      ParsedReadsAs(input, r);
    }
    if time :| Built(r) && ReadsAs(input, r, time) {
      LinesAreLines(r, time);
      JoinEnd(Lines(r, time), '\n');
      if r.bodyHash != "" { assert r.bodyHash[|r.bodyHash| - 1] in r.bodyHash; }
      assert StripNewline(input) == Join(Lines(r, time), '\n');
    }
  }

  lemma ParsedReadsAs(input: string, r: CanonicalRequest)
    requires ParseStr(input) == Parsed(r)
    ensures Built(r) && ReadsAs(input, r, Split(StripNewline(input), '\n')[2])
  {
    var text := StripNewline(input);
    var parts := Split(text, '\n');
    JoinSplit(text, '\n');
    assert parts == Lines(r, parts[2]);
    JoinEnd(parts, '\n');
    assert input == text + "\n" || input == text;
  }

  // ---------------------------------------------------------------- what is refused

  /** The hexadecimal digits with hyphens of a device id. */
  ghost predicate IsDeviceId(s: string) {
    && |s| == 36 && s[8] == '-' && s[13] == '-' && s[18] == '-' && s[23] == '-'
    && forall i :: 0 <= i < 36 && i !in {8, 13, 18, 23} ==> s[i] in "0123456789abcdefABCDEF"
  }

  ghost predicate OnOneLine(s: string) { forall i :: 0 <= i < |s| ==> s[i] != '\n' && s[i] != '\r' }

  lemma HexDigits(c: char)
    ensures IsHexDigit(c) <==> c in "0123456789abcdefABCDEF"
  {
    if '0' <= c <= '9' {
      assert c == "0123456789abcdefABCDEF"[c as int - '0' as int];
    } else if 'a' <= c <= 'f' {
      assert c == "0123456789abcdefABCDEF"[10 + c as int - 'a' as int];
    } else if 'A' <= c <= 'F' {
      assert c == "0123456789abcdefABCDEF"[16 + c as int - 'A' as int];
    }
  }

  /** The first objection to a text of these lines. */
  ghost function Objection(lines: seq<string>): Option<CanonicalError> {
    if |lines| != 7 then Some(InvalidFormat)
    else if lines[0] != "TT-SYNC-V2" then Some(InvalidPrefix)
    else if !IsDeviceId(lines[1]) then Some(BadDeviceId)
    else if forall n: u64 :: !Spelling(lines[2], n) then Some(InvalidTimestamp)
    else if !OnOneLine(lines[3]) then Some(InvalidField("nonce"))
    else if !OnOneLine(lines[4]) then Some(InvalidField("method"))
    else if !OnOneLine(lines[5]) then Some(InvalidField("path_and_query"))
    else if !OnOneLine(lines[6]) then Some(InvalidField("body_sha256_base64url"))
    else None
  }

  lemma DeviceIds(s: string)
    ensures ValidDeviceId(s) <==> IsDeviceId(s)
  {
    forall i | 0 <= i < |s|
      ensures IsHexDigit(s[i]) <==> s[i] in "0123456789abcdefABCDEF"
    {
      HexDigits(s[i]);
    }
  }

  /** The requests that can be built: a device id, and four fields of one line each. */
  lemma BuiltMeaning(r: CanonicalRequest)
    ensures Built(r) <==>
      && IsDeviceId(r.deviceId) && OnOneLine(r.nonce) && OnOneLine(r.verb) && OnOneLine(r.pathAndQuery)
      && OnOneLine(r.bodyHash)
  {
    DeviceIds(r.deviceId);
  }

  /** The reader's objection to seven lines is the first there is. */
  lemma LinesRefused(lines: seq<string>)
    ensures ParseLines(lines).Refused? <==> Objection(lines).Some?
    ensures ParseLines(lines).Refused? ==> Objection(lines) == Some(ParseLines(lines).error)
  {
    if |lines| == 7 {
      DeviceIds(lines[1]);
      forall n: u64
        ensures ParseU64(lines[2]) == Some(n) <==> Spelling(lines[2], n)
      {
        ReadsExactly(lines[2], n);
      }
      assert ParseU64(lines[2]) == None <==> forall n: u64 :: !Spelling(lines[2], n);
      FieldOnOneLine(lines[3]);
      FieldOnOneLine(lines[4]);
      FieldOnOneLine(lines[5]);
      FieldOnOneLine(lines[6]);
    }
  }

  lemma FieldOnOneLine(s: string)
    ensures ValidField(s) <==> OnOneLine(s)
  {
  }

  /** A text of the given lines, with or without a final newline, is refused for the first objection there is. */
  lemma RefusedExactly(lines: seq<string>, input: string)
    requires |lines| >= 1 && forall i :: 0 <= i < |lines| ==> '\n' !in lines[i]
    requires input == Join(lines, '\n') + "\n" || (input == Join(lines, '\n') && !EndsWith(input, "\n"))
    ensures ParseStr(input).Refused? <==> Objection(lines).Some?
    ensures ParseStr(input).Refused? ==> Objection(lines) == Some(ParseStr(input).error)
  {
    SplitJoin(lines, '\n');
    assert StripNewline(input) == Join(lines, '\n');
    LinesRefused(lines);
  }
}
