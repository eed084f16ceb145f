/** The pairing URI: percent-encoded query fields (sections 2.1 and 2.3 of RFC 3986). */
module PairUri {
  import opened Wrappers
  import opened Text

  datatype PairUri = PairUri(url: string, token: string, expiresAtMs: u64, spkiSha256: string)

  datatype PairUriError = InvalidFormat
                        | MissingField(name: string)
                        | UnsupportedVersion
                        | InvalidExp
                        | InvalidPercentEncoding

  datatype Outcome<+T> = Success(value: T) | Failure(error: PairUriError)

  // ---------------------------------------------------------------- percent-encoding

  predicate IsUnreserved(c: char) {
    'A' <= c <= 'Z' || 'a' <= c <= 'z' || '0' <= c <= '9' || c in {'-', '_', '.', '~'}
  }

  function HexDigit(n: nat): char
    requires n < 16
  {
    if n < 10 then (n + '0' as int) as char else (n - 10 + 'A' as int) as char
  }

  function EncodeByte(c: char): string
    requires IsByte(c)
  {
    if IsUnreserved(c) then [c] else ['%', HexDigit(c as int / 16), HexDigit(c as int % 16)]
  }

  function Encoded(s: string): string
    requires IsBytes(s)
  {
    if s == "" then "" else EncodeByte(s[0]) + Encoded(s[1..])
  }

  lemma EncodedStep(value: string, i: nat, out: string)
    requires IsBytes(value) && i < |value|
    ensures IsByte(value[i]) && out + Encoded(value[i..]) == out + EncodeByte(value[i]) + Encoded(value[i + 1..])
    ensures !IsUnreserved(value[i]) ==>
      out + EncodeByte(value[i]) == out + ['%'] + [HexDigit(value[i] as int / 16), HexDigit(value[i] as int % 16)]
  {
    var rest := value[i..];
    assert rest[0] == value[i] && rest[1..] == value[i + 1..];
    assert out + (EncodeByte(value[i]) + Encoded(value[i + 1..]))
      == out + EncodeByte(value[i]) + Encoded(value[i + 1..]);
  }

  /** `urlencoded`. */
  method UrlEncode(value: string) returns (result: string)
    requires IsBytes(value)
    ensures result == Encoded(value)
  {
    result := "";
    for i := 0 to |value|
      invariant result + Encoded(value[i..]) == Encoded(value)
    {
      var c := value[i];
      EncodedStep(value, i, result);
      if IsUnreserved(c) {
        result := result + [c];
      } else {
        result := result + ['%'] + [HexDigit(c as int / 16), HexDigit(c as int % 16)];
      }
    }
  }

  /** `from_hex`: digits of either case. */
  function FromHex(c: char): (r: Option<nat>)
    ensures r.Some? ==> r.value < 16
  {
    if '0' <= c <= '9' then Some(c as int - '0' as int)
    else if 'a' <= c <= 'f' then Some(c as int - 'a' as int + 10)
    else if 'A' <= c <= 'F' then Some(c as int - 'A' as int + 10)
    else None
  }

  const LOWER_DIGITS := "0123456789abcdef"
  const UPPER_DIGITS := "0123456789ABCDEF"

  /** A character is a digit exactly if it is in one of the two tables, and its place is its value. */
  lemma HexTable(c: char, n: nat)
    ensures FromHex(c) == Some(n) <==> n < 16 && (c == LOWER_DIGITS[n] || c == UPPER_DIGITS[n])
  {
    assert |LOWER_DIGITS| == |UPPER_DIGITS| == 16;
    if n < 16 {
      assert LOWER_DIGITS[n] as int == if n < 10 then '0' as int + n else 'a' as int + n - 10;
      assert UPPER_DIGITS[n] as int == if n < 10 then '0' as int + n else 'A' as int + n - 10;
    }
  }

  /** The bytes a percent-encoded text stands for. */
  function Decoded(s: string): Option<string> {
    if s == "" then Some("")
    else if s[0] != '%' then PrefixByte(s[0], Decoded(s[1..]))
    else if |s| < 3 || FromHex(s[1]).None? || FromHex(s[2]).None? then None
    else PrefixByte((FromHex(s[1]).value * 16 + FromHex(s[2]).value) as char, Decoded(s[3..]))
  }

  function PrefixByte(c: char, rest: Option<string>): Option<string> {
    if rest.Some? then Some([c] + rest.value) else None
  }

  function Prefixed(out: string, rest: Option<string>): Option<string> {
    if rest.Some? then Some(out + rest.value) else None
  }

  lemma PrefixedMore(out: string, c: char, rest: Option<string>)
    ensures Prefixed(out, PrefixByte(c, rest)) == Prefixed(out + [c], rest)
  {
    if rest.Some? { assert out + ([c] + rest.value) == out + [c] + rest.value; }
  }

  /** A query value that `percent_decode` accepts. */
  function DecodedText(s: string): Option<string> {
    if Decoded(s).Some? && IsUtf8(Decoded(s).value) then Decoded(s) else None
  }

  /** `percent_decode`. */
  method PercentDecode(value: string) returns (r: Outcome<string>)
    ensures r == if DecodedText(value).Some? then Success(DecodedText(value).value) else Failure(InvalidPercentEncoding)
  {
    var out: string, i: nat := "", 0;
    assert value[i..] == value;
    assert Decoded(value).Some? ==> out + Decoded(value).value == Decoded(value).value;
    while i < |value|
      invariant i <= |value|
      invariant Decoded(value) == Prefixed(out, Decoded(value[i..]))
    {
      var b, rest := value[i], value[i..];
      if b == '%' {
        if i + 2 >= |value| {
          return Failure(InvalidPercentEncoding);
        }
        var hi, lo := FromHex(value[i + 1]), FromHex(value[i + 2]);
        if hi.None? || lo.None? {
          return Failure(InvalidPercentEncoding);
        }
        assert rest[3..] == value[i + 3..];
        PrefixedMore(out, (hi.value * 16 + lo.value) as char, Decoded(value[i + 3..]));
        out, i := out + [(hi.value * 16 + lo.value) as char], i + 3;
      } else {
        assert rest[1..] == value[i + 1..];
        PrefixedMore(out, b, Decoded(value[i + 1..]));
        out, i := out + [b], i + 1;
      }
    }
    assert out + "" == out;
    if !IsUtf8(out) {
      return Failure(InvalidPercentEncoding);
    }
    return Success(out);
  }

  lemma {:induction false} DecodeEncoded(s: string)
    requires IsBytes(s)
    ensures Decoded(Encoded(s)) == Some(s)
    ensures forall c :: c in Encoded(s) ==> IsUnreserved(c) || c == '%'
  {
    if s != "" {
      DecodeEncoded(s[1..]);
      var c, rest, text := s[0], Encoded(s[1..]), Encoded(s);
      assert IsByte(c);
      if IsUnreserved(c) {
        assert text[1..] == rest;
      } else {
        var hi, lo := c as int / 16, c as int % 16;
        assert FromHex(HexDigit(hi)) == Some(hi) && FromHex(HexDigit(lo)) == Some(lo);
        assert text[3..] == rest;
        assert IsUnreserved(HexDigit(hi)) && IsUnreserved(HexDigit(lo));
      }
      assert s == [c] + s[1..];
    }
  }

  lemma {:induction false} PlainDecodesToItself(s: string)
    requires '%' !in s
    ensures Decoded(s) == Some(s)
  {
    if s != "" {
      assert s[0] in s && forall c :: c in s[1..] ==> c in s;
      PlainDecodesToItself(s[1..]);
      assert s == [s[0]] + s[1..];
    }
  }

  // ---------------------------------------------------------------- the URI

  const PAIR_BASE := "tauritavern://tt-sync/pair"

  /** Rust strings are UTF-8. */
  predicate IsText(u: PairUri) { IsUtf8(u.url) && IsUtf8(u.token) && IsUtf8(u.spkiSha256) }

  function Part(key: string, value: string): string { key + ['='] + value }

  function Parts(u: PairUri): (parts: seq<string>)
    requires IsBytes(u.url) && IsBytes(u.token) && IsBytes(u.spkiSha256)
    ensures |parts| == 5
  {
    [Part("v", "2"), Part("url", Encoded(u.url)), Part("token", Encoded(u.token)),
     Part("exp", PrintDecimal(u.expiresAtMs)), Part("spki", Encoded(u.spkiSha256))]
  }

  /** `to_uri_string`. */
  method ToUriString(u: PairUri) returns (uri: string)
    requires IsText(u)
    ensures IsBytes(u.url) && IsBytes(u.token) && IsBytes(u.spkiSha256)
    ensures uri == PAIR_BASE + ['?'] + Join(Parts(u), '&')
    ensures Meaning(uri) == Success(u)
  {
    RoundTrip(u);
    Utf8IsBytes(u.url);
    Utf8IsBytes(u.token);
    Utf8IsBytes(u.spkiSha256);
    var url := UrlEncode(u.url);
    var token := UrlEncode(u.token);
    var spki := UrlEncode(u.spkiSha256);
    uri := "tauritavern://tt-sync/pair?v=2&url=" + (url + ("&token=" + (token
         + ("&exp=" + (PrintDecimal(u.expiresAtMs) + ("&spki=" + spki))))));
    JoinParts(u);
  }

  lemma JoinFive(a: string, b: string, c: string, d: string, e: string, sep: char)
    ensures Join([a, b, c, d, e], sep) == a + [sep] + (b + [sep] + (c + [sep] + (d + [sep] + e)))
  {
    JoinCons(d, [e], sep);
    JoinCons(c, [d, e], sep);
    JoinCons(b, [c, d, e], sep);
    JoinCons(a, [b, c, d, e], sep);
    assert [d] + [e] == [d, e];
    assert [c] + [d, e] == [c, d, e];
    assert [b] + [c, d, e] == [b, c, d, e];
    assert [a] + [b, c, d, e] == [a, b, c, d, e];
  }

  lemma Chain(key: string, value: string, next: string, rest: string)
    ensures Part(key, value) + ['&'] + (next + rest) == key + "=" + (value + ("&" + next + rest))
  {
  }

  lemma JoinParts(u: PairUri)
    requires IsBytes(u.url) && IsBytes(u.token) && IsBytes(u.spkiSha256)
    ensures PAIR_BASE + ['?'] + Join(Parts(u), '&')
      == "tauritavern://tt-sync/pair?v=2&url=" + (Encoded(u.url) + ("&token=" + (Encoded(u.token)
       + ("&exp=" + (PrintDecimal(u.expiresAtMs) + ("&spki=" + Encoded(u.spkiSha256)))))))
  {
    var url, token, exp, spki := Encoded(u.url), Encoded(u.token), PrintDecimal(u.expiresAtMs), Encoded(u.spkiSha256);
    JoinFive(Part("v", "2"), Part("url", url), Part("token", token), Part("exp", exp), Part("spki", spki), '&');
    Assemble(url, token, exp, spki);
  }

  lemma Assemble(url: string, token: string, exp: string, spki: string)
    ensures PAIR_BASE + ['?'] + (Part("v", "2") + ['&'] + (Part("url", url) + ['&'] + (Part("token", token)
          + ['&'] + (Part("exp", exp) + ['&'] + Part("spki", spki)))))
      == "tauritavern://tt-sync/pair?v=2&url=" + (url + ("&token=" + (token + ("&exp=" + (exp + ("&spki=" + spki))))))
  {
    Labels();
    assert Part("spki", spki) == "spki=" + spki;
    Chain("exp", exp, "spki=", spki);
    var three := exp + ("&spki=" + spki);
    Chain("token", token, "exp=", three);
    var two := token + ("&exp=" + three);
    Chain("url", url, "token=", two);
    var one := url + ("&token=" + two);
    Head(one);
  }

  lemma Labels()
    ensures "token" + "=" == "token=" && "&" + "token=" == "&token="
    ensures "exp" + "=" == "exp=" && "&" + "exp=" == "&exp="
    ensures "spki" + ['='] == "spki=" && "&" + "spki=" == "&spki="
  {
  }

  lemma Head(rest: string)
    ensures PAIR_BASE + ['?'] + (Part("v", "2") + ['&'] + ("url" + "=" + rest))
      == "tauritavern://tt-sync/pair?v=2&url=" + rest
  {
    assert PAIR_BASE + ['?'] + (Part("v", "2") + ['&'] + "url=") == "tauritavern://tt-sync/pair?v=2&url=";
    assert "url" + "=" == "url=";
  }

  /** A query part with an equals sign and a decodable value. */
  predicate WellFormed(part: string) {
    SplitOnce(part, '=').Some? && DecodedText(SplitOnce(part, '=').value.1).Some?
  }

  /** The decoded value of a key; where a key is repeated the last one counts. */
  function ValueOf(parts: seq<string>, key: string): Option<string> {
    if parts == [] then None
    else
      var last := SplitOnce(parts[|parts| - 1], '=');
      if last.Some? && last.value.0 == key then DecodedText(last.value.1) else ValueOf(parts[..|parts| - 1], key)
  }

  /** What a URI says, and the first objection to it otherwise. */
  function Meaning(input: string): Outcome<PairUri> {
    match SplitOnce(input, '?')
    case None => Failure(InvalidFormat)
    case Some((base, query)) =>
      var parts := Split(query, '&');
      if base != PAIR_BASE then Failure(InvalidFormat)
      else if FirstObjection(parts).Some? then Failure(FirstObjection(parts).value)
      else if ValueOf(parts, "v") != Some("2") then Failure(UnsupportedVersion)
      else if ValueOf(parts, "exp").None? then Failure(MissingField("exp"))
      else if ParseU64(ValueOf(parts, "exp").value).None? then Failure(InvalidExp)
      else if ValueOf(parts, "url").None? then Failure(MissingField("url"))
      else if ValueOf(parts, "token").None? then Failure(MissingField("token"))
      else if ValueOf(parts, "spki").None? then Failure(MissingField("spki"))
      else Success(PairUri(ValueOf(parts, "url").value, ValueOf(parts, "token").value,
                           ParseU64(ValueOf(parts, "exp").value).value, ValueOf(parts, "spki").value))
  }

  function FirstObjection(parts: seq<string>): (r: Option<PairUriError>)
    ensures r.None? <==> forall i :: 0 <= i < |parts| ==> WellFormed(parts[i])
  {
    if parts == [] then None
    else
      var init := FirstObjection(parts[..|parts| - 1]);
      var last := SplitOnce(parts[|parts| - 1], '=');
      if init.Some? then init
      else if last.None? then Some(InvalidFormat)
      else if DecodedText(last.value.1).None? then Some(InvalidPercentEncoding)
      else None
  }

  // ---------------------------------------------------------------- the same without the order of tests

  /** The URI has the fixed base, and this is its query. */
  ghost predicate HasQuery(input: string, query: string) { input == "tauritavern://tt-sync/pair" + "?" + query }

  /** The part is a key, an equals sign and a value that can be decoded. */
  ghost predicate Readable(part: string) {
    exists key, value :: ReadsAs(part, key, value) && DecodedText(value).Some?
  }

  ghost predicate AllReadable(parts: seq<string>) { forall i :: 0 <= i < |parts| ==> Readable(parts[i]) }

  ghost predicate ReadsAs(part: string, key: string, value: string) { part == key + "=" + value && '=' !in key }

  ghost predicate HasKey(part: string, key: string) { exists value :: ReadsAs(part, key, value) }

  /** Part `i` is the last one with this key, and its value stands for `text`. */
  ghost predicate LastAt(parts: seq<string>, key: string, i: int, text: string) {
    && 0 <= i < |parts|
    && (exists value :: ReadsAs(parts[i], key, value) && DecodedText(value) == Some(text))
    && NoKeyFrom(parts, key, i + 1)
  }

  ghost predicate NoKeyFrom(parts: seq<string>, key: string, n: nat) {
    forall j :: n <= j < |parts| ==> !HasKey(parts[j], key)
  }

  ghost predicate Says(parts: seq<string>, key: string, text: string) { exists i :: LastAt(parts, key, i, text) }

  /**
   The query says all of `u`: version 2, and its four fields, each by the last part with that key; the
   expiry in any spelling of the number.
   */
  ghost predicate SaysAll(parts: seq<string>, u: PairUri) {
    && AllReadable(parts)
    && Says(parts, "v", "2") && Says(parts, "url", u.url) && Says(parts, "token", u.token)
    && Says(parts, "spki", u.spkiSha256)
    && exists exp :: Says(parts, "exp", exp) && ParseU64(exp) == Some(u.expiresAtMs)
  }

  lemma ReadsAsMeaning(part: string, key: string, value: string)
    ensures ReadsAs(part, key, value) <==> SplitOnce(part, '=') == Some((key, value))
  {
    if ReadsAs(part, key, value) { SplitOnceUnique(key, value, '='); }
  }

  lemma ReadableMeaning(part: string)
    ensures Readable(part) <==> WellFormed(part)
  {
    if key, value :| ReadsAs(part, key, value) && DecodedText(value).Some? {
      ReadsAsMeaning(part, key, value);
    }
    if WellFormed(part) {
      var (key, value) := SplitOnce(part, '=').value;
      ReadsAsMeaning(part, key, value);
    }
  }

  lemma AllReadableMeaning(parts: seq<string>)
    ensures AllReadable(parts) <==> forall i :: 0 <= i < |parts| ==> WellFormed(parts[i])
  {
    forall i | 0 <= i < |parts|
      ensures Readable(parts[i]) <==> WellFormed(parts[i])
    {
      ReadableMeaning(parts[i]);
    }
  }

  lemma NoKeyMeaning(part: string, key: string)
    ensures HasKey(part, key) <==> SplitOnce(part, '=').Some? && SplitOnce(part, '=').value.0 == key
  {
    forall value
      ensures ReadsAs(part, key, value) <==> SplitOnce(part, '=') == Some((key, value))
    {
      ReadsAsMeaning(part, key, value);
    }
    if SplitOnce(part, '=').Some? && SplitOnce(part, '=').value.0 == key {
      assert ReadsAs(part, key, SplitOnce(part, '=').value.1);
    }
  }

  lemma NoKeyInit(parts: seq<string>, key: string, n: nat)
    requires parts != [] && NoKeyFrom(parts, key, n)
    ensures NoKeyFrom(parts[..|parts| - 1], key, n)
  {
  }

  lemma NoKeyMore(parts: seq<string>, key: string, n: nat)
    requires parts != [] && NoKeyFrom(parts[..|parts| - 1], key, n)
    requires !HasKey(parts[|parts| - 1], key)
    ensures NoKeyFrom(parts, key, n)
  {
    forall j | n <= j < |parts|
      ensures !HasKey(parts[j], key)
    {
      if j < |parts| - 1 { assert parts[..|parts| - 1][j] == parts[j]; }
    }
  }

  lemma LastAtInit(parts: seq<string>, key: string, i: int, text: string)
    requires parts != [] && !HasKey(parts[|parts| - 1], key)
    ensures LastAt(parts, key, i, text) <==> LastAt(parts[..|parts| - 1], key, i, text)
  {
    var init := parts[..|parts| - 1];
    if LastAt(parts, key, i, text) {
      NoKeyInit(parts, key, i + 1);
      assert init[i] == parts[i];
    }
    if LastAt(init, key, i, text) {
      NoKeyMore(parts, key, i + 1);
      assert init[i] == parts[i];
    }
  }

  /** A key's value is that of its last part, and there is none exactly if no part has the key. */
  lemma {:induction false} ValueOfMeaning(parts: seq<string>, key: string, text: string)
    requires forall i :: 0 <= i < |parts| ==> WellFormed(parts[i])
    ensures ValueOf(parts, key) == Some(text) <==> Says(parts, key, text)
    ensures ValueOf(parts, key).None? <==> NoKeyFrom(parts, key, 0)
  {
    if parts != [] {
      var n := |parts| - 1;
      var init, last := parts[..n], parts[n];
      ValueOfMeaning(init, key, text);
      NoKeyMeaning(last, key);
      if SplitOnce(last, '=').value.0 == key {
        LastPartSays(parts, key, text);
      } else {
        forall i
          ensures LastAt(parts, key, i, text) <==> LastAt(init, key, i, text)
        {
          LastAtInit(parts, key, i, text);
        }
        if NoKeyFrom(parts, key, 0) { NoKeyInit(parts, key, 0); }
        if NoKeyFrom(init, key, 0) { NoKeyMore(parts, key, 0); }
      }
    }
  }

  lemma LastPartSays(parts: seq<string>, key: string, text: string)
    requires parts != [] && WellFormed(parts[|parts| - 1]) && SplitOnce(parts[|parts| - 1], '=').value.0 == key
    ensures Says(parts, key, text) <==> DecodedText(SplitOnce(parts[|parts| - 1], '=').value.1) == Some(text)
    ensures !NoKeyFrom(parts, key, 0)
  {
    var n := |parts| - 1;
    var value := SplitOnce(parts[n], '=').value.1;
    ReadsAsMeaning(parts[n], key, value);
    assert ReadsAs(parts[n], key, value);
    if i :| LastAt(parts, key, i, text) {
      assert i == n;
      var v :| ReadsAs(parts[n], key, v) && DecodedText(v) == Some(text);
      ReadsAsMeaning(parts[n], key, v);
    }
    if DecodedText(value) == Some(text) { assert LastAt(parts, key, n, text); }
  }

  lemma QueryMeaning(input: string, query: string)
    ensures HasQuery(input, query) <==> SplitOnce(input, '?') == Some((PAIR_BASE, query))
  {
    if HasQuery(input, query) { SplitOnceUnique(PAIR_BASE, query, '?'); }
  }

  lemma MeansSaid(input: string, query: string, u: PairUri)
    requires HasQuery(input, query)
    ensures Meaning(input) == Success(u) <==> SaysAll(Split(query, '&'), u)
  {
    QueryMeaning(input, query);
    SaysMeaning(Split(query, '&'), u);
  }

  lemma MeaningHasQuery(input: string, u: PairUri) returns (query: string)
    requires Meaning(input) == Success(u)
    ensures HasQuery(input, query)
  {
    query := SplitOnce(input, '?').value.1;
    QueryMeaning(input, query);
  }

  /** A URI means `u` exactly if it has the fixed base and its query says all of `u`. */
  lemma MeansExactly(input: string, u: PairUri)
    ensures Meaning(input) == Success(u) <==> exists query :: HasQuery(input, query) && SaysAll(Split(query, '&'), u)
  {
    if query :| HasQuery(input, query) && SaysAll(Split(query, '&'), u) {
      MeansSaid(input, query, u);
    }
    if Meaning(input) == Success(u) {
      var query := MeaningHasQuery(input, u);
      MeansSaid(input, query, u);
    }
  }

  /** The fields that the last part of each key gives. */
  ghost predicate Given(parts: seq<string>, u: PairUri) {
    && FirstObjection(parts).None?
    && ValueOf(parts, "v") == Some("2") && ValueOf(parts, "url") == Some(u.url)
    && ValueOf(parts, "token") == Some(u.token) && ValueOf(parts, "spki") == Some(u.spkiSha256)
    && ValueOf(parts, "exp").Some? && ParseU64(ValueOf(parts, "exp").value) == Some(u.expiresAtMs)
  }

  lemma SaysMeaning(parts: seq<string>, u: PairUri)
    ensures SaysAll(parts, u) <==> Given(parts, u)
  {
    AllReadableMeaning(parts);
    if AllReadable(parts) {
      ValueOfMeaning(parts, "v", "2");
      ValueOfMeaning(parts, "url", u.url);
      ValueOfMeaning(parts, "token", u.token);
      ValueOfMeaning(parts, "spki", u.spkiSha256);
      if exp :| Says(parts, "exp", exp) && ParseU64(exp) == Some(u.expiresAtMs) { ValueOfMeaning(parts, "exp", exp); }
      if ValueOf(parts, "exp").Some? { ValueOfMeaning(parts, "exp", ValueOf(parts, "exp").value); }
    }
  }

  /** Another base is refused as no pairing URI. */
  lemma OtherBaseRefused(input: string)
    ensures Meaning(input) == Failure(InvalidFormat) || exists query :: HasQuery(input, query)
  {
    if SplitOnce(input, '?').Some? && SplitOnce(input, '?').value.0 == PAIR_BASE {
      QueryMeaning(input, SplitOnce(input, '?').value.1);
    }
  }

  /** The first part that cannot be read decides the refusal. */
  lemma UnreadableRefused(input: string, query: string, i: nat)
    requires HasQuery(input, query) && i < |Split(query, '&')|
    requires !Readable(Split(query, '&')[i]) && AllReadable(Split(query, '&')[..i])
    ensures Meaning(input) == Failure(if '=' in Split(query, '&')[i] then InvalidPercentEncoding else InvalidFormat)
  {
    QueryMeaning(input, query);
    FirstUnreadable(Split(query, '&'), i);
  }

  lemma FirstUnreadable(parts: seq<string>, i: nat)
    requires i < |parts| && !Readable(parts[i]) && AllReadable(parts[..i])
    ensures FirstObjection(parts) == Some(if '=' in parts[i] then InvalidPercentEncoding else InvalidFormat)
  {
    AllReadableMeaning(parts[..i]);
    assert parts[..i + 1][..i] == parts[..i];
    LastUnreadable(parts[..i + 1]);
    ObjectionStays(parts, i + 1);
  }

  lemma LastUnreadable(parts: seq<string>)
    requires parts != [] && !Readable(parts[|parts| - 1]) && FirstObjection(parts[..|parts| - 1]).None?
    ensures FirstObjection(parts)
      == Some(if '=' in parts[|parts| - 1] then InvalidPercentEncoding else InvalidFormat)
  {
    ReadableMeaning(parts[|parts| - 1]);
  }

  /** Where every part can be read, the first of the tests on the fields that fails decides the refusal. */
  lemma FieldsRefused(input: string, query: string)
    requires HasQuery(input, query) && AllReadable(Split(query, '&'))
    ensures var parts := Split(query, '&');
      if !Says(parts, "v", "2") then Meaning(input) == Failure(UnsupportedVersion)
      else if NoKeyFrom(parts, "exp", 0) then Meaning(input) == Failure(MissingField("exp"))
      else if SaysNoNumber(parts) then Meaning(input) == Failure(InvalidExp)
      else if NoKeyFrom(parts, "url", 0) then Meaning(input) == Failure(MissingField("url"))
      else if NoKeyFrom(parts, "token", 0) then Meaning(input) == Failure(MissingField("token"))
      else NoKeyFrom(parts, "spki", 0) ==> Meaning(input) == Failure(MissingField("spki"))
  {
    var parts := Split(query, '&');
    QueryMeaning(input, query);
    AllReadableMeaning(parts);
    ValueOfMeaning(parts, "v", "2");
    ExpiryMeaning(parts);
    ValueOfMeaning(parts, "url", "");
    ValueOfMeaning(parts, "token", "");
    ValueOfMeaning(parts, "spki", "");
  }

  ghost predicate SaysNoNumber(parts: seq<string>) { exists exp :: Says(parts, "exp", exp) && ParseU64(exp).None? }

  lemma ExpiryMeaning(parts: seq<string>)
    requires forall i :: 0 <= i < |parts| ==> WellFormed(parts[i])
    ensures ValueOf(parts, "exp").None? <==> NoKeyFrom(parts, "exp", 0)
    ensures SaysNoNumber(parts) <==> ValueOf(parts, "exp").Some? && ParseU64(ValueOf(parts, "exp").value).None?
  {
    forall exp
      ensures ValueOf(parts, "exp") == Some(exp) <==> Says(parts, "exp", exp)
      ensures ValueOf(parts, "exp").None? <==> NoKeyFrom(parts, "exp", 0)
    {
      ValueOfMeaning(parts, "exp", exp);
    }
    assert ValueOf(parts, "exp").None? <==> NoKeyFrom(parts, "exp", 0) by { ValueOfMeaning(parts, "exp", ""); }
  }

  /**
   `parse_uri_string`. It succeeds exactly with what the URI says; any other URI is refused with the
   first objection to it.
   */
  method ParseUriString(input: string) returns (r: Outcome<PairUri>)
    ensures r == Meaning(input)
    ensures forall u :: r == Success(u) <==> exists query :: HasQuery(input, query) && SaysAll(Split(query, '&'), u)
  {
    forall u
      ensures Meaning(input) == Success(u) <==> exists query :: HasQuery(input, query) && SaysAll(Split(query, '&'), u)
    {
      MeansExactly(input, u);
    }
    var cut := SplitOnce(input, '?');
    if cut.None? {
      return Failure(InvalidFormat);
    }
    if cut.value.0 != PAIR_BASE {
      return Failure(InvalidFormat);
    }
    var parts := Split(cut.value.1, '&');
    var version, url, token, exp, spki: Option<string> := None, None, None, None, None;
    for i := 0 to |parts|
      invariant FirstObjection(parts[..i]).None?
      invariant version == ValueOf(parts[..i], "v") && url == ValueOf(parts[..i], "url")
      invariant token == ValueOf(parts[..i], "token") && exp == ValueOf(parts[..i], "exp")
      invariant spki == ValueOf(parts[..i], "spki")
    {
      assert parts[..i + 1][..i] == parts[..i];
      var field := SplitOnce(parts[i], '=');
      if field.None? {
        ObjectionStays(parts, i + 1);
        return Failure(InvalidFormat);
      }
      var value := PercentDecode(field.value.1);
      if value.Failure? {
        ObjectionStays(parts, i + 1);
        return Failure(value.error);
      }
      var key := field.value.0;
      if key == "v" { version := Some(value.value); }
      else if key == "url" { url := Some(value.value); }
      else if key == "token" { token := Some(value.value); }
      else if key == "exp" { exp := Some(value.value); }
      else if key == "spki" { spki := Some(value.value); }
    }
    assert parts[..|parts|] == parts;
    if version != Some("2") {
      return Failure(UnsupportedVersion);
    }
    if exp.None? {
      return Failure(MissingField("exp"));
    }
    var expiresAtMs := ParseU64(exp.value);
    if expiresAtMs.None? {
      return Failure(InvalidExp);
    }
    if url.None? { return Failure(MissingField("url")); }
    if token.None? { return Failure(MissingField("token")); }
    if spki.None? { return Failure(MissingField("spki")); }
    return Success(PairUri(url.value, token.value, expiresAtMs.value, spki.value));
  }

  lemma {:induction false} ObjectionStays(parts: seq<string>, n: nat)
    requires n <= |parts| && FirstObjection(parts[..n]).Some?
    ensures FirstObjection(parts) == FirstObjection(parts[..n])
    decreases |parts|
  {
    if n == |parts| {
      assert parts[..n] == parts;
    } else {
      var init := parts[..|parts| - 1];
      assert init[..n] == parts[..n];
      ObjectionStays(init, n);
    }
  }

  // ---------------------------------------------------------------- round trip

  lemma PartReads(key: string, value: string, text: string)
    requires '=' !in key && DecodedText(value) == Some(text)
    ensures SplitOnce(Part(key, value), '=') == Some((key, value)) && WellFormed(Part(key, value))
  {
    SplitOnceUnique(key, value, '=');
  }

  lemma EncodedReads(s: string)
    requires IsUtf8(s)
    ensures IsBytes(s) && DecodedText(Encoded(s)) == Some(s) && '&' !in Encoded(s)
  {
    Utf8IsBytes(s);
    DecodeEncoded(s);
  }

  lemma DecimalReads(n: u64)
    ensures DecodedText(PrintDecimal(n)) == Some(PrintDecimal(n)) && '&' !in PrintDecimal(n)
  {
    var s := PrintDecimal(n);
    PrintDecimalValue(n);
    assert forall i :: 0 <= i < |s| ==> IsDigit(s[i]);
    PlainDecodesToItself(s);
    AsciiIsUtf8(s);
  }

  /** A key's value is that of its last part. */
  lemma {:induction false} ValueHit(parts: seq<string>, k: nat, key: string, value: string)
    requires k < |parts| && SplitOnce(parts[k], '=') == Some((key, value))
    requires forall j :: k < j < |parts| ==> OtherKey(parts[j], key)
    ensures ValueOf(parts, key) == DecodedText(value)
  {
    if k < |parts| - 1 {
      assert OtherKey(parts[|parts| - 1], key);
      ValueHit(parts[..|parts| - 1], k, key, value);
    }
  }

  predicate OtherKey(part: string, key: string) {
    SplitOnce(part, '=').Some? && SplitOnce(part, '=').value.0 != key
  }

  const KEYS: seq<string> := ["v", "url", "token", "exp", "spki"]

  ghost predicate KeysApart(keys: seq<string>) {
    && (forall i :: 0 <= i < |keys| ==> '=' !in keys[i])
    && (forall i, j :: 0 <= i < j < |keys| ==> keys[i] != keys[j])
  }

  lemma KeysAreApart()
    ensures |KEYS| == 5 && KeysApart(KEYS)
  {
    assert KEYS[0] == "v" && KEYS[1] == "url" && KEYS[2] == "token" && KEYS[3] == "exp" && KEYS[4] == "spki";
  }

  /** With one part for each key, every key has the decoded value of its part. */
  lemma EachKeyOnce(keys: seq<string>, parts: seq<string>, encoded: seq<string>, values: seq<string>)
    requires KeysApart(keys) && |keys| == |parts| == |encoded| == |values|
    requires forall i :: 0 <= i < |keys| ==>
      parts[i] == Part(keys[i], encoded[i]) && DecodedText(encoded[i]) == Some(values[i])
    ensures forall i :: 0 <= i < |keys| ==> WellFormed(parts[i])
    ensures forall i :: 0 <= i < |keys| ==> ValueOf(parts, keys[i]) == Some(values[i])
  {
    forall i | 0 <= i < |keys|
      ensures WellFormed(parts[i]) && SplitOnce(parts[i], '=') == Some((keys[i], encoded[i]))
    {
      PartReads(keys[i], encoded[i], values[i]);
    }
    forall i | 0 <= i < |keys|
      ensures ValueOf(parts, keys[i]) == Some(values[i])
    {
      forall j | i < j < |keys|
        ensures OtherKey(parts[j], keys[i])
      {
        assert SplitOnce(parts[j], '=').value.0 == keys[j];
      }
      ValueHit(parts, i, keys[i], encoded[i]);
    }
  }

  lemma MeaningOf(query: string, url: string, token: string, exp: string, spki: string, t: u64)
    requires ParseU64(exp) == Some(t)
    requires FirstObjection(Split(query, '&')).None?
    requires var parts := Split(query, '&');
      && ValueOf(parts, "v") == Some("2") && ValueOf(parts, "url") == Some(url)
      && ValueOf(parts, "token") == Some(token)
      && ValueOf(parts, "exp") == Some(exp) && ValueOf(parts, "spki") == Some(spki)
    ensures Meaning(PAIR_BASE + ['?'] + query) == Success(PairUri(url, token, t, spki))
  {
    SplitOnceUnique(PAIR_BASE, query, '?');
  }

  /**
   Parsing what was rendered gives the same URI, for every text in every field, reserved bytes and empty
   values included.
   */
  lemma RoundTrip(u: PairUri)
    requires IsText(u)
    ensures IsBytes(u.url) && IsBytes(u.token) && IsBytes(u.spkiSha256)
    ensures Meaning(PAIR_BASE + ['?'] + Join(Parts(u), '&')) == Success(u)
  {
    EncodedReads(u.url);
    EncodedReads(u.token);
    EncodedReads(u.spkiSha256);
    var exp := PrintDecimal(u.expiresAtMs);
    DecimalReads(u.expiresAtMs);
    ParsePrint(u.expiresAtMs);
    PartsSplit(u);
    PartsRead(u, exp);
    MeaningOf(Join(Parts(u), '&'), u.url, u.token, exp, u.spkiSha256, u.expiresAtMs);
  }

  lemma PartsRead(u: PairUri, exp: string)
    requires IsText(u) && IsBytes(u.url) && IsBytes(u.token) && IsBytes(u.spkiSha256)
    requires DecodedText(Encoded(u.url)) == Some(u.url) && DecodedText(Encoded(u.token)) == Some(u.token)
    requires DecodedText(Encoded(u.spkiSha256)) == Some(u.spkiSha256)
    requires exp == PrintDecimal(u.expiresAtMs) && DecodedText(exp) == Some(exp)
    ensures var parts := Parts(u);
      && FirstObjection(parts).None?
      && ValueOf(parts, "v") == Some("2") && ValueOf(parts, "url") == Some(u.url)
      && ValueOf(parts, "token") == Some(u.token)
      && ValueOf(parts, "exp") == Some(exp) && ValueOf(parts, "spki") == Some(u.spkiSha256)
  {
    PlainDecodesToItself("2");
    FiveRead("2", "2", Encoded(u.url), u.url, Encoded(u.token), u.token, exp, exp, Encoded(u.spkiSha256), u.spkiSha256);
  }

  /** One part for each field, with its encoded and its decoded value. */
  lemma FiveRead(v: string, version: string, u: string, url: string, t: string, token: string, e: string, exp: string,
                 s: string, spki: string)
    requires DecodedText(v) == Some(version) && DecodedText(u) == Some(url) && DecodedText(t) == Some(token)
    requires DecodedText(e) == Some(exp) && DecodedText(s) == Some(spki)
    ensures var parts := [Part("v", v), Part("url", u), Part("token", t), Part("exp", e), Part("spki", s)];
      && FirstObjection(parts).None?
      && ValueOf(parts, "v") == Some(version) && ValueOf(parts, "url") == Some(url)
      && ValueOf(parts, "token") == Some(token)
      && ValueOf(parts, "exp") == Some(exp) && ValueOf(parts, "spki") == Some(spki)
  {
    KeysAreApart();
    var parts := [Part(KEYS[0], v), Part(KEYS[1], u), Part(KEYS[2], t), Part(KEYS[3], e), Part(KEYS[4], s)];
    EachKeyOnce(KEYS, parts, [v, u, t, e, s], [version, url, token, exp, spki]);
    assert ValueOf(parts, KEYS[0]) == Some(version) && ValueOf(parts, KEYS[1]) == Some(url);
    assert ValueOf(parts, KEYS[2]) == Some(token) && ValueOf(parts, KEYS[3]) == Some(exp);
    assert ValueOf(parts, KEYS[4]) == Some(spki);
  }

  lemma PartsSplit(u: PairUri)
    requires IsText(u) && IsBytes(u.url) && IsBytes(u.token) && IsBytes(u.spkiSha256)
    ensures Split(Join(Parts(u), '&'), '&') == Parts(u)
  {
    EncodedReads(u.url);
    EncodedReads(u.token);
    EncodedReads(u.spkiSha256);
    DecimalReads(u.expiresAtMs);
    SplitJoin(Parts(u), '&');
  }

  /** Letters, digits, hyphen, full stop, underscore and tilde, by their codes (section 2.3 of RFC 3986). */
  predicate NeedsNoEscape(code: nat) {
    || 0x41 <= code <= 0x5A || 0x61 <= code <= 0x7A || 0x30 <= code <= 0x39
    || code == 0x2D || code == 0x2E || code == 0x5F || code == 0x7E
  }

  /** A byte is encoded as itself if it needs no escape, and otherwise by its two upper-case digits. */
  lemma EncodedTable(c: char)
    requires IsByte(c)
    ensures EncodeByte(c)
      == if NeedsNoEscape(c as int) then [c] else ['%', UPPER_DIGITS[c as int / 16], UPPER_DIGITS[c as int % 16]]
  {
    UpperDigit(c as int / 16);
    UpperDigit(c as int % 16);
  }

  lemma UpperDigit(n: nat)
    requires n < 16
    ensures HexDigit(n) == UPPER_DIGITS[n]
  {
    if n < 8 {
      assert n in {0, 1, 2, 3, 4, 5, 6, 7};
    } else {
      assert n in {8, 9, 10, 11, 12, 13, 14, 15};
    }
  }
}
