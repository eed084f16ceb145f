/**
 String operations the codecs and path rules rely on. A Rust string is modelled by its UTF-8
 bytes, one Dafny `char` per byte, so that literals stay readable and every byte test is exact.
 */
module Text {
  import opened Wrappers

  predicate IsByte(c: char) { c as int < 256 }

  predicate IsBytes(s: string) { forall i :: 0 <= i < |s| ==> IsByte(s[i]) }

  // ---------------------------------------------------------------- prefixes and suffixes

  function StripPrefix(s: string, prefix: string): (r: Option<string>)
    ensures r.Some? ==> s == prefix + r.value
    ensures r.None? ==> forall t: string :: s != prefix + t
  {
    if prefix <= s then Some(s[|prefix|..]) else None
  }

  predicate EndsWith(s: string, suffix: string) {
    |suffix| <= |s| && s[|s| - |suffix|..] == suffix
  }

  // ---------------------------------------------------------------- splitting and joining

  function Split(s: string, sep: char): (parts: seq<string>)
    ensures |parts| >= 1
  {
    if s == "" then [""]
    else
      var rest := Split(s[1..], sep);
      if s[0] == sep then [""] + rest else [[s[0]] + rest[0]] + rest[1..]
  }

  function Join(parts: seq<string>, sep: char): string
    requires |parts| >= 1
  {
    if |parts| == 1 then parts[0] else parts[0] + [sep] + Join(parts[1..], sep)
  }

  /** Rust's `split_once`: cut at the first separator. */
  function SplitOnce(s: string, sep: char): (r: Option<(string, string)>)
    ensures r.Some? ==> s == r.value.0 + [sep] + r.value.1 && sep !in r.value.0
    ensures r.None? ==> sep !in s
  {
    if s == "" then None
    else if s[0] == sep then Some(("", s[1..]))
    else match SplitOnce(s[1..], sep)
      case None => None
      case Some((a, b)) => Some(([s[0]] + a, b))
  }

  /** No separator means a single part. */
  lemma {:induction false} SplitSingle(s: string, sep: char)
    requires sep !in s
    ensures Split(s, sep) == [s]
  {
    if s != "" {
      assert s[0] in s;
      assert forall c :: c in s[1..] ==> c in s;
      SplitSingle(s[1..], sep);
      assert [s[0]] + s[1..] == s;
    }
  }

  /** A separator-free head followed by a separator becomes the first part. */
  lemma {:induction false} SplitCons(a: string, b: string, sep: char)
    requires sep !in a
    ensures Split(a + [sep] + b, sep) == [a] + Split(b, sep)
  {
    var s := a + [sep] + b;
    if a == "" {
      assert s[1..] == b;
    } else {
      assert s[0] == a[0] && a[0] in a;
      assert s[1..] == a[1..] + [sep] + b;
      assert forall c :: c in a[1..] ==> c in a;
      SplitCons(a[1..], b, sep);
      assert [a[0]] + a[1..] == a;
    }
  }

  /** Splitting loses nothing, and no part holds the separator. */
  lemma {:induction false} JoinSplit(s: string, sep: char)
    ensures Join(Split(s, sep), sep) == s
    ensures forall i :: 0 <= i < |Split(s, sep)| ==> sep !in Split(s, sep)[i]
  {
    if s != "" {
      JoinSplit(s[1..], sep);
      var rest := Split(s[1..], sep);
      var parts := Split(s, sep);
      if s[0] == sep {
        assert parts[1..] == rest;
        assert forall i :: 1 <= i < |parts| ==> parts[i] == rest[i - 1];
      } else {
        assert parts[1..] == rest[1..];
        assert forall i :: 1 <= i < |parts| ==> parts[i] == rest[i];
      }
    }
  }

  /** Splitting undoes joining of separator-free parts. */
  lemma {:induction false} SplitJoin(parts: seq<string>, sep: char)
    requires |parts| >= 1
    requires forall i :: 0 <= i < |parts| ==> sep !in parts[i]
    ensures Split(Join(parts, sep), sep) == parts
  {
    if |parts| == 1 {
      SplitSingle(parts[0], sep);
    } else {
      SplitJoin(parts[1..], sep);
      SplitCons(parts[0], Join(parts[1..], sep), sep);
    }
  }

  /** Cutting at the first separator undoes joining a separator-free head. */
  lemma {:induction false} SplitOnceUnique(a: string, b: string, sep: char)
    requires sep !in a
    ensures SplitOnce(a + [sep] + b, sep) == Some((a, b))
  {
    var s := a + [sep] + b;
    if a == "" {
      assert s[1..] == b;
    } else {
      assert a[0] in a && s[0] == a[0];
      assert s[1..] == a[1..] + [sep] + b;
      assert forall c :: c in a[1..] ==> c in a;
      SplitOnceUnique(a[1..], b, sep);
      assert [a[0]] + a[1..] == a;
    }
  }

  lemma JoinCons(head: string, rest: seq<string>, sep: char)
    requires |rest| >= 1
    ensures Join([head] + rest, sep) == head + [sep] + Join(rest, sep)
  {
    assert ([head] + rest)[1..] == rest;
  }

  // ---------------------------------------------------------------- decimal u64

  predicate IsDigit(c: char) { '0' <= c <= '9' }

  predicate AllDigits(s: string) { forall i :: 0 <= i < |s| ==> IsDigit(s[i]) }

  function DecimalValue(s: string): nat
    requires AllDigits(s)
  {
    if s == "" then 0 else 10 * DecimalValue(s[..|s| - 1]) + (s[|s| - 1] as int - '0' as int)
  }

  /** `Display` for unsigned integers. */
  function PrintDecimal(n: nat): string {
    if n < 10 then [(n + '0' as int) as char] else PrintDecimal(n / 10) + [(n % 10 + '0' as int) as char]
  }

  /** `str::parse::<u64>`: an optional plus sign, then one or more digits, below 2^64. */
  function ParseU64(s: string): Option<u64> {
    var digits := if s != "" && s[0] == '+' then s[1..] else s;
    if digits == "" || !AllDigits(digits) then None
    else if DecimalValue(digits) >= U64_LIMIT then None
    else Some(DecimalValue(digits))
  }

  lemma {:induction false} PrintDecimalValue(n: nat)
    ensures AllDigits(PrintDecimal(n)) && |PrintDecimal(n)| >= 1
    ensures DecimalValue(PrintDecimal(n)) == n
  {
    if n >= 10 {
      PrintDecimalValue(n / 10);
      var s := PrintDecimal(n);
      assert s[..|s| - 1] == PrintDecimal(n / 10);
    } else {
      var s := PrintDecimal(n);
      assert s[..|s| - 1] == "";
    }
  }

  /** Parsing reads back every printed u64. */
  lemma ParsePrint(n: u64)
    ensures ParseU64(PrintDecimal(n)) == Some(n)
  {
    PrintDecimalValue(n);
    assert IsDigit(PrintDecimal(n)[0]);
  }

  // ---------------------------------------------------------------- UTF-8 (RFC 3629, section 4)

  predicate Tail(c: char) { 0x80 <= c as int <= 0xBF }

  /** Length of the well-formed sequence that starts `s`, or 0 when there is none. */
  function Utf8Lead(s: string): (n: nat)
    requires s != ""
    ensures n <= |s|
  {
    var b := s[0] as int;
    if b <= 0x7F then 1
    else if 0xC2 <= b <= 0xDF && |s| >= 2 && Tail(s[1]) then 2
    else if |s| >= 3 && Tail(s[2]) &&
            ((b == 0xE0 && 0xA0 <= s[1] as int <= 0xBF)
             || ((0xE1 <= b <= 0xEC || 0xEE <= b <= 0xEF) && Tail(s[1]))
             || (b == 0xED && 0x80 <= s[1] as int <= 0x9F)) then 3
    else if |s| >= 4 && Tail(s[2]) && Tail(s[3]) &&
            ((b == 0xF0 && 0x90 <= s[1] as int <= 0xBF)
             || (0xF1 <= b <= 0xF3 && Tail(s[1]))
             || (b == 0xF4 && 0x80 <= s[1] as int <= 0x8F)) then 4
    else 0
  }

  predicate IsUtf8(s: string) {
    s == "" || (var n := Utf8Lead(s); n > 0 && IsUtf8(s[n..]))
  }

  predicate IsAscii(s: string) { forall i :: 0 <= i < |s| ==> s[i] as int <= 0x7F }

  /** ASCII text is UTF-8. */
  lemma {:induction false} AsciiIsUtf8(s: string)
    requires IsAscii(s)
    ensures IsUtf8(s)
  {
    if s != "" {
      AsciiIsUtf8(s[1..]);
    }
  }

  /** UTF-8 text consists of bytes. */
  lemma {:induction false} Utf8IsBytes(s: string)
    requires IsUtf8(s)
    ensures IsBytes(s)
  {
    if s != "" {
      var n := Utf8Lead(s);
      Utf8IsBytes(s[n..]);
      forall i | 0 <= i < |s|
        ensures IsByte(s[i])
      {
        if i >= n { assert s[i] == s[n..][i - n]; }
      }
    }
  }

  // ---------------------------------------------------------------- UTF-8 as an encoding

  /** A Unicode scalar value. */
  predicate IsScalar(c: nat) { c < 0xD800 || 0xE000 <= c < 0x11_0000 }

  function Octet(n: nat): char
    requires n < 256
  {
    n as char
  }

  /** The bytes of one scalar value. */
  function EncodeScalar(c: nat): (s: string)
    requires IsScalar(c)
    ensures s != ""
  {
    if c < 0x80 then [Octet(c)]
    else if c < 0x800 then [Octet(0xC0 + c / 64), Octet(0x80 + c % 64)]
    else if c < 0x1_0000 then [Octet(0xE0 + c / 4096), Octet(0x80 + c / 64 % 64), Octet(0x80 + c % 64)]
    else
      [Octet(0xF0 + c / 262144), Octet(0x80 + c / 4096 % 64), Octet(0x80 + c / 64 % 64), Octet(0x80 + c % 64)]
  }

  ghost predicate AllScalars(text: seq<nat>) { forall i :: 0 <= i < |text| ==> IsScalar(text[i]) }

  ghost function EncodeText(text: seq<nat>): string
    requires AllScalars(text)
  {
    if text == [] then "" else EncodeScalar(text[0]) + EncodeText(text[1..])
  }


  lemma LeadOfEncoded(c: nat, rest: string)
    requires IsScalar(c)
    ensures Utf8Lead(EncodeScalar(c) + rest) == |EncodeScalar(c)|
  {
    if 0x800 <= c < 0x1_0000 {
      assert c / 4096 == c / 64 / 64;
      assert c / 64 == c / 64 / 64 * 64 + c / 64 % 64;
    } else if c >= 0x1_0000 {
      assert c / 262144 == c / 4096 / 64;
      assert c / 4096 == c / 4096 / 64 * 64 + c / 4096 % 64;
    }
  }

  lemma Unpack(x: nat, y: nat)
    requires y < 64
    ensures (x * 64 + y) / 64 == x && (x * 64 + y) % 64 == y
  {
  }

  lemma ThreeEncode(s: string) returns (c: nat)
    requires |s| >= 3 && Utf8Lead(s) == 3
    ensures IsScalar(c) && s[..3] == EncodeScalar(c)
  {
    var a, b, d := s[0] as int - 0xE0, s[1] as int - 0x80, s[2] as int - 0x80;
    Unpack(a, b);
    Unpack(a * 64 + b, d);
    c := (a * 64 + b) * 64 + d;
    assert c / 4096 == c / 64 / 64;
    assert EncodeScalar(c) == [s[0], s[1], s[2]];
  }

  lemma FourEncode(s: string) returns (c: nat)
    requires |s| >= 4 && Utf8Lead(s) == 4
    ensures IsScalar(c) && s[..4] == EncodeScalar(c)
  {
    var a, b, d, e := s[0] as int - 0xF0, s[1] as int - 0x80, s[2] as int - 0x80, s[3] as int - 0x80;
    Unpack(a, b);
    Unpack(a * 64 + b, d);
    Unpack((a * 64 + b) * 64 + d, e);
    c := ((a * 64 + b) * 64 + d) * 64 + e;
    assert c / 4096 == c / 64 / 64 && c / 262144 == c / 4096 / 64;
    assert EncodeScalar(c) == [s[0], s[1], s[2], s[3]];
  }

  /** A well-formed sequence encodes a scalar value. */
  lemma LeadIsEncoded(s: string) returns (c: nat)
    requires s != "" && Utf8Lead(s) > 0
    ensures IsScalar(c) && s[..Utf8Lead(s)] == EncodeScalar(c)
  {
    match Utf8Lead(s) {
      case 1 => c := s[0] as int;
      case 2 =>
        Unpack(s[0] as int - 0xC0, s[1] as int - 0x80);
        c := (s[0] as int - 0xC0) * 64 + (s[1] as int - 0x80);
      case 3 => c := ThreeEncode(s);
      case _ => c := FourEncode(s);
    }
  }

  lemma {:induction false} EncodedIsUtf8(text: seq<nat>)
    requires AllScalars(text)
    ensures IsUtf8(EncodeText(text))
  {
    if text != [] {
      var rest := EncodeText(text[1..]);
      EncodedIsUtf8(text[1..]);
      LeadOfEncoded(text[0], rest);
      assert (EncodeScalar(text[0]) + rest)[|EncodeScalar(text[0])|..] == rest;
    }
  }

  lemma {:induction false} Utf8IsEncoded(s: string) returns (text: seq<nat>)
    requires IsUtf8(s)
    ensures AllScalars(text) && s == EncodeText(text)
  {
    if s == "" {
      text := [];
    } else {
      var n := Utf8Lead(s);
      var c := LeadIsEncoded(s);
      var rest := Utf8IsEncoded(s[n..]);
      text := [c] + rest;
      assert text[1..] == rest && s == s[..n] + s[n..];
    }
  }

  /** A text is accepted as UTF-8 exactly if it encodes Unicode scalar values. */
  lemma Utf8Exactly(s: string)
    ensures IsUtf8(s) <==> exists text :: AllScalars(text) && s == EncodeText(text)
  {
    if IsUtf8(s) {
      var text := Utf8IsEncoded(s);
    }
    if text :| AllScalars(text) && s == EncodeText(text) {
      EncodedIsUtf8(text);
    }
  }

  // ---------------------------------------------------------------- numbers as texts

  function Zeros(k: nat): string { if k == 0 then "" else Zeros(k - 1) + "0" }

  lemma PrintMore(n: nat, c: char)
    requires n > 0 && IsDigit(c)
    ensures PrintDecimal(10 * n + (c as int - '0' as int)) == PrintDecimal(n) + [c]
  {
    var d := c as int - '0' as int;
    assert (10 * n + d) / 10 == n && (10 * n + d) % 10 == d;
  }

  lemma OneDigit(c: char)
    requires IsDigit(c)
    ensures PrintDecimal(c as int - '0' as int) == [c]
  {
  }

  lemma LastDigit(init: string, c: char)
    requires AllDigits(init) && IsDigit(c)
    ensures AllDigits(init + [c])
    ensures DecimalValue(init + [c]) == 10 * DecimalValue(init) + (c as int - '0' as int)
  {
    assert (init + [c])[..|init|] == init;
  }

  /** One more digit after zeros and a printed number: one more zero, or one more digit of the number. */
  lemma OneMoreDigit(k: nat, n: nat, c: char) returns (k': nat)
    requires IsDigit(c)
    ensures Zeros(k) + PrintDecimal(n) + [c] == Zeros(k') + PrintDecimal(10 * n + (c as int - '0' as int))
  {
    if n == 0 {
      OneDigit(c);
      OneDigit('0');
      k' := k + 1;
    } else {
      PrintMore(n, c);
      k' := k;
    }
  }

  /** Digits are leading zeros and the printed number. */
  lemma {:induction false} DigitsPrinted(digits: string) returns (k: nat)
    requires digits != "" && AllDigits(digits)
    ensures digits == Zeros(k) + PrintDecimal(DecimalValue(digits))
  {
    var init, last := digits[..|digits| - 1], digits[|digits| - 1];
    assert digits == init + [last] && IsDigit(last);
    LastDigit(init, last);
    if init == "" {
      OneDigit(last);
      k := 0;
    } else {
      k := DigitsPrinted(init);
      k := OneMoreDigit(k, DecimalValue(init), last);
    }
  }

  lemma {:induction false} ZerosValue(k: nat, n: nat)
    ensures AllDigits(Zeros(k) + PrintDecimal(n)) && DecimalValue(Zeros(k) + PrintDecimal(n)) == n
  {
    PrintDecimalValue(n);
    ZerosDigits(k);
    LeadingZeros(k, PrintDecimal(n));
  }

  lemma {:induction false} ZerosDigits(k: nat)
    ensures AllDigits(Zeros(k)) && DecimalValue(Zeros(k)) == 0
  {
    if k > 0 {
      ZerosDigits(k - 1);
      assert Zeros(k)[..|Zeros(k)| - 1] == Zeros(k - 1);
    }
  }

  lemma {:induction false} LeadingZeros(k: nat, s: string)
    requires AllDigits(s) && AllDigits(Zeros(k))
    ensures AllDigits(Zeros(k) + s) && DecimalValue(Zeros(k) + s) == DecimalValue(s)
    decreases |s|
  {
    var all := Zeros(k) + s;
    if s == "" {
      assert all == Zeros(k);
      ZerosDigits(k);
    } else {
      assert all[..|all| - 1] == Zeros(k) + s[..|s| - 1];
      LeadingZeros(k, s[..|s| - 1]);
    }
  }

  /** A spelling of a number: perhaps a plus sign, perhaps zeros, then its decimal digits. */
  ghost predicate Spelling(s: string, n: nat) {
    exists k: nat :: s == Zeros(k) + PrintDecimal(n) || s == "+" + (Zeros(k) + PrintDecimal(n))
  }

  lemma SpelledDigits(s: string, k: nat, n: nat)
    requires s == Zeros(k) + PrintDecimal(n) || s == "+" + (Zeros(k) + PrintDecimal(n))
    ensures ParseU64(s) == if n < U64_LIMIT then Some(n) else None
  {
    var digits := Zeros(k) + PrintDecimal(n);
    PrintDecimalValue(n);
    ZerosValue(k, n);
    assert digits != "" && IsDigit(digits[0]);
    assert ("+" + digits)[1..] == digits;
  }

  /** Exactly which texts are read as a number. */
  lemma ReadsExactly(s: string, n: u64)
    ensures ParseU64(s) == Some(n) <==> Spelling(s, n)
  {
    if ParseU64(s) == Some(n) {
      var digits := if s != "" && s[0] == '+' then s[1..] else s;
      var k := DigitsPrinted(digits);
      assert s == digits || s == "+" + digits;
    }
    if k: nat :| s == Zeros(k) + PrintDecimal(n) || s == "+" + (Zeros(k) + PrintDecimal(n)) {
      SpelledDigits(s, k, n);
    }
  }

  /** A number beyond the largest is refused, however it is spelled. */
  lemma TooLargeIsRefused(s: string, n: nat)
    requires n >= U64_LIMIT && Spelling(s, n)
    ensures ParseU64(s) == None
  {
    var k: nat :| s == Zeros(k) + PrintDecimal(n) || s == "+" + (Zeros(k) + PrintDecimal(n));
    SpelledDigits(s, k, n);
  }

  /** Printing is positional: the last digit counts ones, what is before it tens. */
  lemma PrintedPositions(n: nat, d: nat)
    requires d < 10
    ensures PrintDecimal(d) == ["0123456789"[d]]
    ensures n > 0 ==> PrintDecimal(10 * n + d) == PrintDecimal(n) + ["0123456789"[d]]
  {
    if d < 5 {
      assert d in {0, 1, 2, 3, 4};
    } else {
      assert d in {5, 6, 7, 8, 9};
    }
  }

  /** A text ends with another exactly if it is some text followed by that. */
  lemma EndsWithMeaning(s: string, suffix: string)
    ensures EndsWith(s, suffix) <==> exists head: string :: s == head + suffix
  {
    if EndsWith(s, suffix) {
      assert s == s[..|s| - |suffix|] + suffix;
    }
    if head: string :| s == head + suffix {
      assert s[|s| - |suffix|..] == suffix;
    }
  }
}
