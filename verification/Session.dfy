/**
 Session opening with replay protection: a signed request counts once within its time window,
 as long as its nonce is remembered.
 */
module Session {
  import opened Wrappers
  import opened Text
  import opened Canonical

  datatype Config = Config(timeWindowMs: u64, sessionTtlMs: u64, nonceTtlMs: u64)

  const DEFAULT_CONFIG := Config(90_000, 20 * 60 * 1000, 3 * 60 * 1000)

  datatype SessionRecord = SessionRecord(deviceId: string, expiresAtMs: u64)

  datatype SessionOpened = SessionOpened(token: string, expiresAtMs: u64)

  type Nonces = map<string, u64>

  function AbsDiff(a: u64, b: u64): u64 { if a <= b then b - a else a - b }

  function NonceKey(deviceId: string, nonce: string): string { deviceId + "|" + nonce }

  /** Device ids have a fixed length, so a key determines both halves. */
  lemma NonceKeyInjective(d: string, n: string, d': string, n': string)
    requires ValidDeviceId(d) && ValidDeviceId(d') && NonceKey(d, n) == NonceKey(d', n')
    ensures d == d' && n == n'
  {
    assert d == NonceKey(d, n)[..36] && n == NonceKey(d, n)[37..];
    assert d' == NonceKey(d', n')[..36] && n' == NonceKey(d', n')[37..];
  }

  // ---------------------------------------------------------------- one attempt

  /** A request to open a session as the server sees it: `verified` is the verdict of the signature check. */
  datatype Attempt = Attempt(deviceId: string, text: string, verified: Result<()>, now: u64)

  /** The checks before the nonce. */
  function Screened(config: Config, a: Attempt): Result<CanonicalRequest> {
    match ParseBytes(a.text)
    case Refused(_) => Err(InvalidData)
    case Parsed(request) =>
      if request.deviceId != a.deviceId then Err(Unauthorized)
      else if AbsDiff(request.timestampMs, a.now) > config.timeWindowMs then Err(Unauthorized)
      else if a.verified.Err? then Err(a.verified.error)
      else Ok(request)
  }

  function KeyOf(a: Attempt, request: CanonicalRequest): string { NonceKey(a.deviceId, request.nonce) }

  /** `retain`: what has not expired. */
  function Unexpired(nonces: Nonces, now: u64): Nonces {
    map key | key in nonces && nonces[key] > now :: nonces[key]
  }

  function Remember(config: Config, nonces: Nonces, key: string, now: u64): Nonces {
    var kept := Unexpired(nonces, now);
    if key in kept then kept else kept[key := WrappingAdd(now, config.nonceTtlMs)]
  }

  predicate Accepts(config: Config, nonces: Nonces, a: Attempt) {
    var screened := Screened(config, a);
    screened.Ok? && KeyOf(a, screened.value) !in Unexpired(nonces, a.now)
  }

  function NoncesAfter(config: Config, nonces: Nonces, a: Attempt): Nonces {
    var screened := Screened(config, a);
    if screened.Ok? then Remember(config, nonces, KeyOf(a, screened.value), a.now) else nonces
  }

  /** Request time and clock differ by no more than the window. */
  predicate Timely(config: Config, timestampMs: u64, now: u64) {
    timestampMs <= now + config.timeWindowMs && now <= timestampMs + config.timeWindowMs
  }

  /** The nonce is remembered, and its time is not over. */
  predicate Live(nonces: Nonces, key: string, now: u64) { key in nonces && nonces[key] > now }

  lemma TimelyMeaning(config: Config, timestampMs: u64, now: u64)
    ensures AbsDiff(timestampMs, now) <= config.timeWindowMs <==> Timely(config, timestampMs, now)
  {
  }

  lemma LiveMeaning(nonces: Nonces, key: string, now: u64)
    ensures key in Unexpired(nonces, now) <==> Live(nonces, key, now)
  {
  }

  /** What an attempt does to the nonces, and when it is accepted, by what it reads as. */
  lemma NoncesAfterMeaning(config: Config, nonces: Nonces, a: Attempt, parsed: Parse)
    requires parsed == ParseBytes(a.text)
    ensures
      if parsed.Parsed? && parsed.request.deviceId == a.deviceId && Timely(config, parsed.request.timestampMs, a.now)
         && a.verified.Ok?
      then
        var key := NonceKey(a.deviceId, parsed.request.nonce);
        && NoncesAfter(config, nonces, a) == Remember(config, nonces, key, a.now)
        && (Accepts(config, nonces, a) <==> !Live(nonces, key, a.now))
      else NoncesAfter(config, nonces, a) == nonces && !Accepts(config, nonces, a)
  {
    if parsed.Parsed? {
      TimelyMeaning(config, parsed.request.timestampMs, a.now);
      LiveMeaning(nonces, NonceKey(a.deviceId, parsed.request.nonce), a.now);
    }
  }

  /** `SessionManager`. */
  class SessionManager {
    const config: Config
    var sessions: map<string, SessionRecord>
    var nonces: Nonces

    constructor (config: Config)
      ensures this.config == config && sessions == map[] && nonces == map[]
    {
      this.config, sessions, nonces := config, map[], map[];
    }

    /** `record_nonce`. */
    method RecordNonce(deviceId: string, nonce: string, now: u64) returns (r: Result<()>)
      modifies this`nonces
      ensures nonces == Remember(config, old(nonces), NonceKey(deviceId, nonce), now)
      ensures r == if NonceKey(deviceId, nonce) in Unexpired(old(nonces), now) then Err(Unauthorized) else Ok(())
    {
      var key := NonceKey(deviceId, nonce);
      nonces := map k | k in nonces && nonces[k] > now :: nonces[k];
      if key in nonces {
        return Err(Unauthorized);
      }
      nonces := nonces[key := WrappingAdd(now, config.nonceTtlMs)];
      return Ok(());
    }

    /**
     `open_session`, with the clock, the signature verdict and the fresh token as inputs. It succeeds
     exactly for a request that can be read, names the caller's device, is timely, is signed, and has no
     live nonce; each refusal has its error, and one before the nonce changes nothing.
     */
    method OpenSession(deviceId: string, text: string, verified: Result<()>, now: u64, token: string)
      returns (r: Result<SessionOpened>)
      modifies this
      ensures r.Ok? <==>
        && ParseBytes(text).Parsed? && ParseBytes(text).request.deviceId == deviceId
        && Timely(config, ParseBytes(text).request.timestampMs, now) && verified.Ok?
        && !Live(old(nonces), NonceKey(deviceId, ParseBytes(text).request.nonce), now)
      ensures ParseBytes(text).Refused? ==> r == Err(InvalidData)
      ensures ParseBytes(text).Parsed? ==>
        var request := ParseBytes(text).request;
        if request.deviceId != deviceId || !Timely(config, request.timestampMs, now) then r == Err(Unauthorized)
        else if verified.Err? then r == Err(verified.error)
        else r.Err? ==> r.error == Unauthorized
      ensures var a := Attempt(deviceId, text, verified, now);
        nonces == NoncesAfter(config, old(nonces), a) && (r.Ok? <==> Accepts(config, old(nonces), a))
      ensures ParseBytes(text).Refused? || verified.Err? ==> nonces == old(nonces)
      ensures ParseBytes(text).Parsed? && (ParseBytes(text).request.deviceId != deviceId
                                           || !Timely(config, ParseBytes(text).request.timestampMs, now)) ==>
        nonces == old(nonces)
      ensures r.Ok? ==>
        var key := NonceKey(deviceId, ParseBytes(text).request.nonce);
        && key in nonces && nonces[key] == WrappingAdd(now, config.nonceTtlMs)
        && forall k :: k != key ==>
             (k in nonces <==> Live(old(nonces), k, now)) && (k in nonces ==> nonces[k] == old(nonces)[k])
      ensures r.Ok? ==> r.value == SessionOpened(token, WrappingAdd(now, config.sessionTtlMs))
      ensures sessions ==
        if r.Ok? then (map t | t in old(sessions) && old(sessions)[t].expiresAtMs > now :: old(sessions)[t])
                      [token := SessionRecord(deviceId, WrappingAdd(now, config.sessionTtlMs))]
        else old(sessions)
    {
      var canonical := ParseBytes(text);
      NoncesAfterMeaning(config, nonces, Attempt(deviceId, text, verified, now), canonical);
      if canonical.Refused? {
        return Err(InvalidData);
      }
      if canonical.request.deviceId != deviceId {
        return Err(Unauthorized);
      }
      TimelyMeaning(config, canonical.request.timestampMs, now);
      if AbsDiff(canonical.request.timestampMs, now) > config.timeWindowMs {
        return Err(Unauthorized);
      }
      var _ :- verified;
      var _ :- RecordNonce(deviceId, canonical.request.nonce, now);
      var expiresAtMs := AddSession(deviceId, token, now);
      return Ok(SessionOpened(token, expiresAtMs));
    }

    /** The session part of `open_session`: lapsed sessions go, and the new one is noted. */
    method AddSession(deviceId: string, token: string, now: u64) returns (expiresAtMs: u64)
      modifies this`sessions
      ensures expiresAtMs == WrappingAdd(now, config.sessionTtlMs)
      ensures sessions == (map t | t in old(sessions) && old(sessions)[t].expiresAtMs > now :: old(sessions)[t])
                          [token := SessionRecord(deviceId, expiresAtMs)]
    {
      expiresAtMs := WrappingAdd(now, config.sessionTtlMs);
      sessions := map t | t in sessions && sessions[t].expiresAtMs > now :: sessions[t];
      sessions := sessions[token := SessionRecord(deviceId, expiresAtMs)];
    }

    /** `validate_session`. */
    method ValidateSession(token: string, now: u64) returns (r: Result<string>)
      modifies this`sessions
      ensures r == if token in old(sessions) && old(sessions)[token].expiresAtMs > now
                   then Ok(old(sessions)[token].deviceId) else Err(Unauthorized)
      ensures forall t :: t in sessions <==> t in old(sessions) && old(sessions)[t].expiresAtMs > now
      ensures forall t :: t in sessions ==> sessions[t] == old(sessions)[t]
    {
      sessions := map t | t in sessions && sessions[t].expiresAtMs > now :: sessions[t];
      if token !in sessions {
        return Err(Unauthorized);
      }
      return Ok(sessions[token].deviceId);
    }
  }

  // ---------------------------------------------------------------- runs

  /** The remembered nonces before attempt `n` of a run that starts with a fresh manager. */
  ghost function NoncesBefore(config: Config, run: seq<Attempt>, n: nat): Nonces
    requires n <= |run|
  {
    if n == 0 then map[] else NoncesAfter(config, NoncesBefore(config, run, n - 1), run[n - 1])
  }

  ghost predicate Accepted(config: Config, run: seq<Attempt>, i: nat)
    requires i < |run|
  {
    Accepts(config, NoncesBefore(config, run, i), run[i])
  }

  /** What the signature, the text and the remembered nonces say of an attempt. */
  ghost predicate InOrder(config: Config, nonces: Nonces, a: Attempt) {
    var parsed := ParseBytes(a.text);
    && parsed.Parsed? && parsed.request.deviceId == a.deviceId && Timely(config, parsed.request.timestampMs, a.now)
    && a.verified.Ok? && !Live(nonces, NonceKey(a.deviceId, parsed.request.nonce), a.now)
  }

  lemma AcceptsInOrder(config: Config, nonces: Nonces, a: Attempt)
    ensures Accepts(config, nonces, a) <==> InOrder(config, nonces, a)
  {
  }

  /** An attempt is accepted exactly if it is a timely, signed request of its device and its nonce is not live. */
  lemma AcceptedExactly(config: Config, run: seq<Attempt>, i: nat)
    requires i < |run|
    ensures Accepted(config, run, i) <==> InOrder(config, NoncesBefore(config, run, i), run[i])
    ensures Accepted(config, run, i) ==> run[i].verified.Ok?
  {
    AcceptsInOrder(config, NoncesBefore(config, run, i), run[i]);
  }

  /** The clock never goes back, and never comes within a nonce lifetime of the end of u64. */
  ghost predicate Clocked(config: Config, run: seq<Attempt>) {
    && (forall i, j :: 0 <= i <= j < |run| ==> run[i].now <= run[j].now)
    && (forall i :: 0 <= i < |run| ==> run[i].now + config.nonceTtlMs < U64_LIMIT)
  }

  ghost predicate SameNonce(config: Config, a: Attempt, b: Attempt) {
    && Screened(config, a).Ok? && Screened(config, b).Ok?
    && a.deviceId == b.deviceId && Screened(config, a).value.nonce == Screened(config, b).value.nonce
  }

  /** One attempt leaves every live nonce as it was, and an accepted one notes its own. */
  lemma LiveStays(config: Config, nonces: Nonces, a: Attempt, key: string)
    ensures Live(nonces, key, a.now) ==>
      key in NoncesAfter(config, nonces, a) && NoncesAfter(config, nonces, a)[key] == nonces[key]
    ensures Accepts(config, nonces, a) && key == KeyOf(a, Screened(config, a).value) ==>
      key in NoncesAfter(config, nonces, a)
      && NoncesAfter(config, nonces, a)[key] == WrappingAdd(a.now, config.nonceTtlMs)
  {
  }

  /** A nonce in the memory stays there until its time is over. */
  lemma {:induction false} NonceStays(config: Config, run: seq<Attempt>, i: nat, n: nat, key: string, until: u64)
    requires Clocked(config, run) && i <= n <= |run|
    requires key in NoncesBefore(config, run, i) && NoncesBefore(config, run, i)[key] == until
    requires i < n ==> run[n - 1].now < until
    ensures key in NoncesBefore(config, run, n) && NoncesBefore(config, run, n)[key] == until
  {
    if i < n {
      assert i < n - 1 ==> run[n - 2].now <= run[n - 1].now;
      NonceStays(config, run, i, n - 1, key, until);
      LiveStays(config, NoncesBefore(config, run, n - 1), run[n - 1], key);
    }
  }

  /** An accepted nonce is remembered until its lifetime is over. */
  lemma NonceRemembered(config: Config, run: seq<Attempt>, i: nat, n: nat)
    requires Clocked(config, run) && i < n <= |run| && Accepted(config, run, i)
    requires run[n - 1].now < run[i].now + config.nonceTtlMs || n == i + 1
    ensures var key := KeyOf(run[i], Screened(config, run[i]).value);
      var nonces := NoncesBefore(config, run, n);
      key in nonces && nonces[key] == run[i].now + config.nonceTtlMs
  {
    var key := KeyOf(run[i], Screened(config, run[i]).value);
    LiveStays(config, NoncesBefore(config, run, i), run[i], key);
    NonceStays(config, run, i + 1, n, key, run[i].now + config.nonceTtlMs);
  }

  /** One device's nonce is never accepted twice within the nonce lifetime. */
  lemma NoNonceTwice(config: Config, run: seq<Attempt>, i: nat, j: nat)
    requires Clocked(config, run) && i < j < |run|
    requires Accepted(config, run, i) && Accepted(config, run, j) && SameNonce(config, run[i], run[j])
    ensures run[i].now + config.nonceTtlMs <= run[j].now
  {
    if run[j].now < run[i].now + config.nonceTtlMs {
      assert run[j - 1].now <= run[j].now;
      NonceRemembered(config, run, i, j);
    }
  }

  /** Every remembered nonce comes from an accepted attempt. */
  lemma {:induction false} NonceOrigin(config: Config, run: seq<Attempt>, n: nat, key: string) returns (i: nat)
    requires Clocked(config, run) && n <= |run| && key in NoncesBefore(config, run, n)
    ensures i < n && Accepted(config, run, i) && KeyOf(run[i], Screened(config, run[i]).value) == key
    ensures NoncesBefore(config, run, n)[key] == run[i].now + config.nonceTtlMs
  {
    if key in NoncesBefore(config, run, n - 1)
      && NoncesBefore(config, run, n - 1)[key] == NoncesBefore(config, run, n)[key] {
      i := NonceOrigin(config, run, n - 1, key);
    } else {
      i := n - 1;
    }
  }

  /** A screened request is refused only for a live nonce of the same device: fresh nonces always pass. */
  lemma RefusedOnlyForReplay(config: Config, run: seq<Attempt>, j: nat) returns (i: nat)
    requires Clocked(config, run) && j < |run|
    requires Screened(config, run[j]).Ok? && !Accepted(config, run, j)
    ensures i < j && Accepted(config, run, i) && SameNonce(config, run[i], run[j])
    ensures run[j].now < run[i].now + config.nonceTtlMs
  {
    var r := Screened(config, run[j]).value;
    i := NonceOrigin(config, run, j, KeyOf(run[j], r));
    ScreenedDevice(config, run[i]);
    ScreenedDevice(config, run[j]);
    NonceKeyInjective(run[i].deviceId, Screened(config, run[i]).value.nonce, run[j].deviceId, r.nonce);
  }

  lemma ScreenedDevice(config: Config, a: Attempt)
    requires Screened(config, a).Ok?
    ensures ValidDeviceId(a.deviceId)
  {
    LinesBuilt(Split(StripNewline(a.text), '\n'));
    assert Screened(config, a).value == ParseLines(Split(StripNewline(a.text), '\n')).request;
  }

  /** The same signed bytes, for the same device. */
  predicate SameRequest(a: Attempt, b: Attempt) { a.deviceId == b.deviceId && a.text == b.text }

  ghost predicate Replayed(config: Config, run: seq<Attempt>, i: nat, j: nat) {
    i < j < |run| && SameRequest(run[i], run[j]) && Accepted(config, run, i) && Accepted(config, run, j)
  }

  /** When nonces outlive both halves of the time window, no signed request is ever accepted twice. */
  lemma NoReplay(config: Config, run: seq<Attempt>, i: nat, j: nat)
    requires Clocked(config, run) && config.nonceTtlMs > 2 * config.timeWindowMs
    ensures !Replayed(config, run, i, j)
  {
    if Replayed(config, run, i, j) {
      SameRequestSameNonce(config, run[i], run[j]);
      NoNonceTwice(config, run, i, j);
    }
  }

  lemma ScreenedInWindow(config: Config, a: Attempt)
    requires Screened(config, a).Ok?
    ensures Parsed(Screened(config, a).value) == ParseBytes(a.text)
    ensures AbsDiff(Screened(config, a).value.timestampMs, a.now) <= config.timeWindowMs
  {
  }

  lemma SameRequestSameNonce(config: Config, a: Attempt, b: Attempt)
    requires Screened(config, a).Ok? && Screened(config, b).Ok? && SameRequest(a, b)
    ensures SameNonce(config, a, b)
    ensures b.now <= a.now + 2 * config.timeWindowMs
  {
    ScreenedInWindow(config, a);
    ScreenedInWindow(config, b);
  }

  /** Some device id, and a request of that device at time `t`. */
  function SampleDevice(): (d: string)
    ensures ValidDeviceId(d)
  {
    seq(36, i => if i in {8, 13, 18, 23} then '-' else '0')
  }

  function SampleRequest(t: u64): CanonicalRequest {
    CanonicalRequest(SampleDevice(), t, "", "", "", "hash")
  }

  lemma SampleBuilt(t: u64)
    ensures Built(SampleRequest(t)) && SampleRequest(t).bodyHash != ""
    ensures IsAscii(SampleRequest(t).deviceId) && IsAscii(SampleRequest(t).bodyHash)
  {
  }

  lemma AsciiRender(r: CanonicalRequest)
    requires IsAscii(r.deviceId) && IsAscii(r.bodyHash)
    requires r.nonce == r.verb == r.pathAndQuery == ""
    ensures IsAscii(Render(r))
  {
    PrintDecimalValue(r.timestampMs);
    assert forall i :: 0 <= i < |PrintDecimal(r.timestampMs)| ==> IsDigit(PrintDecimal(r.timestampMs)[i]);
  }

  lemma SampleParses(t: u64)
    ensures ParseBytes(Render(SampleRequest(t))) == Parsed(SampleRequest(t))
  {
    SampleBuilt(t);
    RoundTripExactly(SampleRequest(t));
    AsciiRender(SampleRequest(t));
    AsciiIsUtf8(Render(SampleRequest(t)));
  }

  /** The two ends of the window, with the same request. */
  function EdgeRun(config: Config): seq<Attempt>
    requires 2 * config.timeWindowMs < U64_LIMIT
  {
    var text := Render(SampleRequest(config.timeWindowMs));
    var device := SampleRequest(config.timeWindowMs).deviceId;
    [Attempt(device, text, Ok(()), 0), Attempt(device, text, Ok(()), 2 * config.timeWindowMs)]
  }

  /** Otherwise one can be: first at one end of its window, then at the other. */
  lemma EdgeReplay(config: Config)
    requires config.nonceTtlMs <= 2 * config.timeWindowMs
    requires 2 * config.timeWindowMs + config.nonceTtlMs < U64_LIMIT
    ensures Clocked(config, EdgeRun(config))
    ensures Replayed(config, EdgeRun(config), 0, 1)
  {
    SampleParses(config.timeWindowMs);
    EdgeSteps(config, SampleRequest(config.timeWindowMs), EdgeRun(config));
  }

  lemma EdgeSteps(config: Config, r: CanonicalRequest, run: seq<Attempt>)
    requires config.nonceTtlMs <= 2 * config.timeWindowMs < U64_LIMIT && r.timestampMs == config.timeWindowMs
    requires |run| == 2 && SameRequest(run[0], run[1]) && run[0].verified == run[1].verified == Ok(())
    requires run[0].deviceId == r.deviceId && ParseBytes(run[0].text) == Parsed(r)
    requires run[0].now == 0 && run[1].now == 2 * config.timeWindowMs
    ensures Replayed(config, run, 0, 1)
  {
    var key := KeyOf(run[0], r);
    assert NoncesBefore(config, run, 0) == map[];
    assert NoncesBefore(config, run, 1) == NoncesAfter(config, map[], run[0]) == map[key := config.nonceTtlMs];
    assert key !in Unexpired(map[key := config.nonceTtlMs], run[1].now);
  }

  /** Replay protection holds in every run exactly when the nonce lifetime exceeds twice the window. */
  lemma ReplayProofExactly(config: Config)
    requires 2 * config.timeWindowMs + config.nonceTtlMs < U64_LIMIT
    ensures config.nonceTtlMs > 2 * config.timeWindowMs
      <==> forall run, i: nat, j: nat :: Clocked(config, run) ==> !Replayed(config, run, i, j)
  {
    if config.nonceTtlMs > 2 * config.timeWindowMs {
      forall run, i: nat, j: nat | Clocked(config, run)
        ensures !Replayed(config, run, i, j)
      {
        NoReplay(config, run, i, j);
      }
    } else {
      EdgeReplay(config);
    }
  }

  /** With the default configuration the two are equal, and the last millisecond of the window is open to a replay. */
  lemma DefaultsLeaveOneMillisecond()
    ensures DEFAULT_CONFIG.nonceTtlMs == 2 * DEFAULT_CONFIG.timeWindowMs
    ensures Clocked(DEFAULT_CONFIG, EdgeRun(DEFAULT_CONFIG)) && Replayed(DEFAULT_CONFIG, EdgeRun(DEFAULT_CONFIG), 0, 1)
  {
    EdgeReplay(DEFAULT_CONFIG);
  }
}
