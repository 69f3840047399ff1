/** The offline session: its stored record, the checks run on it, and the
    decision of the session state the interface reacts to. Everything the Rust
    code reads from the browser (the two clocks, the device fingerprint, the
    used-nonce list in local storage, and the JSON text serde produces) is an
    `Environment` passed in, read once per decision. Times are milliseconds. */
module Session {
  import opened Wrappers
  import opened Codec
  import Hasher
  import Crypto
  import Text

  datatype SessionState =
    | Loading | Valid | Expired | Offline | TamperingDetected
    | SubscriptionExpired | NetworkError | InvalidSignature | ReplayAttack

  datatype TokenPayload = TokenPayload(sub: string, iat: nat, exp: nat, nbf: nat, jti: string,
                                       offlineExp: nat, clientEntropy: string)

  datatype SecureToken = SecureToken(alg: string, typ: string, payload: TokenPayload, signature: string)

  datatype SessionData = SessionData(serverTime: nat, clientTime: nat, performanceTime: real, sessionStart: nat,
                                     token: SecureToken, subscriptionExpires: nat, offlineWindowHours: nat,
                                     clientFingerprint: string, sessionNonce: string,
                                     integrityChain: seq<string>, encryptedPayload: string)

  /** What one decision reads from outside: `Date.now()`, `performance.now()`,
      the fingerprint of the current device, the stored list of used nonces
      (`None` when absent or unreadable), the serde text of the token's header
      and payload joined by '|', and the serde text of the session's integrity data. */
  datatype Environment = Environment(dateNow: nat, performanceNow: real, fingerprint: string,
                                     usedNonces: Option<seq<string>>, tokenJson: string, integrityJson: string)

  /** The reasons `verify_session_comprehensive` rejects a session. */
  datatype Violation = TamperingViolation(reason: string) | SignatureViolation | ReplayViolation | ClockTampering(drift: int)

  const MillisPerHour: nat := 3600 * 1000
  const U64Max: int := 0x1_0000_0000_0000_0000 - 1

  /** Tolerated drift of the client clock against the session's estimate. */
  const ManipulationLimit: int := 60_000
  /** Drift the advanced detector calls tampering in either direction. */
  const TamperingLimit: int := 300_000

  // ---------------------------------------------------------------- tokens

  /** The offline-window expiry of a token: the server time plus the window
      in hours, in milliseconds. */
  function OfflineExp(serverTime: nat, hours: nat): (t: nat)
    ensures t >= serverTime
    ensures t - serverTime == hours * MillisPerHour
  {
    serverTime + hours * 3600 * 1000
  }

  /** `create_secure_token`, with the fresh token id `jti` and the serde text of
      header and payload passed in. The signature is the base64 keyed digest under
      a key derived from the server's subscription token. */
  function CreateSecureToken(serverTime: nat, subscriptionExpires: nat, hours: nat, subscriptionToken: string,
                             entropy: string, jti: string, json: string): (t: SecureToken)
    ensures t.alg == "HS256" && t.typ == "JWT"
    ensures t.payload.iat == serverTime && t.payload.nbf == serverTime && t.payload.exp == subscriptionExpires
    ensures t.payload.offlineExp == OfflineExp(serverTime, hours)
    ensures t.payload.jti == jti && t.payload.clientEntropy == entropy
  {
    var payload := TokenPayload("user_id", serverTime, subscriptionExpires, serverTime, jti,
                                OfflineExp(serverTime, hours), entropy);
    var key := Crypto.DeriveSessionKey(subscriptionToken, entropy, jti);
    SecureToken("HS256", "JWT", payload, Base64Encode(Crypto.HmacSha256(key, Utf8Bytes(json))))
  }

  /** The fixed secret `verify_token_signature` derives its key from. */
  function ServerSecret(): string {
    "server_secret"
  }

  /** The signature a token is checked against: the same construction with the key
      derived from `ServerSecret()`. */
  function ExpectedSignature(token: SecureToken, json: string): string {
    var key := Crypto.DeriveSessionKey(ServerSecret(), token.payload.clientEntropy, token.payload.jti);
    Base64Encode(Crypto.HmacSha256(key, Utf8Bytes(json)))
  }

  /** `verify_token_signature`. */
  predicate SignatureValid(token: SecureToken, json: string) {
    ExpectedSignature(token, json) == token.signature
  }

  lemma Base64Injective(a: seq<Byte>, b: seq<Byte>)
    ensures Base64Encode(a) == Base64Encode(b) <==> a == b
  {
    Base64RoundTrip(a);
    Base64RoundTrip(b);
  }

  /** A freshly created token passes the signature check exactly when the keyed
      digests under the two keys (one from the subscription token, one from
      "server_secret") coincide; in particular it passes when the subscription
      token is that text. */
  lemma CreatedTokenSignature(serverTime: nat, subscriptionExpires: nat, hours: nat, subscriptionToken: string,
                              entropy: string, jti: string, json: string)
    ensures var t := CreateSecureToken(serverTime, subscriptionExpires, hours, subscriptionToken, entropy, jti, json);
            SignatureValid(t, json) <==>
              Crypto.HmacSha256(Crypto.DeriveSessionKey(subscriptionToken, entropy, jti), Utf8Bytes(json))
              == Crypto.HmacSha256(Crypto.DeriveSessionKey("server_secret", entropy, jti), Utf8Bytes(json))
    ensures subscriptionToken == "server_secret" ==>
              SignatureValid(CreateSecureToken(serverTime, subscriptionExpires, hours, subscriptionToken, entropy, jti, json), json)
  {
    Base64Injective(Crypto.HmacSha256(Crypto.DeriveSessionKey(subscriptionToken, entropy, jti), Utf8Bytes(json)),
                    Crypto.HmacSha256(Crypto.DeriveSessionKey("server_secret", entropy, jti), Utf8Bytes(json)));
  }

  // ---------------------------------------------------------------- clocks

  /** Rust's `f64 as u64`: rounds toward zero and saturates at both ends. */
  function CastU64(x: real): (n: nat)
    ensures n <= U64Max
    ensures 0.0 <= x < (U64Max + 1) as real ==> n as real <= x < (n + 1) as real
  {
    if x <= 0.0 then 0 else if x >= (U64Max + 1) as real then U64Max else x.Floor
  }

  /** Milliseconds the monotonic clock says have passed since the sync. */
  function Elapsed(d: SessionData, env: Environment): nat {
    CastU64(env.performanceNow - d.performanceTime)
  }

  /** The server time `get_current_server_time` estimates before its drift check. */
  function EstimatedServerTime(d: SessionData, env: Environment): nat {
    d.serverTime + Elapsed(d, env)
  }

  function Abs(x: int): nat {
    if x < 0 then -x else x
  }

  /** `detect_time_manipulation`: the wall clock against the client time the
      estimate predicts. */
  function ManipulationDrift(d: SessionData, env: Environment, estimated: nat): int
    requires estimated >= d.serverTime
  {
    env.dateNow as int - (d.clientTime + (estimated - d.serverTime)) as int
  }

  predicate TimeManipulated(d: SessionData, env: Environment, estimated: nat)
    requires estimated >= d.serverTime
  {
    Abs(ManipulationDrift(d, env, estimated)) > ManipulationLimit
  }

  /** `get_current_server_time`: the estimate, unless the wall clock has drifted
      from it by more than a minute either way. */
  function CurrentServerTime(d: SessionData, env: Environment): (t: Option<nat>)
    ensures t.Some? <==> -ManipulationLimit <= ClockDrift(d, env) <= ManipulationLimit
    ensures t.Some? ==> t.value == d.serverTime + Elapsed(d, env)
  {
    var estimated := EstimatedServerTime(d, env);
    if TimeManipulated(d, env, estimated) then None else Some(estimated)
  }

  /** The drift `detect_advanced_clock_tampering` measures: the wall clock
      against the sync's client time plus the monotonic elapsed time. */
  function ClockDrift(d: SessionData, env: Environment): int {
    env.dateNow as int - (d.clientTime + Elapsed(d, env)) as int
  }

  /** `detect_advanced_clock_tampering`: more than five minutes either way, or
      more than one minute backwards. */
  function AdvancedClockTampering(d: SessionData, env: Environment): (r: Option<int>)
    ensures r.Some? <==> ClockDrift(d, env) > TamperingLimit || ClockDrift(d, env) < -ManipulationLimit
    ensures r.Some? ==> r.value == ClockDrift(d, env)
  {
    var drift := ClockDrift(d, env);
    if Abs(drift) > TamperingLimit then Some(drift)
    else if drift < -ManipulationLimit then Some(drift)
    else None
  }

  /** Both detectors measure the same drift, so clock tampering always comes with
      time manipulation; a drift between one and five minutes forward is
      manipulation only. */
  lemma DetectorsAgree(d: SessionData, env: Environment)
    ensures ManipulationDrift(d, env, EstimatedServerTime(d, env)) == ClockDrift(d, env)
    ensures AdvancedClockTampering(d, env).Some? ==> CurrentServerTime(d, env).None?
    ensures CurrentServerTime(d, env).None? && AdvancedClockTampering(d, env).None? <==>
              ManipulationLimit < ClockDrift(d, env) <= TamperingLimit
  {
  }

  // ---------------------------------------------------------------- integrity

  /** `calculate_integrity_hash`: the hex digest of the serialized integrity data. */
  function IntegrityHash(json: string): (h: string)
    ensures |h| == 64
  {
    HexEncode(Hasher.Digest(Utf8Bytes(json)))
  }

  /** `verify_integrity_chain`: only the first link is checked, against the
      hash of the session's own integrity data. */
  predicate IntegrityChainValid(chain: seq<string>, integrityJson: string) {
    |chain| > 0 && chain[0] == IntegrityHash(integrityJson)
  }

  /** The chain passes exactly when its first link is the hash, whatever follows;
      an empty chain never passes. */
  lemma IntegrityChainFirstOnly(chain: seq<string>, rest: seq<string>, integrityJson: string)
    ensures IntegrityChainValid([IntegrityHash(integrityJson)] + rest, integrityJson)
    ensures !IntegrityChainValid([], integrityJson)
    ensures |chain| > 0 ==> (IntegrityChainValid(chain + rest, integrityJson) <==> IntegrityChainValid(chain, integrityJson))
  {
  }

  /** `detect_replay_attack`: the session's nonce is in the stored list. */
  predicate ReplayDetected(d: SessionData, usedNonces: Option<seq<string>>) {
    usedNonces.Some? && d.sessionNonce in usedNonces.value
  }

  /** What the five checks of `verify_session_comprehensive` report: whether the
      fingerprint matches, whether the signature is valid, whether the nonce was
      used before, whether the integrity chain holds, and the drift the clock
      tampering detector reports, if any. */
  datatype Checks = Checks(fingerprintMatches: bool, signatureValid: bool, replayed: bool,
                           chainValid: bool, tampering: Option<int>)

  /** The checks run against one session and the current readings. */
  function RunChecks(d: SessionData, env: Environment): Checks {
    Checks(env.fingerprint == d.clientFingerprint, SignatureValid(d.token, env.tokenJson),
           ReplayDetected(d, env.usedNonces), IntegrityChainValid(d.integrityChain, env.integrityJson),
           AdvancedClockTampering(d, env))
  }

  /** `verify_session_comprehensive`: the first failing check, in source order,
      decides the violation. */
  function Combine(c: Checks): Result<(), Violation> {
    if !c.fingerprintMatches then Err(TamperingViolation("Device fingerprint mismatch"))
    else if !c.signatureValid then Err(SignatureViolation)
    else if c.replayed then Err(ReplayViolation)
    else if !c.chainValid then Err(TamperingViolation("Integrity chain broken"))
    else match c.tampering
      case Some(drift) => Err(ClockTampering(drift))
      case None => Ok(())
  }

  function VerifySession(d: SessionData, env: Environment): Result<(), Violation> {
    Combine(RunChecks(d, env))
  }

  predicate AllPass(c: Checks) {
    c.fingerprintMatches && c.signatureValid && !c.replayed && c.chainValid && c.tampering.None?
  }

  /** Verification passes exactly when every check passes, and each violation is
      reported exactly when its check is the first to fail. */
  lemma CombineFirstFailure(c: Checks)
    ensures Combine(c).Ok? <==> AllPass(c)
    ensures Combine(c) == Err(SignatureViolation) <==> c.fingerprintMatches && !c.signatureValid
    ensures Combine(c) == Err(ReplayViolation) <==> c.fingerprintMatches && c.signatureValid && c.replayed
    ensures (exists drift :: Combine(c) == Err(ClockTampering(drift))) <==>
              c.fingerprintMatches && c.signatureValid && !c.replayed && c.chainValid && c.tampering.Some?
    ensures Combine(c).Err? && Combine(c).error.TamperingViolation? <==> !c.fingerprintMatches || (c.signatureValid && !c.replayed && !c.chainValid)
  {
    if c.fingerprintMatches && c.signatureValid && !c.replayed && c.chainValid && c.tampering.Some? {
      assert Combine(c) == Err(ClockTampering(c.tampering.value));
    }
  }

  /** The clock check passes exactly when the drift is at most one minute backwards
      and at most five minutes forwards. */
  lemma ClockCheckWindow(d: SessionData, env: Environment)
    ensures RunChecks(d, env).tampering.None? <==> -ManipulationLimit <= ClockDrift(d, env) <= TamperingLimit
  {
  }

  // ---------------------------------------------------------------- state

  /** The state `update_session_state` decides for a present session from its
      check results, the current server time and its token. */
  function Decide(c: Checks, now: Option<nat>, payload: TokenPayload): (s: SessionState)
    ensures s in {TamperingDetected, SubscriptionExpired, Expired, Valid}
  {
    if Combine(c).Err? then TamperingDetected
    else match now
      case None => TamperingDetected
      case Some(t) =>
        if t >= payload.exp then SubscriptionExpired
        else if t >= payload.offlineExp then Expired
        else Valid
  }

  /** `update_session_state`. */
  function UpdateSessionState(data: Option<SessionData>, env: Environment): SessionState {
    match data
    case None => Loading
    case Some(d) => Decide(RunChecks(d, env), CurrentServerTime(d, env), d.token.payload)
  }

  /** The update never decides `Offline`, and decides `Loading` exactly when there
      is no session. */
  lemma UpdateSessionStateRange(data: Option<SessionData>, env: Environment)
    ensures UpdateSessionState(data, env) != Offline
    ensures UpdateSessionState(data, env) == Loading <==> data.None?
  {
  }

  /** A session is `Valid` exactly when all checks pass, a current server time is
      known, and it is before both the token's expiry and its offline-window expiry. */
  lemma DecideValidIff(c: Checks, now: Option<nat>, payload: TokenPayload)
    ensures Decide(c, now, payload) == Valid <==>
              AllPass(c) && now.Some? && now.value < payload.exp && now.value < payload.offlineExp
  {
    CombineFirstFailure(c);
  }

  /** The token's expiry is checked before the offline window: a session past both
      is `SubscriptionExpired`, never `Expired`. */
  lemma DecideExpiryOrder(c: Checks, t: nat, payload: TokenPayload)
    requires AllPass(c)
    ensures t >= payload.exp ==> Decide(c, Some(t), payload) == SubscriptionExpired
    ensures Decide(c, Some(t), payload) == Expired <==> payload.offlineExp <= t < payload.exp
  {
    CombineFirstFailure(c);
  }

  /** Every failed check, and an unknown server time, give `TamperingDetected`,
      whatever the check was. */
  lemma DecideTampering(c: Checks, now: Option<nat>, payload: TokenPayload)
    ensures Decide(c, now, payload) == TamperingDetected <==> !AllPass(c) || now.None?
  {
    CombineFirstFailure(c);
  }

  /** `is_session_valid`. */
  predicate IsSessionValid(s: SessionState) {
    s == Valid || s == Offline
  }

  /** `refresh_session_state`: only a valid or offline session is decided again;
      every other state is kept. */
  function RefreshSessionState(s: SessionState, data: Option<SessionData>, env: Environment): SessionState {
    if s == Valid || s == Offline then UpdateSessionState(data, env) else s
  }

  /** A state that is not valid is kept; a valid one is replaced by the update's
      decision, which is never `Offline`. Refreshing twice with the same readings
      is refreshing once. */
  lemma RefreshIdempotent(s: SessionState, data: Option<SessionData>, env: Environment)
    ensures !IsSessionValid(s) ==> RefreshSessionState(s, data, env) == s
    ensures IsSessionValid(s) ==> RefreshSessionState(s, data, env) == UpdateSessionState(data, env)
    ensures RefreshSessionState(RefreshSessionState(s, data, env), data, env) == RefreshSessionState(s, data, env)
    ensures IsSessionValid(RefreshSessionState(s, data, env)) ==> RefreshSessionState(s, data, env) == Valid
  {
    UpdateSessionStateRange(data, env);
  }

  /** `has_valid_subscription`: a current server time before the subscription's
      expiry and a valid token signature. */
  predicate HasValidSubscription(data: Option<SessionData>, env: Environment) {
    match data
    case None => false
    case Some(d) =>
      match CurrentServerTime(d, env)
      case None => false
      case Some(t) => t < d.subscriptionExpires && SignatureValid(d.token, env.tokenJson)
  }

  /** A subscription is valid exactly when the clock has drifted at most a minute
      either way, the estimated server time is before the subscription's expiry,
      and the token's signature is valid; the session state plays no part. */
  lemma HasValidSubscriptionIff(d: SessionData, env: Environment)
    ensures HasValidSubscription(Some(d), env) <==>
              && -ManipulationLimit <= ClockDrift(d, env) <= ManipulationLimit
              && d.serverTime + Elapsed(d, env) < d.subscriptionExpires
              && RunChecks(d, env).signatureValid
    ensures !HasValidSubscription(None, env)
  {
  }

  // ---------------------------------------------------------------- offline window

  /** For a token created at server time `s` with a window of `h` hours, the
      estimate reaches the offline expiry exactly when `h` hours have passed on
      the monotonic clock; with `h = 0` a session is past it at once. */
  lemma OfflineWindow(d: SessionData, env: Environment, hours: nat)
    requires d.token.payload.offlineExp == OfflineExp(d.serverTime, hours)
    ensures d.serverTime + Elapsed(d, env) >= d.token.payload.offlineExp <==> Elapsed(d, env) >= hours * MillisPerHour
    ensures hours == 0 ==> d.serverTime + Elapsed(d, env) >= d.token.payload.offlineExp
  {
  }

  // ---------------------------------------------------------------- loading

  /** What `load_existing_session` leaves behind: the session state, the record
      put into the session signal (`None` when it is left alone), and whether the
      stored session is cleared. */
  datatype LoadOutcome = LoadOutcome(state: SessionState, adopted: Option<SessionData>, cleared: bool)

  /** The outcome for a loaded session, from its check results and current server time. */
  function AfterLoad(d: SessionData, c: Checks, now: Option<nat>): (r: LoadOutcome)
    ensures r.state != Offline
    ensures r.cleared <==> Combine(c).Err?
    ensures r.adopted == (if AllPass(c) then Some(d) else None)
  {
    CombineFirstFailure(c);
    match Combine(c)
    case Ok(_) => LoadOutcome(Decide(c, now, d.token.payload), Some(d), false)
    case Err(TamperingViolation(_)) => LoadOutcome(TamperingDetected, None, true)
    case Err(SignatureViolation) => LoadOutcome(InvalidSignature, None, true)
    case Err(ReplayViolation) => LoadOutcome(ReplayAttack, None, true)
    case Err(ClockTampering(_)) => LoadOutcome(TamperingDetected, None, true)
  }

  /** `load_existing_session`, given what the secure load returned: nothing stored
      and a failed load both leave the session `Loading`. */
  function LoadExistingSession(loaded: Result<Option<SessionData>, string>, env: Environment): LoadOutcome {
    match loaded
    case Err(_) => LoadOutcome(Loading, None, false)
    case Ok(None) => LoadOutcome(Loading, None, false)
    case Ok(Some(d)) => AfterLoad(d, RunChecks(d, env), CurrentServerTime(d, env))
  }

  /** Nothing stored, or a load that fails, leaves the session `Loading` and
      untouched; a loaded session is checked and never ends `Offline`. */
  lemma LoadExistingSessionOutcome(loaded: Result<Option<SessionData>, string>, env: Environment)
    ensures loaded.Err? || loaded.value.None? ==> LoadExistingSession(loaded, env) == LoadOutcome(Loading, None, false)
    ensures LoadExistingSession(loaded, env).state != Offline
    ensures loaded.Ok? && loaded.value.Some? ==>
              LoadExistingSession(loaded, env).cleared == !AllPass(RunChecks(loaded.value.value, env))
  {
    if loaded.Ok? && loaded.value.Some? {
      var d := loaded.value.value;
      CombineFirstFailure(RunChecks(d, env));
    }
  }

  /** Which state a loaded session ends in: a bad signature and a replayed nonce
      have states of their own, clock tampering is reported as tampering, and an
      adopted session is decided as `update_session_state` decides it. */
  lemma AfterLoadStates(d: SessionData, c: Checks, now: Option<nat>)
    ensures AfterLoad(d, c, now).state == InvalidSignature <==> c.fingerprintMatches && !c.signatureValid
    ensures AfterLoad(d, c, now).state == ReplayAttack <==> c.fingerprintMatches && c.signatureValid && c.replayed
    ensures c.tampering.Some? ==> AfterLoad(d, c, now).state == TamperingDetected || AfterLoad(d, c, now).state == InvalidSignature
                                  || AfterLoad(d, c, now).state == ReplayAttack
    ensures AllPass(c) ==> AfterLoad(d, c, now).state == Decide(c, now, d.token.payload)
  {
    CombineFirstFailure(c);
  }

  // ---------------------------------------------------------------- storage

  /** The text `save_session_data_secure` stores: the session's JSON text run
      through `encrypt_data` with the key derived from nonce, fingerprint and
      token id, and the session nonce. */
  function StoredSession(json: string, key: seq<Byte>, nonce: string): string {
    Crypto.EncryptData(json, key, nonce)
  }

  /** The bytes `load_session_data_secure` hands to the UTF-8 and JSON parsers,
      as written: the stored text is only base64-decoded, never deciphered. */
  function LoadedBytesAsWritten(stored: string): seq<Byte> {
    Base64Decode(stored)
  }

  /** As written, loading a saved session yields the cipher bytes, which equal
      the JSON's bytes only where key and nonce bytes cancel each other. */
  lemma LoadAsWrittenScrambles(json: string, key: seq<Byte>, nonce: string)
    requires |key| > 0 && |nonce| > 0
    ensures var bytes := Utf8Bytes(json);
            LoadedBytesAsWritten(StoredSession(json, key, nonce)) == Crypto.XorBytes(bytes, key, Utf8Bytes(nonce))
    ensures var bytes := Utf8Bytes(json);
            var n := Utf8Bytes(nonce);
            LoadedBytesAsWritten(StoredSession(json, key, nonce)) == bytes <==>
              forall i :: 0 <= i < |bytes| ==> key[i % |key|] ^ n[i % |n|] == 0
  {
    var bytes := Utf8Bytes(json);
    var n := Utf8Bytes(nonce);
    Text.Utf8LenBounds(nonce);
    Base64RoundTrip(Crypto.XorBytes(bytes, key, n));
    var c := Crypto.XorBytes(bytes, key, n);
    if c == bytes {
      forall i | 0 <= i < |bytes|
        ensures key[i % |key|] ^ n[i % |n|] == 0
      {
        XorFixed(bytes[i], key[i % |key|], n[i % |n|]);
      }
    }
    if forall i :: 0 <= i < |bytes| ==> key[i % |key|] ^ n[i % |n|] == 0 {
      forall i | 0 <= i < |bytes|
        ensures c[i] == bytes[i]
      {
        XorFixed(bytes[i], key[i % |key|], n[i % |n|]);
      }
    }
  }

  lemma XorFixed(b: Byte, k: Byte, n: Byte)
    ensures b ^ k ^ n == b <==> k ^ n == 0
  {
  }

  /** A concrete session text that comes back scrambled: "{}" saved under the
      one-byte key 1 and the nonce "0" loads as the bytes of "JL". */
  lemma LoadAsWrittenExample()
    ensures LoadedBytesAsWritten(StoredSession("{}", [1], "0")) == [0x4A, 0x4C]
    ensures Utf8Bytes("{}") == [0x7B, 0x7D]
  {
    BracesBytes();
    ZeroBytes();
    LoadAsWrittenScrambles("{}", [1], "0");
    var c := Crypto.XorBytes([0x7B, 0x7D], [1], [0x30]);
    assert c[0] == 0x7B ^ 1 ^ 0x30 == 0x4A;
    assert c[1] == 0x7D ^ 1 ^ 0x30 == 0x4C;
  }

  lemma BracesBytes()
    ensures Utf8Bytes("{}") == [0x7B, 0x7D]
  {
    assert "{}"[..1] == "{";
    assert Utf8Bytes("{") == Utf8Bytes("") + Utf8Char('{');
  }

  lemma ZeroBytes()
    ensures Utf8Bytes("0") == [0x30]
  {
    assert Utf8Bytes("0") == Utf8Bytes("") + Utf8Char('0');
  }

  /** Corrected loading: the decoded bytes are deciphered with the same key and nonce. */
  function LoadedBytes(stored: string, key: seq<Byte>, nonce: string): seq<Byte> {
    Crypto.XorBytes(Base64Decode(stored), key, Utf8Bytes(nonce))
  }

  /** Loading a saved session gives back the JSON text's bytes. */
  lemma SaveLoadRoundTrip(json: string, key: seq<Byte>, nonce: string)
    requires |key| > 0 && |nonce| > 0
    ensures LoadedBytes(StoredSession(json, key, nonce), key, nonce) == Utf8Bytes(json)
  {
    Crypto.EncryptDataRecoverable(json, key, nonce);
  }
}
