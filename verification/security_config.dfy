/**
 * lib/security-config.ts: `SecureTokenEncryption` (its key and its
 * `iv:ciphertext` string format), `sanitizeInput`, the in-memory TTL counter
 * store with the rate limiter that drives it, and the production
 * environment check.
 *
 * The environment is a map from variable name to value; an absent name is
 * an unset variable. The clock is the `now` parameter, in milliseconds.
 */
module SecurityConfig {
  import opened Wrappers
  import opened JsText
  import opened Hex
  import opened Cipher
  import opened UserSchema

  /** `process.env[name]` */
  function EnvVar(env: map<string, string>, name: string): Option<string> {
    if name in env then Some(env[name]) else None
  }

  const TOKEN_ENCRYPTION_KEY: string := "TOKEN_ENCRYPTION_KEY"

  /* ---------------- SecureTokenEncryption ---------------- */

  const MISSING_KEY: string := "TOKEN_ENCRYPTION_KEY environment variable is required"
  const ENCRYPT_FAILED: string := "Failed to encrypt token"
  const DECRYPT_FAILED: string := "Failed to decrypt token"

  /**
   * `SecureTokenEncryption.getEncryptionKey()`: an error without a key;
   * otherwise 64 hex digits decoded or anything else hashed, as in the user
   * model but with no fallback passphrase. The 32-byte length check that
   * follows can never fail.
   */
  function GetEncryptionKey(keyString: Option<string>): (r: Result<Key, string>)
    ensures r.Failure? <==> !Truthy(keyString)
    ensures r.Failure? ==> r.error == MISSING_KEY
    ensures r.Success? ==> r.value == EncryptionKey(keyString)
  {
    if !Truthy(keyString) then Failure(MISSING_KEY)
    else
      var key := DeriveKey(keyString.value);
      if |key| != KEY_LENGTH then Failure("Encryption key must be exactly 32 bytes")
      else Success(key)
  }

  /** `SecureTokenEncryption.encrypt(plaintext)`: every error is reported as "Failed to encrypt token". */
  function Encrypt(keyString: Option<string>, iv: Iv, plaintext: string): (r: Result<string, string>)
    ensures r.Failure? <==> !Truthy(keyString)
    ensures r.Failure? ==> r.error == ENCRYPT_FAILED
    ensures r.Success? ==>
      && |r.value| > 2 * IV_LENGTH + 1
      && IsHexString(r.value[..2 * IV_LENGTH], 2 * IV_LENGTH) && r.value[2 * IV_LENGTH] == ':'
      && ':' !in r.value[2 * IV_LENGTH + 1..]
  {
    match GetEncryptionKey(keyString)
    case Failure(_) => Failure(ENCRYPT_FAILED)
    case Success(key) => Success(EncryptToken(key, iv, plaintext))
  }

  /**
   * `SecureTokenEncryption.decrypt(data)`: split at ':', refuse an empty or
   * missing half, then decipher; every error is reported as "Failed to
   * decrypt token".
   */
  function Decrypt(keyString: Option<string>, data: string): (r: Result<string, string>)
    ensures r.Failure? ==> r.error == DECRYPT_FAILED
    ensures !Truthy(keyString) ==> r.Failure?
    ensures ':' !in data || FirstField(data, ':') == "" || SecondField(data, ':') == Some("") ==> r.Failure?
    ensures SecondField(data, ':').Some? && |SecondField(data, ':').value| % 2 == 1 ==> r.Failure?
  {
    match GetEncryptionKey(keyString)
    case Failure(_) => Failure(DECRYPT_FAILED)
    case Success(key) =>
      var ivHex := FirstField(data, ':');
      var encryptedHex := SecondField(data, ':');
      if ivHex == "" || !Truthy(encryptedHex) then Failure(DECRYPT_FAILED)
      else
        match DecipherStored(key, data)
        case Failure(_) => Failure(DECRYPT_FAILED)
        case Success(plaintext) => Success(plaintext)
  }

  /** With a key configured, `decrypt(encrypt(p)) == p` for every plaintext and IV. */
  lemma DecryptEncrypt(keyString: Option<string>, iv: Iv, plaintext: string)
    requires Truthy(keyString)
    ensures Encrypt(keyString, iv, plaintext).Success?
    ensures Decrypt(keyString, Encrypt(keyString, iv, plaintext).value) == Success(plaintext)
  {
    StoredTokenDecrypts(keyString, iv, plaintext);
  }

  /**
   * The two modules share one format: with the key configured, a token the
   * user model stored decrypts here too.
   */
  lemma StoredTokenDecrypts(keyString: Option<string>, iv: Iv, token: string)
    requires Truthy(keyString)
    ensures Decrypt(keyString, EncryptToken(EncryptionKey(keyString), iv, token)) == Success(token)
  {
    var key := EncryptionKey(keyString);
    var stored := EncryptToken(key, iv, token);
    var ivHex := Encode(iv);
    var ctHex := Encode(Seal(key, iv, token));
    assert stored == ivHex + [':'] + ctHex;
    assert ':' !in ivHex by {
      forall j | 0 <= j < |ivHex| ensures ivHex[j] != ':' { assert IsLowerHexDigit(ivHex[j]); }
    }
    FieldsOfJoin(ivHex, ':', ctHex);
    assert ':' !in ctHex by {
      forall j | 0 <= j < |ctHex| ensures ctHex[j] != ':' { assert IsLowerHexDigit(ctHex[j]); }
    }
    assert FirstField(ctHex, ':') == ctHex;
    TokenRoundTrip(key, iv, token);
  }

  /* ---------------- sanitizeInput ---------------- */

  const MAX_INPUT_LENGTH: nat := 1000

  /** `s.replace(/[<>]/g, '')` */
  function RemoveAngleBrackets(s: string): (r: string)
    ensures |r| <= |s|
    ensures forall c :: c in r <==> c in s && c != '<' && c != '>'
  {
    if s == [] then []
    else if s[0] == '<' || s[0] == '>' then RemoveAngleBrackets(s[1..])
    else
      var rest := RemoveAngleBrackets(s[1..]);
      assert forall c :: c in s <==> c == s[0] || c in s[1..];
      [s[0]] + rest
  }

  /** `sanitizeInput(input)`; `None` is an argument that is not a string, which gives `''`. */
  function SanitizeInput(input: Option<string>): (r: string)
    ensures |r| <= MAX_INPUT_LENGTH
    ensures '<' !in r && '>' !in r
    ensures forall c :: c in r ==> input.Some? && c in input.value
    ensures input.Some? ==> r <= RemoveAngleBrackets(Trim(input.value))
    ensures input.Some? && |RemoveAngleBrackets(Trim(input.value))| <= MAX_INPUT_LENGTH ==> r == RemoveAngleBrackets(Trim(input.value))
    ensures input.Some? && |RemoveAngleBrackets(Trim(input.value))| > MAX_INPUT_LENGTH ==>
      r == RemoveAngleBrackets(Trim(input.value))[..MAX_INPUT_LENGTH]
  {
    if input.None? then ""
    else
      var s := RemoveAngleBrackets(Trim(input.value));
      var r := if |s| <= MAX_INPUT_LENGTH then s else s[..MAX_INPUT_LENGTH];
      assert forall c :: c in r ==> c in s;
      r
  }

  /* ---------------- MemoryRateLimitStore ---------------- */

  datatype Entry = Entry(value: int, expires: int)

  /** `value * 1000` milliseconds from now. */
  function ExpiryAfter(now: int, ttlSeconds: int): int {
    now + ttlSeconds * 1000
  }

  /** The value `get` reports: the stored one until its expiry (inclusive), 0 after it or for an unknown key. */
  function LiveValue(store: map<string, Entry>, key: string, now: int): int {
    if key in store && now <= store[key].expires then store[key].value else 0
  }

  /** The store after `increment(key, ttlSeconds)` at `now`. */
  function Incremented(store: map<string, Entry>, key: string, ttlSeconds: int, now: int): (s: map<string, Entry>)
    ensures key in s && s[key] == Entry(LiveValue(store, key, now) + 1, ExpiryAfter(now, ttlSeconds))
    ensures forall k :: k != key ==> (k in s <==> k in store) && (k in s ==> s[k] == store[k])
  {
    store[key := Entry(LiveValue(store, key, now) + 1, ExpiryAfter(now, ttlSeconds))]
  }

  class MemoryRateLimitStore {
    var store: map<string, Entry>

    constructor ()
      ensures store == map[]
    {
      store := map[];
    }

    /** `get(key)`: a missing or expired entry reads as 0 and is removed. */
    method Get(key: string, now: int) returns (value: int)
      modifies this
      ensures value == LiveValue(old(store), key, now)
      ensures store == if key in old(store) && now <= old(store)[key].expires then old(store) else old(store) - {key}
    {
      if key !in store || now > store[key].expires {
        store := store - {key};
        return 0;
      }
      return store[key].value;
    }

    /** `set(key, value, ttlSeconds)`: the entry expires `ttlSeconds` from now. */
    method Set(key: string, value: int, ttlSeconds: int, now: int)
      modifies this
      ensures store == old(store)[key := Entry(value, ExpiryAfter(now, ttlSeconds))]
    {
      store := store[key := Entry(value, ExpiryAfter(now, ttlSeconds))];
    }

    /** `increment(key, ttlSeconds)`: the live value plus one, stored with a fresh expiry. */
    method Increment(key: string, ttlSeconds: int, now: int) returns (value: int)
      modifies this
      ensures value == LiveValue(old(store), key, now) + 1
      ensures store == Incremented(old(store), key, ttlSeconds, now)
    {
      var current := Get(key, now);
      value := current + 1;
      Set(key, value, ttlSeconds, now);
    }
  }

  /**
   * The counts successive increments of one key see at the given times. The
   * code sets a new expiry on every increment, so the window slides: it ends
   * `ttlSeconds` after the latest call, not after the first.
   */
  function CountsSeen(store: map<string, Entry>, key: string, ttlSeconds: int, times: seq<int>): (counts: seq<int>)
    ensures |counts| == |times|
    decreases |times|
  {
    if times == [] then []
    else
      [LiveValue(store, key, times[0]) + 1] + CountsSeen(Incremented(store, key, ttlSeconds, times[0]), key, ttlSeconds, times[1..])
  }

  /** Calls no further apart than the window: each sees one more than the one before. */
  predicate WithinWindow(times: seq<int>, ttlSeconds: int) {
    forall i :: 0 < i < |times| ==> times[i - 1] <= times[i] <= ExpiryAfter(times[i - 1], ttlSeconds)
  }

  /**
   * Starting from a key with no live entry, calls each within the window of
   * the previous one see the counts 1, 2, 3, …
   */
  lemma {:induction false} CountsIncreaseWithinWindow(store: map<string, Entry>, key: string, ttlSeconds: int, times: seq<int>)
    requires times != [] ==> LiveValue(store, key, times[0]) == 0
    requires WithinWindow(times, ttlSeconds)
    ensures forall i :: 0 <= i < |times| ==> CountsSeen(store, key, ttlSeconds, times)[i] == i + 1
  {
    if times != [] {
      CountsFrom(Incremented(store, key, ttlSeconds, times[0]), key, ttlSeconds, times[1..], 1, times[0]);
    }
  }

  lemma {:induction false} CountsFrom(store: map<string, Entry>, key: string, ttlSeconds: int, times: seq<int>, seen: int, last: int)
    requires key in store && store[key] == Entry(seen, ExpiryAfter(last, ttlSeconds))
    requires times != [] ==> last <= times[0] <= ExpiryAfter(last, ttlSeconds)
    requires WithinWindow(times, ttlSeconds)
    ensures forall i :: 0 <= i < |times| ==> CountsSeen(store, key, ttlSeconds, times)[i] == seen + i + 1
  {
    if times != [] {
      var next := Incremented(store, key, ttlSeconds, times[0]);
      assert LiveValue(store, key, times[0]) == seen;
      assert WithinWindow(times[1..], ttlSeconds);
      CountsFrom(next, key, ttlSeconds, times[1..], seen + 1, times[0]);
      var counts := CountsSeen(store, key, ttlSeconds, times);
      assert counts == [seen + 1] + CountsSeen(next, key, ttlSeconds, times[1..]);
    }
  }

  /* ---------------- RateLimiter ---------------- */

  datatype LimitDecision = LimitDecision(allowed: bool, remaining: int)

  /** The reply for the `count`-th attempt: allowed up to `maxAttempts`, and the attempts left, never negative. */
  function Decide(maxAttempts: int, count: int): (d: LimitDecision)
    ensures d.allowed <==> count <= maxAttempts
    ensures d.remaining >= 0
    ensures d.remaining > 0 ==> d.allowed && d.remaining + count == maxAttempts
    ensures d.allowed ==> d.remaining + count == maxAttempts
  {
    LimitDecision(count <= maxAttempts, if maxAttempts - count > 0 then maxAttempts - count else 0)
  }

  /** `` `rate_limit:${identifier}` `` */
  function RateLimitKey(identifier: string): string {
    "rate_limit:" + identifier
  }

  class RateLimiter {
    const store: MemoryRateLimitStore
    const maxAttempts: int
    const windowSeconds: int

    constructor (store: MemoryRateLimitStore, maxAttempts: int, windowSeconds: int)
      ensures this.store == store && this.maxAttempts == maxAttempts && this.windowSeconds == windowSeconds
    {
      this.store := store;
      this.maxAttempts := maxAttempts;
      this.windowSeconds := windowSeconds;
    }

    /** `checkLimit(identifier)`: count this attempt, then decide. */
    method CheckLimit(identifier: string, now: int) returns (d: LimitDecision)
      modifies store
      ensures store.store == Incremented(old(store.store), RateLimitKey(identifier), windowSeconds, now)
      ensures d == Decide(maxAttempts, LiveValue(old(store.store), RateLimitKey(identifier), now) + 1)
    {
      var current := store.Increment(RateLimitKey(identifier), windowSeconds, now);
      d := LimitDecision(current <= maxAttempts, if maxAttempts - current > 0 then maxAttempts - current else 0);
    }
  }

  /**
   * Within one window the decisions are the ones for attempts 1, 2, 3, …:
   * the first `maxAttempts` calls are allowed and every later one refused.
   */
  lemma DecisionsWithinWindow(store: map<string, Entry>, identifier: string, maxAttempts: int, windowSeconds: int, times: seq<int>)
    requires times != [] ==> LiveValue(store, RateLimitKey(identifier), times[0]) == 0
    requires WithinWindow(times, windowSeconds)
    ensures forall i :: 0 <= i < |times| ==>
      && CountsSeen(store, RateLimitKey(identifier), windowSeconds, times)[i] == i + 1
      && (Decide(maxAttempts, CountsSeen(store, RateLimitKey(identifier), windowSeconds, times)[i]).allowed <==> i < maxAttempts)
  {
    CountsIncreaseWithinWindow(store, RateLimitKey(identifier), windowSeconds, times);
  }

  /* ---------------- validateProductionEnvironment ---------------- */

  const REQUIRED_ENV_VARS: seq<string> :=
    [TOKEN_ENCRYPTION_KEY, "META_APP_ID", "META_APP_SECRET", "META_REDIRECT_URI", "MONGODB_URI", "NEXTAUTH_SECRET"]

  const MIN_KEY_LENGTH: nat := 32

  /** `requiredEnvVars.filter(v => !process.env[v])` */
  function MissingVars(env: map<string, string>, names: seq<string>): (missing: seq<string>)
    ensures forall v :: v in missing <==> v in names && !Truthy(EnvVar(env, v))
  {
    if names == [] then []
    else if !Truthy(EnvVar(env, names[0])) then [names[0]] + MissingVars(env, names[1..])
    else MissingVars(env, names[1..])
  }

  /** `validateProductionEnvironment()` */
  function ValidateProductionEnvironment(env: map<string, string>): (ok: bool)
    ensures ok <==> (forall v :: v in REQUIRED_ENV_VARS ==> Truthy(EnvVar(env, v)))
                    && |env[TOKEN_ENCRYPTION_KEY]| >= MIN_KEY_LENGTH
  {
    var missing := MissingVars(env, REQUIRED_ENV_VARS);
    if |missing| > 0 then
      assert missing[0] in missing;
      false
    else
      var encryptionKey := EnvVar(env, TOKEN_ENCRYPTION_KEY);
      assert TOKEN_ENCRYPTION_KEY in REQUIRED_ENV_VARS;
      !(Truthy(encryptionKey) && |encryptionKey.value| < MIN_KEY_LENGTH)
  }

  /**
   * An environment that passes the check has a key: `SecureTokenEncryption`
   * can derive one, and it is the key the user model uses, not the fallback
   * passphrase's hash.
   */
  lemma ValidEnvironmentHasKey(env: map<string, string>)
    requires ValidateProductionEnvironment(env)
    ensures GetEncryptionKey(EnvVar(env, TOKEN_ENCRYPTION_KEY)).Success?
    ensures GetEncryptionKey(EnvVar(env, TOKEN_ENCRYPTION_KEY)).value == DeriveKey(env[TOKEN_ENCRYPTION_KEY])
  {
    assert TOKEN_ENCRYPTION_KEY in REQUIRED_ENV_VARS;
  }
}
