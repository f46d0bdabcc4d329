/**
 * The credential record of models/User.ts and the parts of its schema that
 * only compute: the email validator, the encryption key, the `iv:ciphertext`
 * token format, the expiry predicates and the page lookups.
 *
 * Time is a number of milliseconds (JavaScript `Date` values); a "day" of
 * `setDate(getDate() + n)` is taken as a fixed 86 400 000 ms.
 */
module UserSchema {
  import opened Wrappers
  import opened JsText
  import opened Hex
  import opened Cipher

  type Time = int

  const DAY_MS: int := 86_400_000
  /** Long-lived Meta tokens are stored with a 60-day expiry. */
  const TOKEN_LIFETIME_DAYS: int := 60
  /** A token is refreshed once it is within 7 days of expiring. */
  const REFRESH_THRESHOLD_DAYS: int := 7

  /** One linked Facebook page (an element of `pages`). */
  datatype Page = Page(
    pageId: string,
    pageName: string,
    encryptedPageToken: string,
    category: Option<string>,
    tasks: seq<string>,
    igBusinessId: Option<string>,
    igUsername: Option<string>)

  /** One stored user document; `None` is a field that is absent (`undefined`). */
  datatype UserRecord = UserRecord(
    userId: string,
    metaUserId: Option<string>,
    userName: Option<string>,
    email: Option<string>,
    encryptedAccessToken: string,
    tokenExpiry: Time,
    tokenRefreshedAt: Option<Time>,
    // legacy mirror of the active page
    pageId: Option<string>,
    pageName: Option<string>,
    igBusinessId: Option<string>,
    igUsername: Option<string>,
    permissions: seq<string>,
    pages: seq<Page>,
    activePageId: Option<string>,
    lastActivity: Time,
    isActive: bool,
    dataRetentionConsent: Option<Time>,
    createdAt: Time,
    updatedAt: Time)

  /* ---------------- email validator ---------------- */

  /** `[^\s@]` */
  predicate IsEmailChar(c: char) {
    c != '@' && !IsWhitespace(c)
  }

  predicate AllEmailChars(s: string) {
    forall i :: 0 <= i < |s| ==> IsEmailChar(s[i])
  }

  /** `/^[^\s@]+@[^\s@]+\.[^\s@]+$/` read as written: A "@" B "." C, each of A, B, C a non-empty run of `[^\s@]`. */
  ghost predicate MatchesEmailPattern(s: string) {
    exists at, dot ::
      && 0 < at && at + 1 < dot && dot + 1 < |s|
      && s[at] == '@' && s[dot] == '.'
      && AllEmailChars(s[..at]) && AllEmailChars(s[at + 1..dot]) && AllEmailChars(s[dot + 1..])
  }

  predicate HasInnerDot(d: string) {
    exists i :: 0 < i < |d| - 1 && d[i] == '.'
  }

  /** The schema's email validator: `!email || pattern.test(email)`, checked by splitting at the first `@`. */
  predicate IsValidEmail(email: string) {
    || email == ""
    || (var at := FirstIndex(email, '@');
        && 0 < at < |email|
        && AllEmailChars(email[..at])
        && AllEmailChars(email[at + 1..])
        && HasInnerDot(email[at + 1..]))
  }

  lemma FirstIndexAt(s: string, c: char, k: nat)
    requires k < |s| && s[k] == c && c !in s[..k]
    ensures FirstIndex(s, c) == k
  {
  }

  lemma ValidEmailMatchesPattern(email: string)
    requires email != "" && IsValidEmail(email)
    ensures MatchesEmailPattern(email)
  {
    var at := FirstIndex(email, '@');
    var d := email[at + 1..];
    var i :| 0 < i < |d| - 1 && d[i] == '.';
    var dot := at + 1 + i;
    assert email[at + 1..dot] == d[..i];
    assert email[dot + 1..] == d[i + 1..];
    assert AllEmailChars(email[at + 1..dot]);
    assert AllEmailChars(email[dot + 1..]);
  }

  lemma PatternMatchIsValidEmail(email: string, at: nat, dot: nat)
    requires 0 < at && at + 1 < dot && dot + 1 < |email|
    requires email[at] == '@' && email[dot] == '.'
    requires AllEmailChars(email[..at]) && AllEmailChars(email[at + 1..dot]) && AllEmailChars(email[dot + 1..])
    ensures IsValidEmail(email)
  {
    assert '@' !in email[..at] by {
      forall j | 0 <= j < at ensures email[..at][j] != '@' { assert IsEmailChar(email[..at][j]); }
    }
    FirstIndexAt(email, '@', at);
    var d := email[at + 1..];
    forall j | 0 <= j < |d| ensures IsEmailChar(d[j]) {
      if j < dot - at - 1 {
        assert d[j] == email[at + 1..dot][j];
      } else if j > dot - at - 1 {
        assert d[j] == email[dot + 1..][j - (dot - at)];
      }
    }
    assert d[dot - at - 1] == '.';
  }

  /** The validator accepts exactly the empty string and the strings the pattern matches. */
  lemma EmailValidatorMatchesPattern(email: string)
    ensures IsValidEmail(email) <==> (email == "" || MatchesEmailPattern(email))
  {
    if email != "" {
      if IsValidEmail(email) {
        ValidEmailMatchesPattern(email);
      }
      if MatchesEmailPattern(email) {
        var at, dot :| && 0 < at && at + 1 < dot && dot + 1 < |email|
                       && email[at] == '@' && email[dot] == '.'
                       && AllEmailChars(email[..at]) && AllEmailChars(email[at + 1..dot]) && AllEmailChars(email[dot + 1..]);
        PatternMatchIsValidEmail(email, at, dot);
      }
    }
  }

  /* ---------------- encryption key ---------------- */

  const FALLBACK_KEY_MATERIAL: string := "default-fallback-key-32-chars-long"

  /** `process.env.TOKEN_ENCRYPTION_KEY || 'default-fallback-key-32-chars-long'` */
  function KeyMaterial(env: Option<string>): string {
    if Truthy(env) then env.value else FALLBACK_KEY_MATERIAL
  }

  function LowerHex(s: string): (r: string)
    requires forall i :: 0 <= i < |s| ==> IsHexDigit(s[i])
  {
    seq(|s|, i requires 0 <= i < |s| => LowerDigit(s[i]))
  }

  /**
   * The 32-byte key: 64 hex digits are decoded, anything else is hashed.
   * Decoding a hex key loses nothing but the case of its digits.
   */
  function DeriveKey(material: string): (key: Key)
    ensures IsHexString(material, 64) ==> Hex.Encode(key) == LowerHex(material)
    ensures !IsHexString(material, 64) ==> key == Sha256(material)
  {
    if IsHexString(material, 64) then
      EncodeDecodeHexString(material, 32);
      DecodeLenient(material)
    else
      Sha256(material)
  }

  /** `getEncryptionKey()` of models/User.ts. */
  function EncryptionKey(env: Option<string>): Key {
    DeriveKey(KeyMaterial(env))
  }

  /** Without a configured key the fallback passphrase is hashed: it is 34 characters, not 64 hex digits. */
  lemma FallbackKeyIsHashed(env: Option<string>)
    requires !Truthy(env)
    ensures EncryptionKey(env) == Sha256(FALLBACK_KEY_MATERIAL)
  {
    assert |FALLBACK_KEY_MATERIAL| == 34;
  }

  /* ---------------- token format ---------------- */

  datatype DecryptError =
    | NoEncryptedToken        // 'No encrypted token found'
    | NoEncryptedPageToken    // 'No encrypted token found for page …'
    | InvalidIv               // createDecipheriv: the IV half does not decode to 16 bytes
    | MissingCiphertext       // no ':' in the stored string
    | OddLengthCiphertext     // decipher.update refuses 'hex' input of odd length
    | BadDecrypt              // wrong final block length or bad padding

  /** The stored form of an encrypted token: `hex(iv) + ':' + hex(ciphertext)`. */
  function EncryptToken(key: Key, iv: Iv, token: string): (stored: string)
    ensures |stored| > 2 * IV_LENGTH + 1
    ensures IsHexString(stored[..2 * IV_LENGTH], 2 * IV_LENGTH) && stored[2 * IV_LENGTH] == ':'
    ensures ':' !in stored[2 * IV_LENGTH + 1..]
  {
    var ivHex := Hex.Encode(iv);
    var ctHex := Hex.Encode(Seal(key, iv, token));
    var stored := ivHex + ":" + ctHex;
    assert stored[..2 * IV_LENGTH] == ivHex;
    assert stored[2 * IV_LENGTH + 1..] == ctHex;
    assert ':' !in ctHex by {
      forall j | 0 <= j < |ctHex| ensures ctHex[j] != ':' { assert IsLowerHexDigit(ctHex[j]); }
    }
    stored
  }

  /**
   * What both decrypt methods do once the stored string is known to be
   * non-empty: split at ':', hex-decode the IV (leniently, as
   * `Buffer.from` does), then decipher the second field, which
   * `decipher.update(…, 'hex', …)` refuses when its length is odd.
   */
  function DecipherStored(key: Key, stored: string): (r: Result<string, DecryptError>)
    ensures r.Success? ==> ':' in stored && |DecodeLenient(FirstField(stored, ':'))| == IV_LENGTH
    ensures r.Success? ==> SecondField(stored, ':').Some? && |SecondField(stored, ':').value| % 2 == 0
    ensures SecondField(stored, ':').Some? && |SecondField(stored, ':').value| % 2 == 1 ==> r.Failure?
  {
    var iv := DecodeLenient(FirstField(stored, ':'));
    if |iv| != IV_LENGTH then Failure(InvalidIv)
    else
      match SecondField(stored, ':')
      case None => Failure(MissingCiphertext)
      case Some(ctHex) =>
        if |ctHex| % 2 != 0 then Failure(OddLengthCiphertext)
        else
          match Open(key, iv, DecodeLenient(ctHex))
          case None => Failure(BadDecrypt)
          case Some(plaintext) => Success(plaintext)
  }

  /** `getDecryptedToken()` on a stored `encryptedAccessToken`. */
  function DecryptToken(key: Key, stored: string): (r: Result<string, DecryptError>)
    ensures stored == "" <==> r == Failure(NoEncryptedToken)
    ensures ':' !in stored ==> r.Failure?
    ensures SecondField(stored, ':').Some? && |SecondField(stored, ':').value| % 2 == 1 ==> r.Failure?
  {
    if stored == "" then Failure(NoEncryptedToken) else DecipherStored(key, stored)
  }

  /** `getDecryptedToken()` after `setEncryptedToken(t)` returns `t`, whatever the IV. */
  lemma TokenRoundTrip(key: Key, iv: Iv, token: string)
    ensures DecryptToken(key, EncryptToken(key, iv, token)) == Success(token)
  {
    var ct := Seal(key, iv, token);
    assert EncryptToken(key, iv, token) == Hex.Encode(iv) + ":" + Hex.Encode(ct);
    DecipherEncoded(key, iv, ct);
    OpenSeal(key, iv, token);
  }

  /** Hex digits never include the separator. */
  lemma NoColonInHex(bs: seq<byte>)
    ensures ':' !in Hex.Encode(bs)
  {
    var h := Hex.Encode(bs);
    forall j | 0 <= j < |h| ensures h[j] != ':' { assert IsLowerHexDigit(h[j]); }
  }

  /** `split(':')` of `hex(iv) + ':' + hex(ct)` gives back the two hex strings. */
  lemma SplitEncoded(iv: seq<byte>, ct: seq<byte>)
    ensures FirstField(Hex.Encode(iv) + ":" + Hex.Encode(ct), ':') == Hex.Encode(iv)
    ensures SecondField(Hex.Encode(iv) + ":" + Hex.Encode(ct), ':') == Some(Hex.Encode(ct))
  {
    var ctHex := Hex.Encode(ct);
    NoColonInHex(iv);
    NoColonInHex(ct);
    FieldsOfJoin(Hex.Encode(iv), ':', ctHex);
    assert FirstField(ctHex, ':') == ctHex;
  }

  /** Splitting `hex(iv) + ':' + hex(ct)` gives back `iv` and an even-length `hex(ct)`, so only `Open` can fail. */
  lemma DecipherEncoded(key: Key, iv: Iv, ct: seq<byte>)
    ensures Open(key, iv, ct).Some? ==> DecipherStored(key, Hex.Encode(iv) + ":" + Hex.Encode(ct)) == Success(Open(key, iv, ct).value)
    ensures Open(key, iv, ct).None? ==> DecipherStored(key, Hex.Encode(iv) + ":" + Hex.Encode(ct)) == Failure(BadDecrypt)
  {
    SplitEncoded(iv, ct);
    DecodeEncode(iv);
    DecodeEncode(ct);
    assert |Hex.Encode(ct)| % 2 == 0;
  }

  /** A fresh IV per call: two encryptions under different IVs never produce the same stored string. */
  lemma DistinctIvsGiveDistinctTokens(key: Key, iv1: Iv, iv2: Iv, t1: string, t2: string)
    requires iv1 != iv2
    ensures EncryptToken(key, iv1, t1) != EncryptToken(key, iv2, t2)
  {
    var s1, s2 := EncryptToken(key, iv1, t1), EncryptToken(key, iv2, t2);
    if s1 == s2 {
      assert s1[..2 * IV_LENGTH] == Hex.Encode(iv1);
      assert s2[..2 * IV_LENGTH] == Hex.Encode(iv2);
      EncodeInjective(iv1, iv2);
    }
  }

  /* ---------------- expiry ---------------- */

  /** `isTokenExpired()`: strictly past `tokenExpiry`. */
  predicate IsTokenExpired(r: UserRecord, now: Time) {
    now > r.tokenExpiry
  }

  /** `needsTokenRefresh()`: `tokenExpiry` is before seven days from now. */
  predicate NeedsTokenRefresh(r: UserRecord, now: Time) {
    r.tokenExpiry < now + REFRESH_THRESHOLD_DAYS * DAY_MS
  }

  /** An expired token always needs a refresh; a token expiring exactly now is neither expired nor fresh. */
  lemma ExpiredNeedsRefresh(r: UserRecord, now: Time)
    ensures IsTokenExpired(r, now) ==> NeedsTokenRefresh(r, now)
    ensures r.tokenExpiry == now ==> !IsTokenExpired(r, now) && NeedsTokenRefresh(r, now)
  {
  }

  /** A token stored at `t` with the 60-day lifetime needs no refresh for its first 53 days. */
  lemma FreshTokenWindow(r: UserRecord, t: Time, now: Time)
    requires r.tokenExpiry == t + TOKEN_LIFETIME_DAYS * DAY_MS
    ensures t <= now <= t + 53 * DAY_MS ==> !NeedsTokenRefresh(r, now) && !IsTokenExpired(r, now)
    ensures now > t + 53 * DAY_MS ==> NeedsTokenRefresh(r, now)
  {
  }

  /* ---------------- pages ---------------- */

  /** `pages.some(p => p.pageId === pageId)` */
  predicate HasPage(pages: seq<Page>, pageId: string) {
    exists j :: 0 <= j < |pages| && pages[j].pageId == pageId
  }

  /** The index `pages.find(p => p.pageId === pageId)` stops at; `|pages|` when it finds nothing. */
  function FindPageIndex(pages: seq<Page>, pageId: string): (i: nat)
    ensures i <= |pages|
    ensures i < |pages| ==> pages[i].pageId == pageId
    ensures forall j :: 0 <= j < i ==> pages[j].pageId != pageId
    ensures i == |pages| <==> !HasPage(pages, pageId)
  {
    if pages == [] then 0
    else if pages[0].pageId == pageId then 0
    else 1 + FindPageIndex(pages[1..], pageId)
  }

  /** `pages.find(p => p.pageId === pageId)`: the first page with that id. */
  function FindPage(pages: seq<Page>, pageId: string): (p: Option<Page>)
    ensures p.Some? <==> HasPage(pages, pageId)
    ensures p.Some? ==> p.value.pageId == pageId && p.value in pages
  {
    var i := FindPageIndex(pages, pageId);
    if i < |pages| then Some(pages[i]) else None
  }

  /**
   * `getActivePage()`: nothing when `activePageId` is unset or empty or there
   * are no pages; otherwise the first page whose id is `activePageId`, if any.
   */
  function GetActivePage(r: UserRecord): (p: Option<Page>)
    ensures p.Some? <==> Truthy(r.activePageId) && HasPage(r.pages, r.activePageId.value)
    ensures p.Some? ==> p.value in r.pages && Some(p.value.pageId) == r.activePageId
    ensures p.Some? ==> p == FindPage(r.pages, r.activePageId.value)
  {
    if !Truthy(r.activePageId) || |r.pages| == 0 then None
    else FindPage(r.pages, r.activePageId.value)
  }

  /** The page list after `setEncryptedPageToken(pageId, …)` stores `stored` in the first matching page. */
  function SetPageToken(pages: seq<Page>, pageId: string, stored: string): (ps: seq<Page>)
    ensures |ps| == |pages|
    ensures !HasPage(pages, pageId) ==> ps == pages
    ensures forall j :: 0 <= j < |pages| && j != FindPageIndex(pages, pageId) ==> ps[j] == pages[j]
    ensures HasPage(pages, pageId) ==>
      var i := FindPageIndex(pages, pageId);
      ps[i] == pages[i].(encryptedPageToken := stored)
  {
    var i := FindPageIndex(pages, pageId);
    if i == |pages| then pages else pages[i := pages[i].(encryptedPageToken := stored)]
  }

  /** `getDecryptedPageToken(pageId)`: fails for an unknown page or an empty page token. */
  function DecryptPageToken(key: Key, pages: seq<Page>, pageId: string): (r: Result<string, DecryptError>)
    ensures !HasPage(pages, pageId) ==> r == Failure(NoEncryptedPageToken)
    ensures HasPage(pages, pageId) && FindPage(pages, pageId).value.encryptedPageToken == "" ==> r == Failure(NoEncryptedPageToken)
    ensures r.Success? ==> HasPage(pages, pageId) && r == DecipherStored(key, FindPage(pages, pageId).value.encryptedPageToken)
  {
    match FindPage(pages, pageId)
    case None => Failure(NoEncryptedPageToken)
    case Some(page) =>
      if page.encryptedPageToken == "" then Failure(NoEncryptedPageToken)
      else DecipherStored(key, page.encryptedPageToken)
  }

  /** Setting a page token and reading it back gives the token, for a page the user has. */
  lemma PageTokenRoundTrip(key: Key, iv: Iv, pages: seq<Page>, pageId: string, token: string)
    requires HasPage(pages, pageId)
    ensures DecryptPageToken(key, SetPageToken(pages, pageId, EncryptToken(key, iv, token)), pageId) == Success(token)
  {
    var stored := EncryptToken(key, iv, token);
    var ps := SetPageToken(pages, pageId, stored);
    var i := FindPageIndex(pages, pageId);
    assert ps[i].pageId == pageId;
    assert FindPageIndex(ps, pageId) == i by {
      forall j | 0 <= j < i ensures ps[j].pageId != pageId { assert ps[j] == pages[j]; }
      FindPageIndexUnique(ps, pageId, i);
    }
    TokenRoundTrip(key, iv, token);
  }

  lemma {:induction false} FindPageIndexUnique(pages: seq<Page>, pageId: string, i: nat)
    requires i < |pages| && pages[i].pageId == pageId
    requires forall j :: 0 <= j < i ==> pages[j].pageId != pageId
    ensures FindPageIndex(pages, pageId) == i
  {
    if i > 0 {
      FindPageIndexUnique(pages[1..], pageId, i - 1);
    }
  }
}
