/**
 * lib/token-manager.ts: the token store over the users collection.
 *
 * Each operation is a method that loads a document, assigns its fields and
 * saves it, as the code does, and is specified by a pure function giving the
 * value it returns together with the collection it leaves behind. The lemmas
 * state what the code promises about those functions.
 *
 * The clock is the `now` parameter, the random IV is the `iv` parameter, and
 * the Graph API token exchange is the `exchange` parameter: the new token for
 * a current one, or `None` when the request fails.
 */
module TokenManager {
  import opened Wrappers
  import opened Cipher
  import opened UserSchema
  import opened UserDocuments

  /* ---------------- permissions ---------------- */

  const REQUIRED_PERMISSIONS: seq<string> :=
    ["pages_show_list", "pages_read_engagement", "pages_manage_posts", "instagram_basic", "instagram_content_publish"]

  /** `required.every(p => granted.includes(p))` */
  function IncludesAll(required: seq<string>, granted: seq<string>): (ok: bool)
    ensures ok <==> forall p :: p in required ==> p in granted
  {
    if required == [] then true
    else required[0] in granted && IncludesAll(required[1..], granted)
  }

  /** `validateMetaPermissions`: every one of the five required permissions was granted. */
  function ValidateMetaPermissions(permissions: seq<string>): (ok: bool)
    ensures ok <==> forall p :: p in REQUIRED_PERMISSIONS ==> p in permissions
  {
    IncludesAll(REQUIRED_PERMISSIONS, permissions)
  }

  /** Only membership counts: the order of the granted list and any extra entries do not. */
  lemma PermissionsDependOnMembershipOnly(a: seq<string>, b: seq<string>)
    requires forall p :: p in REQUIRED_PERMISSIONS ==> (p in a <==> p in b)
    ensures ValidateMetaPermissions(a) == ValidateMetaPermissions(b)
  {
  }

  /* ---------------- storeUserToken ---------------- */

  /** The `tokenData` argument of `storeUserToken`. */
  datatype TokenData = TokenData(
    accessToken: string,
    pageId: Option<string>,
    pageName: Option<string>,
    igBusinessId: Option<string>,
    igUsername: Option<string>,
    userName: Option<string>,
    email: Option<string>,
    metaUserId: Option<string>,
    permissions: Option<seq<string>>)

  /** `save()` threw a validation error (or a duplicate key). */
  datatype StoreError = SaveRejected

  /** `tokenData.permissions || []`: an array is truthy even when empty. */
  function PermissionsOrEmpty(permissions: Option<seq<string>>): seq<string> {
    if permissions.Some? then permissions.value else []
  }

  function TokenExpiryFrom(now: Time): Time {
    now + TOKEN_LIFETIME_DAYS * DAY_MS
  }

  /** The existing record after the assignments of `storeUserToken`, before the token is set. */
  function WithTokenData(r: UserRecord, data: TokenData, now: Time): UserRecord {
    r.(userName := data.userName, email := data.email, pageId := data.pageId, pageName := data.pageName,
       igBusinessId := data.igBusinessId, igUsername := data.igUsername, metaUserId := data.metaUserId,
       permissions := PermissionsOrEmpty(data.permissions), tokenExpiry := TokenExpiryFrom(now),
       tokenRefreshedAt := Some(now), isActive := true, lastActivity := now)
  }

  /**
   * `new User({...})` in `storeUserToken`, with the schema defaults for what
   * it does not pass (an empty token and no pages); the timestamps are set by
   * the save.
   */
  function NewUserRecord(userId: string, data: TokenData, now: Time): UserRecord {
    UserRecord(
      userId := userId, metaUserId := data.metaUserId, userName := data.userName, email := data.email,
      encryptedAccessToken := "", tokenExpiry := TokenExpiryFrom(now), tokenRefreshedAt := Some(now),
      pageId := data.pageId, pageName := data.pageName, igBusinessId := data.igBusinessId, igUsername := data.igUsername,
      permissions := PermissionsOrEmpty(data.permissions), pages := [], activePageId := None,
      lastActivity := now, isActive := true, dataRetentionConsent := Some(now), createdAt := now, updatedAt := now)
  }

  function StoreUserTokenSpec(users: map<string, UserRecord>, userId: string, data: TokenData, key: Key, iv: Iv, now: Time)
    : Outcome<Result<UserRecord, StoreError>>
  {
    var isNew := userId !in users;
    var loaded := if isNew then NewUserRecord(userId, data, now) else users[userId];
    var updated := if isNew then loaded else WithTokenData(loaded, data, now);
    var current := updated.(encryptedAccessToken := EncryptToken(key, iv, data.accessToken));
    if PassesValidation(current) then
      var saved := Saved(loaded, current, isNew, now);
      Outcome(Success(saved), users[userId := saved])
    else
      Outcome(Failure(SaveRejected), users)
  }

  /**
   * After `storeUserToken` the record under `userId` is active, expires 60
   * days from now, was refreshed now, holds the given permissions (or none)
   * and a token that decrypts to the supplied one. A new record also gets the
   * consent date and no pages; an existing one keeps its pages and creation
   * date. On a collection of validated records it fails exactly when the
   * supplied email is rejected or `userId` is empty, and then nothing is
   * written.
   */
  lemma StoreUserTokenProperties(users: map<string, UserRecord>, userId: string, data: TokenData, key: Key, iv: Iv, now: Time)
    requires KeyedByUserId(users) && StoredRecordsValid(users)
    ensures var o := StoreUserTokenSpec(users, userId, data, key, iv, now);
      && (o.result.Success? <==> userId != "" && (data.email.None? || IsValidEmail(data.email.value)))
      && (o.result.Failure? ==> o.users == users)
      && (o.result.Success? ==>
            var u := o.result.value;
            && o.users == users[userId := u] && KeyedByUserId(o.users) && StoredRecordsValid(o.users)
            && u.userId == userId && u.isActive
            && u.tokenExpiry == now + TOKEN_LIFETIME_DAYS * DAY_MS && u.tokenRefreshedAt == Some(now) && u.lastActivity == now
            && u.permissions == PermissionsOrEmpty(data.permissions) && u.email == data.email && u.pageId == data.pageId
            && DecryptToken(key, u.encryptedAccessToken) == Success(data.accessToken)
            && (userId !in users ==> u.dataRetentionConsent == Some(now) && u.createdAt == now && u.pages == [] && u.activePageId == None)
            && (userId in users ==>
                  u.createdAt == users[userId].createdAt && u.pages == users[userId].pages
                  && u.activePageId == users[userId].activePageId))
  {
    TokenRoundTrip(key, iv, data.accessToken);
  }

  /** `storeUserToken(userId, tokenData)`, returning the stored record (what `findById` reads back). */
  method StoreUserToken(coll: UserCollection, userId: string, data: TokenData, key: Key, iv: Iv, now: Time)
      returns (r: Result<UserRecord, StoreError>)
    requires coll.Valid()
    modifies coll
    ensures coll.Valid()
    ensures r == StoreUserTokenSpec(old(coll.users), userId, data, key, iv, now).result
    ensures coll.users == StoreUserTokenSpec(old(coll.users), userId, data, key, iv, now).users
  {
    var doc: UserDocument;
    if userId in coll.users {
      doc := new UserDocument.Hydrate(coll.users[userId]);
      doc.fields := doc.fields.(userName := data.userName, email := data.email, pageId := data.pageId,
        pageName := data.pageName, igBusinessId := data.igBusinessId, igUsername := data.igUsername,
        metaUserId := data.metaUserId, permissions := PermissionsOrEmpty(data.permissions),
        tokenExpiry := TokenExpiryFrom(now), tokenRefreshedAt := Some(now), isActive := true, lastActivity := now);
    } else {
      doc := new UserDocument.Create(NewUserRecord(userId, data, now));
    }
    doc.SetEncryptedToken(key, iv, data.accessToken);
    var ok := coll.Save(doc, now);
    if ok {
      r := Success(coll.users[userId]);
    } else {
      r := Failure(SaveRejected);
    }
  }

  /* ---------------- getUserToken ---------------- */

  /** `findOne({ userId, isActive: true })` finds a record. */
  predicate HasActive(users: map<string, UserRecord>, userId: string) {
    userId in users && users[userId].isActive
  }

  /** A found record whose token has expired is saved as inactive (for the audit trail). */
  function Deactivated(r: UserRecord, now: Time): UserRecord {
    Saved(r, r.(isActive := false), false, now)
  }

  /** A found record with a live token is saved with `lastActivity` set to now. */
  function Touched(r: UserRecord, now: Time): UserRecord {
    Saved(r, r.(lastActivity := now), false, now)
  }

  function GetUserTokenSpec(users: map<string, UserRecord>, userId: string, now: Time): Outcome<Option<UserRecord>> {
    if !HasActive(users, userId) then Outcome(None, users)
    else
      var r := users[userId];
      if IsTokenExpired(r, now) then Outcome(None, users[userId := Deactivated(r, now)])
      else Outcome(Some(Touched(r, now)), users[userId := Touched(r, now)])
  }

  /**
   * `getUserToken` returns a record exactly when an active one with a live
   * token exists; it then holds `lastActivity = now` and is what was stored.
   * An expired one is left inactive, stamped now. No other record changes
   * and nothing is deleted.
   */
  lemma GetUserTokenProperties(users: map<string, UserRecord>, userId: string, now: Time)
    ensures var o := GetUserTokenSpec(users, userId, now);
      && o.users.Keys == users.Keys
      && (forall id :: id in users && id != userId ==> o.users[id] == users[id])
      && (o.result.Some? <==> HasActive(users, userId) && !IsTokenExpired(users[userId], now))
      && (o.result.Some? ==>
            && o.users[userId] == o.result.value && o.result.value.isActive && o.result.value.lastActivity == now
            && o.result.value.encryptedAccessToken == users[userId].encryptedAccessToken
            && o.result.value.tokenExpiry == users[userId].tokenExpiry)
      && (HasActive(users, userId) && IsTokenExpired(users[userId], now) ==>
            !o.users[userId].isActive && o.users[userId].lastActivity == now)
      && (!HasActive(users, userId) ==> o.users == users)
  {
  }

  /** `getUserToken(userId)` */
  method GetUserToken(coll: UserCollection, userId: string, now: Time) returns (user: Option<UserRecord>)
    requires coll.Valid()
    modifies coll
    ensures coll.Valid()
    ensures user == GetUserTokenSpec(old(coll.users), userId, now).result
    ensures coll.users == GetUserTokenSpec(old(coll.users), userId, now).users
  {
    if userId !in coll.users || !coll.users[userId].isActive {
      return None;
    }
    var doc := new UserDocument.Hydrate(coll.users[userId]);
    if IsTokenExpired(doc.fields, now) {
      doc.fields := doc.fields.(isActive := false);
      var _ := coll.Save(doc, now);
      return None;
    }
    doc.fields := doc.fields.(lastActivity := now);
    var _ := coll.Save(doc, now);
    return Some(doc.fields);
  }

  /* ---------------- getUserByEmail ---------------- */

  /** The record under `id` is one `findOne({ email, isActive: true })` may return. */
  predicate MatchesEmail(users: map<string, UserRecord>, email: string, id: string) {
    id in users && users[id].isActive && users[id].email == Some(email)
  }

  datatype UserWithToken = UserWithToken(user: UserRecord, accessToken: string)

  /** `getUserByEmail` once `findOne` has returned the record under `id`. */
  function GetUserByEmailSpec(users: map<string, UserRecord>, id: string, key: Key, now: Time): Outcome<Option<UserWithToken>>
    requires id in users
  {
    var r := users[id];
    if IsTokenExpired(r, now) then Outcome(None, users[id := Deactivated(r, now)])
    else
      match DecryptToken(key, r.encryptedAccessToken)
      case Failure(_) => Outcome(None, users)
      case Success(token) => Outcome(Some(UserWithToken(Touched(r, now), token)), users[id := Touched(r, now)])
  }

  /**
   * `getUserByEmail` flips an expired record to inactive like `getUserToken`;
   * a token that does not decrypt gives `null` with nothing written (the
   * record stays active and its `lastActivity` is not bumped); otherwise it
   * returns the record, touched now, with its decrypted token.
   */
  lemma GetUserByEmailProperties(users: map<string, UserRecord>, id: string, key: Key, now: Time)
    requires id in users && users[id].isActive
    ensures var o := GetUserByEmailSpec(users, id, key, now);
      && (IsTokenExpired(users[id], now) ==> o.result.None? && !o.users[id].isActive && o.users[id].lastActivity == now)
      && (!IsTokenExpired(users[id], now) && DecryptToken(key, users[id].encryptedAccessToken).Failure? ==>
            o.result.None? && o.users == users)
      && (o.result.Some? ==>
            && !IsTokenExpired(users[id], now)
            && DecryptToken(key, users[id].encryptedAccessToken) == Success(o.result.value.accessToken)
            && DecryptToken(key, o.result.value.user.encryptedAccessToken) == Success(o.result.value.accessToken)
            && o.users == users[id := o.result.value.user] && o.result.value.user.lastActivity == now)
  {
  }

  /** `getUserByEmail(email)`; when several active records share the email, any one of them may be found. */
  method GetUserByEmail(coll: UserCollection, email: string, key: Key, now: Time) returns (found: Option<UserWithToken>)
    requires coll.Valid()
    modifies coll
    ensures coll.Valid()
    ensures (forall id :: !MatchesEmail(old(coll.users), email, id)) ==> found.None? && coll.users == old(coll.users)
    ensures (exists id :: MatchesEmail(old(coll.users), email, id)) ==>
      exists id :: MatchesEmail(old(coll.users), email, id)
        && found == GetUserByEmailSpec(old(coll.users), id, key, now).result
        && coll.users == GetUserByEmailSpec(old(coll.users), id, key, now).users
  {
    if !exists id :: id in coll.users && MatchesEmail(coll.users, email, id) {
      return None;
    }
    var id :| id in coll.users && MatchesEmail(coll.users, email, id);
    ghost var users := coll.users;
    var doc := new UserDocument.Hydrate(coll.users[id]);
    if IsTokenExpired(doc.fields, now) {
      doc.fields := doc.fields.(isActive := false);
      var _ := coll.Save(doc, now);
      assert MatchesEmail(users, email, id) && coll.users == GetUserByEmailSpec(users, id, key, now).users;
      return None;
    }
    var decrypted := DecryptToken(key, doc.fields.encryptedAccessToken);
    if decrypted.Failure? {
      assert MatchesEmail(users, email, id) && coll.users == GetUserByEmailSpec(users, id, key, now).users;
      return None;
    }
    doc.fields := doc.fields.(lastActivity := now);
    var _ := coll.Save(doc, now);
    found := Some(UserWithToken(doc.fields, decrypted.value));
    assert MatchesEmail(users, email, id) && coll.users == GetUserByEmailSpec(users, id, key, now).users;
  }

  /* ---------------- refreshUserToken ---------------- */

  /** The new token, or `None` when decrypting the current one throws or the exchange fails. */
  function ExchangedToken(r: UserRecord, key: Key, exchange: string -> Option<string>): Option<string> {
    match DecryptToken(key, r.encryptedAccessToken)
    case Failure(_) => None
    case Success(current) => exchange(current)
  }

  /** The record after a successful refresh, before the save. */
  function WithNewToken(r: UserRecord, key: Key, iv: Iv, newToken: string, now: Time): UserRecord {
    r.(encryptedAccessToken := EncryptToken(key, iv, newToken), tokenExpiry := TokenExpiryFrom(now),
       tokenRefreshedAt := Some(now), lastActivity := now)
  }

  function RefreshUserTokenSpec(users: map<string, UserRecord>, userId: string, key: Key, iv: Iv,
                                exchange: string -> Option<string>, now: Time): Outcome<Option<UserRecord>>
  {
    if !HasActive(users, userId) then Outcome(None, users)
    else
      var r := users[userId];
      match ExchangedToken(r, key, exchange)
      case None => Outcome(None, users[userId := Deactivated(r, now)])
      case Some(newToken) =>
        var saved := Saved(r, WithNewToken(r, key, iv, newToken, now), false, now);
        Outcome(Some(saved), users[userId := saved])
  }

  /**
   * A successful refresh stores a token that decrypts to the exchanged one
   * and expires 60 days from now; a failed decrypt or exchange leaves the
   * record inactive and returns `null`. A refreshed token does not need
   * refreshing again at once.
   */
  lemma RefreshUserTokenProperties(users: map<string, UserRecord>, userId: string, key: Key, iv: Iv,
                                   exchange: string -> Option<string>, now: Time)
    ensures var o := RefreshUserTokenSpec(users, userId, key, iv, exchange, now);
      && o.users.Keys == users.Keys
      && (!HasActive(users, userId) ==> o.result.None? && o.users == users)
      && (HasActive(users, userId) && ExchangedToken(users[userId], key, exchange).None? ==>
            o.result.None? && !o.users[userId].isActive && o.users[userId].lastActivity == now)
      && (HasActive(users, userId) && ExchangedToken(users[userId], key, exchange).Some? ==>
            && o.result.Some? && o.users[userId] == o.result.value && o.result.value.isActive
            && DecryptToken(key, o.result.value.encryptedAccessToken) == Success(ExchangedToken(users[userId], key, exchange).value)
            && o.result.value.tokenExpiry == now + TOKEN_LIFETIME_DAYS * DAY_MS
            && o.result.value.tokenRefreshedAt == Some(now) && o.result.value.lastActivity == now
            && !NeedsTokenRefresh(o.result.value, now))
  {
    if HasActive(users, userId) {
      match ExchangedToken(users[userId], key, exchange)
      case None =>
      case Some(newToken) => TokenRoundTrip(key, iv, newToken);
    }
  }

  /** `refreshUserToken(userId)` */
  method RefreshUserToken(coll: UserCollection, userId: string, key: Key, iv: Iv,
                          exchange: string -> Option<string>, now: Time) returns (user: Option<UserRecord>)
    requires coll.Valid()
    modifies coll
    ensures coll.Valid()
    ensures user == RefreshUserTokenSpec(old(coll.users), userId, key, iv, exchange, now).result
    ensures coll.users == RefreshUserTokenSpec(old(coll.users), userId, key, iv, exchange, now).users
  {
    if userId !in coll.users || !coll.users[userId].isActive {
      return None;
    }
    var doc := new UserDocument.Hydrate(coll.users[userId]);
    var current := DecryptToken(key, doc.fields.encryptedAccessToken);
    var response := if current.Success? then exchange(current.value) else None;
    if response.None? {
      doc.fields := doc.fields.(isActive := false);
      var _ := coll.Save(doc, now);
      return None;
    }
    doc.SetEncryptedToken(key, iv, response.value);
    doc.fields := doc.fields.(tokenExpiry := TokenExpiryFrom(now), tokenRefreshedAt := Some(now), lastActivity := now);
    var _ := coll.Save(doc, now);
    return Some(coll.users[userId]);
  }

  /* ---------------- getValidToken, getDecryptedAccessToken ---------------- */

  function GetValidTokenSpec(users: map<string, UserRecord>, userId: string, key: Key, iv: Iv,
                             exchange: string -> Option<string>, now: Time): Outcome<Option<UserRecord>>
  {
    var looked := GetUserTokenSpec(users, userId, now);
    match looked.result
    case None => looked
    case Some(u) =>
      if NeedsTokenRefresh(u, now) then RefreshUserTokenSpec(looked.users, userId, key, iv, exchange, now)
      else looked
  }

  /**
   * `getValidToken` refreshes only a token within 7 days of expiry, returns
   * `null` when the lookup does or the refresh fails, and otherwise returns
   * the stored, active record, whose token then has more than 7 days left.
   */
  lemma GetValidTokenProperties(users: map<string, UserRecord>, userId: string, key: Key, iv: Iv,
                                exchange: string -> Option<string>, now: Time)
    ensures var looked := GetUserTokenSpec(users, userId, now);
      var o := GetValidTokenSpec(users, userId, key, iv, exchange, now);
      && o.users.Keys == users.Keys
      && (looked.result.None? ==> o == looked)
      && (looked.result.Some? && !NeedsTokenRefresh(users[userId], now) ==> o == looked)
      && (looked.result.Some? && NeedsTokenRefresh(users[userId], now) ==>
            o == RefreshUserTokenSpec(looked.users, userId, key, iv, exchange, now))
      && (o.result.Some? ==>
            && userId in o.users && o.users[userId] == o.result.value && o.result.value.isActive
            && !NeedsTokenRefresh(o.result.value, now) && !IsTokenExpired(o.result.value, now))
  {
    GetUserTokenProperties(users, userId, now);
    var looked := GetUserTokenSpec(users, userId, now);
    if looked.result.Some? {
      RefreshUserTokenProperties(looked.users, userId, key, iv, exchange, now);
      ExpiredNeedsRefresh(looked.result.value, now);
      assert looked.result.value.tokenExpiry == users[userId].tokenExpiry;
    }
  }

  /** `getValidToken(userId)` */
  method GetValidToken(coll: UserCollection, userId: string, key: Key, iv: Iv,
                       exchange: string -> Option<string>, now: Time) returns (user: Option<UserRecord>)
    requires coll.Valid()
    modifies coll
    ensures coll.Valid()
    ensures user == GetValidTokenSpec(old(coll.users), userId, key, iv, exchange, now).result
    ensures coll.users == GetValidTokenSpec(old(coll.users), userId, key, iv, exchange, now).users
  {
    user := GetUserToken(coll, userId, now);
    if user.None? {
      return None;
    }
    if NeedsTokenRefresh(user.value, now) {
      user := RefreshUserToken(coll, userId, key, iv, exchange, now);
    }
  }

  function GetDecryptedAccessTokenSpec(users: map<string, UserRecord>, userId: string, key: Key, iv: Iv,
                                       exchange: string -> Option<string>, now: Time): Outcome<Option<string>>
  {
    var valid := GetValidTokenSpec(users, userId, key, iv, exchange, now);
    if valid.result.None? || userId !in valid.users then Outcome(None, valid.users)
    else
      match DecryptToken(key, valid.users[userId].encryptedAccessToken)
      case Success(token) => Outcome(Some(token), valid.users)
      case Failure(_) => Outcome(None, valid.users)
  }

  /**
   * The token `getDecryptedAccessToken` hands out is the one the stored,
   * active record decrypts to, with more than 7 days to live; when a
   * refresh ran, it is the token the exchange returned.
   */
  lemma GetDecryptedAccessTokenProperties(users: map<string, UserRecord>, userId: string, key: Key, iv: Iv,
                                          exchange: string -> Option<string>, now: Time)
    ensures var o := GetDecryptedAccessTokenSpec(users, userId, key, iv, exchange, now);
      var looked := GetUserTokenSpec(users, userId, now);
      && o.users == GetValidTokenSpec(users, userId, key, iv, exchange, now).users
      && (o.result.Some? ==>
            && userId in o.users && o.users[userId].isActive && !NeedsTokenRefresh(o.users[userId], now)
            && DecryptToken(key, o.users[userId].encryptedAccessToken) == Success(o.result.value))
      && (looked.result.Some? && NeedsTokenRefresh(users[userId], now)
          && ExchangedToken(looked.users[userId], key, exchange).Some? ==>
            o.result == ExchangedToken(looked.users[userId], key, exchange))
  {
    GetValidTokenProperties(users, userId, key, iv, exchange, now);
    var looked := GetUserTokenSpec(users, userId, now);
    if looked.result.Some? && NeedsTokenRefresh(users[userId], now) {
      RefreshUserTokenProperties(looked.users, userId, key, iv, exchange, now);
    }
  }

  /** `getDecryptedAccessToken(userId)`: `getValidToken`, then the token of the record read back by id. */
  method GetDecryptedAccessToken(coll: UserCollection, userId: string, key: Key, iv: Iv,
                                 exchange: string -> Option<string>, now: Time) returns (token: Option<string>)
    requires coll.Valid()
    modifies coll
    ensures coll.Valid()
    ensures token == GetDecryptedAccessTokenSpec(old(coll.users), userId, key, iv, exchange, now).result
    ensures coll.users == GetDecryptedAccessTokenSpec(old(coll.users), userId, key, iv, exchange, now).users
  {
    var user := GetValidToken(coll, userId, key, iv, exchange, now);
    if user.None? || userId !in coll.users {
      return None;
    }
    var decrypted := DecryptToken(key, coll.users[userId].encryptedAccessToken);
    token := if decrypted.Success? then Some(decrypted.value) else None;
  }

  /* ---------------- deleteUserToken ---------------- */

  /** A soft delete: the record stays, inactive and without a token. */
  function SoftDeleted(r: UserRecord, now: Time): UserRecord {
    Saved(r, r.(isActive := false, encryptedAccessToken := "", lastActivity := now), false, now)
  }

  function DeleteUserTokenSpec(users: map<string, UserRecord>, userId: string, hardDelete: bool, now: Time): Outcome<bool> {
    if hardDelete then Outcome(userId in users, users - {userId})
    else if userId in users then Outcome(true, users[userId := SoftDeleted(users[userId], now)])
    else Outcome(false, users)
  }

  /**
   * A hard delete removes the record and reports whether there was one. A
   * soft delete reports the same but keeps the record, inactive and with an
   * empty token (even one that was already inactive), so that neither
   * `getUserToken` nor the stored token gives access any more.
   */
  lemma DeleteUserTokenProperties(users: map<string, UserRecord>, userId: string, hardDelete: bool, key: Key, now: Time, later: Time)
    ensures var o := DeleteUserTokenSpec(users, userId, hardDelete, now);
      && (o.result <==> userId in users)
      && (forall id :: id in users && id != userId ==> id in o.users && o.users[id] == users[id])
      && (hardDelete ==> userId !in o.users && o.users.Keys == users.Keys - {userId})
      && (!hardDelete ==> o.users.Keys == users.Keys)
      && (!hardDelete && userId in users ==>
            && !o.users[userId].isActive && o.users[userId].encryptedAccessToken == ""
            && o.users[userId].lastActivity == now
            && DecryptToken(key, o.users[userId].encryptedAccessToken) == Failure(NoEncryptedToken))
      && GetUserTokenSpec(o.users, userId, later).result.None?
  {
  }

  /** `deleteUserToken(userId, hardDelete)` */
  method DeleteUserToken(coll: UserCollection, userId: string, hardDelete: bool, now: Time) returns (deleted: bool)
    requires coll.Valid()
    modifies coll
    ensures coll.Valid()
    ensures deleted == DeleteUserTokenSpec(old(coll.users), userId, hardDelete, now).result
    ensures coll.users == DeleteUserTokenSpec(old(coll.users), userId, hardDelete, now).users
  {
    if hardDelete {
      var deletedCount := coll.DeleteOne(userId);
      return deletedCount > 0;
    }
    if userId !in coll.users {
      return false;
    }
    var doc := new UserDocument.Hydrate(coll.users[userId]);
    doc.fields := doc.fields.(isActive := false, encryptedAccessToken := "", lastActivity := now);
    var _ := coll.Save(doc, now);
    return true;
  }

  /* ---------------- performCleanup ---------------- */

  const CLEANUP_INACTIVE_DAYS: nat := 90

  /**
   * `performCleanup()`: expire tokens, then delete records inactive for 90
   * days, reporting both counts. A record the first pass flips is never
   * deleted by the second.
   */
  method PerformCleanup(coll: UserCollection, now: Time) returns (expiredTokens: nat, inactiveUsers: nat)
    requires coll.Valid()
    modifies coll
    ensures coll.Valid()
    ensures var expired := ExpireTokens(old(coll.users), now);
      && coll.users == PurgeInactive(expired, InactivityCutoff(now, CLEANUP_INACTIVE_DAYS))
      && expiredTokens == |ExpiredActiveIds(old(coll.users), now)|
      && inactiveUsers == |StaleInactiveIds(expired, InactivityCutoff(now, CLEANUP_INACTIVE_DAYS))|
      && ExpiredActiveIds(old(coll.users), now) <= coll.users.Keys
  {
    ghost var before := coll.users;
    expiredTokens := coll.CleanupExpiredTokens(now);
    inactiveUsers := coll.CleanupInactiveUsers(now, CLEANUP_INACTIVE_DAYS);
    FlippedRecordsSurvivePurge(before, now, CLEANUP_INACTIVE_DAYS);
  }
}
