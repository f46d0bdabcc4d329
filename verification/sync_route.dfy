/**
 * app/api/user/sync/route.ts: copying a signed-in user's profile into the
 * users collection (POST, an upsert whose insert-only defaults describe a
 * user with no Meta connection yet) and reading it back (GET).
 */
module SyncRoute {
  import opened Wrappers
  import opened JsText
  import opened UserSchema
  import opened UserDocuments
  import opened Http

  /** The profile both handlers reply with; GET adds the legacy page fields. */
  datatype Profile = Profile(
    userId: string,
    email: Option<string>,
    userName: Option<string>,
    isActive: bool,
    hasMetaTokens: bool,
    connected: bool,
    createdAt: Time,
    lastActivity: Time)

  /** `user.isActive && !!user.pageId`: reported both as `hasMetaTokens` and as `connected`. */
  predicate IsConnected(r: UserRecord) {
    r.isActive && Truthy(r.pageId)
  }

  function ProfileOf(r: UserRecord): (p: Profile)
    ensures p.hasMetaTokens == p.connected == IsConnected(r)
  {
    Profile(r.userId, r.email, r.userName, r.isActive, IsConnected(r), IsConnected(r), r.createdAt, r.lastActivity)
  }

  /* ---------------- POST ---------------- */

  /** `userName || email.split('@')[0]` */
  function SyncedUserName(email: string, userName: Option<string>): string {
    if Truthy(userName) then userName.value else FirstField(email, '@')
  }

  /** The default user name of a valid email is its non-empty local part: the email is that name, `@`, the domain. */
  lemma DefaultUserNameIsLocalPart(email: string)
    requires email != "" && IsValidEmail(email)
    ensures var name := SyncedUserName(email, None);
      && name != "" && AllEmailChars(name)
      && exists domain :: email == name + ['@'] + domain && HasInnerDot(domain)
  {
    var at := FirstIndex(email, '@');
    var name := FirstField(email, '@');
    assert name == email[..at];
    var domain := email[at + 1..];
    assert email == name + ['@'] + domain;
  }

  /** The fields the update sets on every call. */
  function WithProfile(r: UserRecord, email: string, userName: Option<string>, now: Time): UserRecord {
    r.(email := Some(email), userName := Some(SyncedUserName(email, userName)), lastActivity := now, updatedAt := now)
  }

  /**
   * The record an upsert inserts: the query's `userId`, the update's fields,
   * the `$setOnInsert` defaults (no token, inactive, no permissions, expiry
   * 60 days ahead, consent now) and the schema defaults for the rest.
   */
  function InsertedProfile(userId: string, email: string, userName: Option<string>, now: Time): UserRecord {
    UserRecord(
      userId := userId, metaUserId := None, userName := Some(SyncedUserName(email, userName)), email := Some(email),
      encryptedAccessToken := "", tokenExpiry := now + 60 * DAY_MS, tokenRefreshedAt := Some(now),
      pageId := None, pageName := None, igBusinessId := None, igUsername := None,
      permissions := [], pages := [], activePageId := None,
      lastActivity := now, isActive := false, dataRetentionConsent := Some(now), createdAt := now, updatedAt := now)
  }

  function SyncSpec(users: map<string, UserRecord>, userId: Option<string>, email: Option<string>, userName: Option<string>, now: Time)
    : Outcome<Response<Profile>>
  {
    if !Truthy(userId) || !Truthy(email) then Outcome(Fail(400, "User ID and email required"), users)
    else if !IsValidEmail(email.value) then Outcome(Fail(500, "Failed to sync user profile"), users)
    else
      var id := userId.value;
      var stored := if id in users then WithProfile(users[id], email.value, userName, now)
                    else InsertedProfile(id, email.value, userName, now);
      Outcome(Ok(ProfileOf(stored)), users[id := stored])
  }

  /**
   * A sync without both ids is refused and one with an email the validator
   * rejects fails, writing nothing. Otherwise exactly one record holds the
   * `userId` afterwards, with the email, the user name (or the email's local
   * part) and `lastActivity = now`. A new record is a user with no Meta
   * connection yet; an existing one keeps its token, expiry, activity flag,
   * permissions, pages and legacy page fields.
   */
  lemma SyncProperties(users: map<string, UserRecord>, userId: Option<string>, email: Option<string>, userName: Option<string>, now: Time)
    requires KeyedByUserId(users) && StoredRecordsValid(users)
    ensures var o := SyncSpec(users, userId, email, userName, now);
      && ((!Truthy(userId) || !Truthy(email)) ==> o.result == Fail(400, "User ID and email required"))
      && (o.result.Fail? ==> o.users == users)
      && (o.result.Ok? <==> Truthy(userId) && Truthy(email) && IsValidEmail(email.value))
      && (o.result.Ok? ==>
            var id := userId.value;
            var s := o.users[id];
            && KeyedByUserId(o.users) && StoredRecordsValid(o.users) && o.users.Keys == users.Keys + {id} && o.users == users[id := s]
            && s.email == email && s.userName == Some(SyncedUserName(email.value, userName)) && s.lastActivity == now
            && o.result.body == ProfileOf(s)
            && (id !in users ==>
                  && s.encryptedAccessToken == "" && !s.isActive && s.permissions == [] && s.pages == []
                  && s.tokenExpiry == now + 60 * DAY_MS && s.dataRetentionConsent == Some(now) && s.createdAt == now
                  && !o.result.body.hasMetaTokens)
            && (id in users ==>
                  var r := users[id];
                  && s.encryptedAccessToken == r.encryptedAccessToken && s.tokenExpiry == r.tokenExpiry
                  && s.isActive == r.isActive && s.permissions == r.permissions && s.pages == r.pages
                  && s.activePageId == r.activePageId && s.pageId == r.pageId && s.pageName == r.pageName
                  && s.igBusinessId == r.igBusinessId && s.igUsername == r.igUsername && s.createdAt == r.createdAt
                  && o.result.body.hasMetaTokens == IsConnected(r)))
  {
  }

  /** POST `{ userId, email, userName }`: `findOneAndUpdate({ userId }, …, { upsert: true, new: true, runValidators: true })`. */
  method Sync(coll: UserCollection, userId: Option<string>, email: Option<string>, userName: Option<string>, now: Time)
      returns (response: Response<Profile>)
    requires coll.Valid()
    modifies coll
    ensures coll.Valid()
    ensures response == SyncSpec(old(coll.users), userId, email, userName, now).result
    ensures coll.users == SyncSpec(old(coll.users), userId, email, userName, now).users
  {
    if !Truthy(userId) || !Truthy(email) {
      return Fail(400, "User ID and email required");
    }
    if !IsValidEmail(email.value) {
      return Fail(500, "Failed to sync user profile");
    }
    var id := userId.value;
    var user: UserRecord;
    if id in coll.users {
      user := coll.users[id].(email := Some(email.value), userName := Some(SyncedUserName(email.value, userName)),
                              lastActivity := now, updatedAt := now);
    } else {
      user := InsertedProfile(id, email.value, userName, now);
    }
    coll.users := coll.users[id := user];
    response := Ok(ProfileOf(user));
  }

  /* ---------------- GET ---------------- */

  /** The GET profile: the POST profile plus the legacy page fields, each `null` when unset or empty. */
  datatype StoredProfile = StoredProfile(
    profile: Profile,
    pageId: Option<string>,
    pageName: Option<string>,
    igBusinessId: Option<string>,
    igUsername: Option<string>)

  /** `value || null` */
  function OrNull(v: Option<string>): (r: Option<string>)
    ensures r.Some? <==> Truthy(v)
    ensures r.Some? ==> r == v
  {
    if Truthy(v) then v else None
  }

  /** GET `?userId=`: 400 without an id, 404 for an unknown one, else the stored profile. */
  function GetProfile(users: map<string, UserRecord>, userId: Option<string>): (r: Response<StoredProfile>)
    ensures !Truthy(userId) ==> r == Fail(400, "User ID required")
    ensures Truthy(userId) && userId.value !in users ==> r == Fail(404, "User not found in database")
    ensures r.Ok? ==> Truthy(userId) && userId.value in users && r.body.profile == ProfileOf(users[userId.value])
  {
    if !Truthy(userId) then Fail(400, "User ID required")
    else if userId.value !in users then Fail(404, "User not found in database")
    else
      var u := users[userId.value];
      Ok(StoredProfile(ProfileOf(u), OrNull(u.pageId), OrNull(u.pageName), OrNull(u.igBusinessId), OrNull(u.igUsername)))
  }

  /** Reading back after a successful sync gives the profile the sync replied with. */
  lemma GetAfterSync(users: map<string, UserRecord>, userId: Option<string>, email: Option<string>, userName: Option<string>, now: Time)
    ensures var o := SyncSpec(users, userId, email, userName, now);
      o.result.Ok? ==> GetProfile(o.users, userId).Ok? && GetProfile(o.users, userId).body.profile == o.result.body
  {
    var o := SyncSpec(users, userId, email, userName, now);
    if o.result.Ok? {
      assert userId.value in o.users && o.result.body == ProfileOf(o.users[userId.value]);
    }
  }
}
