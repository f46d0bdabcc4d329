/**
 * app/api/user/delete-meta-connection/route.ts: removing a user's Meta
 * connection while keeping the profile. The user is found by email; the
 * token, its bookkeeping, the legacy page fields and the permissions are
 * cleared and the record is left inactive.
 */
module DisconnectRoute {
  import opened Wrappers
  import opened JsText
  import opened Cipher
  import opened UserSchema
  import opened UserDocuments
  import opened TokenManager
  import opened Http

  /** `removedConnections` in the reply: what was linked before the clearing. */
  datatype RemovedConnections = RemovedConnections(facebook: bool, instagram: bool)

  /** The record under `id` is one `findOne({ email })` may return (active or not). */
  predicate HasEmail(users: map<string, UserRecord>, email: string, id: string) {
    id in users && users[id].email == Some(email)
  }

  /** The field assignments of the handler, `updatedAt` and `lastActivity` included. */
  function Disconnected(r: UserRecord, now: Time): UserRecord {
    r.(encryptedAccessToken := "", tokenExpiry := now, tokenRefreshedAt := None,
       pageId := None, pageName := None, igBusinessId := None, igUsername := None,
       permissions := [], isActive := false, updatedAt := now, lastActivity := now)
  }

  /** The handler once `findOne` has returned the record under `id`. */
  function DisconnectSpec(users: map<string, UserRecord>, id: string, now: Time): Outcome<Response<RemovedConnections>>
    requires id in users
  {
    var r := users[id];
    Outcome(Ok(RemovedConnections(Truthy(r.pageId), Truthy(r.igBusinessId))), users[id := Saved(r, Disconnected(r, now), false, now)])
  }

  /**
   * After a disconnect the record has no token, expires now, has no refresh
   * date, no legacy page fields and no permissions, and is inactive; its
   * `userId`, email, user name, pages and active page id are kept. The reply
   * says whether a page and an Instagram account were linked. Afterwards
   * `getUserToken` finds nothing for that user, and neither does a refresh.
   */
  lemma DisconnectProperties(users: map<string, UserRecord>, id: string, key: Key, iv: Iv,
                             exchange: string -> Option<string>, now: Time, later: Time)
    requires KeyedByUserId(users) && StoredRecordsValid(users) && id in users
    ensures var r := users[id];
      var o := DisconnectSpec(users, id, now);
      var s := o.users[id];
      && o.users == users[id := s] && KeyedByUserId(o.users) && StoredRecordsValid(o.users)
      && s.encryptedAccessToken == "" && s.tokenExpiry == now && s.tokenRefreshedAt == None
      && s.pageId == None && s.pageName == None && s.igBusinessId == None && s.igUsername == None
      && s.permissions == [] && !s.isActive && s.lastActivity == now && s.updatedAt == now
      && s.userId == r.userId && s.email == r.email && s.userName == r.userName && s.metaUserId == r.metaUserId
      && s.pages == r.pages && s.activePageId == r.activePageId
      && s.createdAt == r.createdAt && s.dataRetentionConsent == r.dataRetentionConsent
      && o.result == Ok(RemovedConnections(Truthy(r.pageId), Truthy(r.igBusinessId)))
      && DecryptToken(key, s.encryptedAccessToken) == Failure(NoEncryptedToken)
      && GetUserTokenSpec(o.users, r.userId, later) == Outcome(None, o.users)
      && RefreshUserTokenSpec(o.users, r.userId, key, iv, exchange, later) == Outcome(None, o.users)
  {
    var r := users[id];
    assert Saved(r, Disconnected(r, now), false, now) == Disconnected(r, now);
  }

  /** POST `{ email }` */
  method Disconnect(coll: UserCollection, email: Option<string>, now: Time) returns (response: Response<RemovedConnections>)
    requires coll.Valid()
    modifies coll
    ensures coll.Valid()
    ensures !Truthy(email) ==> response == Fail(400, "Email is required") && coll.users == old(coll.users)
    ensures Truthy(email) && (forall id :: !HasEmail(old(coll.users), email.value, id)) ==>
      response == Fail(404, "User not found") && coll.users == old(coll.users)
    ensures Truthy(email) && (exists id :: HasEmail(old(coll.users), email.value, id)) ==>
      exists id :: HasEmail(old(coll.users), email.value, id)
        && response == DisconnectSpec(old(coll.users), id, now).result
        && coll.users == DisconnectSpec(old(coll.users), id, now).users
  {
    if !Truthy(email) {
      return Fail(400, "Email is required");
    }
    if !exists id :: id in coll.users && HasEmail(coll.users, email.value, id) {
      return Fail(404, "User not found");
    }
    var id :| id in coll.users && HasEmail(coll.users, email.value, id);
    ghost var users := coll.users;
    var doc := new UserDocument.Hydrate(coll.users[id]);
    var hadFacebookPage := Truthy(doc.fields.pageId);
    var hadInstagramBusiness := Truthy(doc.fields.igBusinessId);
    doc.fields := doc.fields.(encryptedAccessToken := "", tokenExpiry := now, tokenRefreshedAt := None,
                              pageId := None, pageName := None, igBusinessId := None, igUsername := None,
                              permissions := [], isActive := false, updatedAt := now, lastActivity := now);
    var _ := coll.Save(doc, now);
    response := Ok(RemovedConnections(hadFacebookPage, hadInstagramBusiness));
    assert HasEmail(users, email.value, id) && coll.users == DisconnectSpec(users, id, now).users;
  }
}
