/**
 * The stateful half of models/User.ts: a loaded user document whose fields
 * the code assigns one by one, the `save()` path with its pre-save hook and
 * timestamps, and the users collection with the two bulk cleanup statics.
 *
 * The collection is a map from `userId` (the unique key) to the stored
 * record. A document is a copy of one record; it changes nothing in the
 * collection until it is saved.
 */
module UserDocuments {
  import opened Wrappers
  import opened Cipher
  import opened UserSchema

  /**
   * The record `save()` writes for a document hydrated from `loaded` (or new)
   * whose fields now hold `current`: new documents get `createdAt` and
   * `updatedAt`; an existing document that was modified gets `lastActivity`
   * (the pre-save hook) and `updatedAt` (timestamps); an unmodified one is
   * written as it is.
   */
  function Saved(loaded: UserRecord, current: UserRecord, isNew: bool, now: Time): (r: UserRecord)
    ensures !isNew ==> r.lastActivity == (if current == loaded then current.lastActivity else now)
    ensures r.(lastActivity := current.lastActivity, createdAt := current.createdAt, updatedAt := current.updatedAt) == current
  {
    if isNew then current.(createdAt := now, updatedAt := now)
    else if current != loaded then current.(lastActivity := now, updatedAt := now)
    else current
  }

  /** Saving again what a save has just written changes nothing, at any later time. */
  lemma SavedIsStable(loaded: UserRecord, current: UserRecord, isNew: bool, now: Time, later: Time)
    ensures var r := Saved(loaded, current, isNew, now); Saved(r, r, false, later) == r
  {
  }

  /** The `required` validators of a page subdocument: a string is missing when it is empty. */
  predicate PagePassesValidation(p: Page) {
    p.pageId != "" && p.pageName != "" && p.encryptedPageToken != ""
  }

  /**
   * The schema validators `save()` runs. Mongoose validates every path the
   * document holds, loaded or modified, so each save checks all of them:
   * `userId` is required, the email validator accepts an absent or
   * well-formed email, and every page has its three required strings.
   */
  predicate PassesValidation(r: UserRecord) {
    && r.userId != ""
    && (r.email.None? || IsValidEmail(r.email.value))
    && forall i :: 0 <= i < |r.pages| ==> PagePassesValidation(r.pages[i])
  }

  /**
   * A loaded (or newly built) user document. `fields` holds the values of its
   * schema paths (Mongoose keeps them in the document's `_doc` object); the
   * code assigns them one at a time, each assignment a record update here.
   */
  class UserDocument {
    var isNew: bool
    /** The record as last read from or written to the collection: what `isModified()` compares with. */
    var loaded: UserRecord
    var fields: UserRecord

    /** `isModified()`: some field holds a value different from the stored one. */
    predicate IsModified()
      reads this
    {
      fields != loaded
    }

    /** A document returned by `findOne`. */
    constructor Hydrate(r: UserRecord)
      ensures fields == r && loaded == r && !isNew
    {
      isNew, loaded, fields := false, r, r;
    }

    /** `new User({...})`: not yet in the collection. */
    constructor Create(r: UserRecord)
      ensures fields == r && loaded == r && isNew
    {
      isNew, loaded, fields := true, r, r;
    }

    /** `setEncryptedToken(token)`: stores `hex(iv):hex(ciphertext)`; the token reads back with the same key. */
    method SetEncryptedToken(key: Key, iv: Iv, token: string)
      modifies this
      ensures fields == old(fields).(encryptedAccessToken := EncryptToken(key, iv, token))
      ensures DecryptToken(key, fields.encryptedAccessToken) == Success(token)
      ensures isNew == old(isNew) && loaded == old(loaded)
    {
      fields := fields.(encryptedAccessToken := EncryptToken(key, iv, token));
      TokenRoundTrip(key, iv, token);
    }

    /** `setEncryptedPageToken(pageId, token)`: only the first page with that id changes; no page, no change. */
    method SetEncryptedPageToken(key: Key, iv: Iv, pageId: string, token: string)
      modifies this
      ensures fields == old(fields).(pages := SetPageToken(old(fields.pages), pageId, EncryptToken(key, iv, token)))
      ensures HasPage(old(fields.pages), pageId) ==> DecryptPageToken(key, fields.pages, pageId) == Success(token)
      ensures isNew == old(isNew) && loaded == old(loaded)
    {
      var pages := fields.pages;
      var stored := EncryptToken(key, iv, token);
      var i := FindPageIndex(pages, pageId);
      if i < |pages| {
        PageTokenRoundTrip(key, iv, pages, pageId, token);
        fields := fields.(pages := pages[i := pages[i].(encryptedPageToken := stored)]);
      }
    }

    /** The pre-save hook (`lastActivity`) and the timestamps plugin (`createdAt`, `updatedAt`). */
    method RunSaveHooks(now: Time)
      modifies this
      ensures fields == Saved(old(loaded), old(fields), old(isNew), now)
      ensures isNew == old(isNew) && loaded == old(loaded)
    {
      if isNew {
        fields := fields.(createdAt := now, updatedAt := now);
      } else if IsModified() {
        fields := fields.(lastActivity := now, updatedAt := now);
      }
    }
  }

  /** What an operation on the collection returns, and the collection after it. */
  datatype Outcome<T> = Outcome(result: T, users: map<string, UserRecord>)

  /* ---------------- bulk cleanup ---------------- */

  /** The records `updateMany({ tokenExpiry: { $lt: now }, isActive: true }, …)` matches. */
  function ExpiredActiveIds(users: map<string, UserRecord>, now: Time): set<string> {
    set id | id in users && users[id].isActive && users[id].tokenExpiry < now
  }

  /** The collection after `cleanupExpiredTokens()`. */
  function ExpireTokens(users: map<string, UserRecord>, now: Time): (r: map<string, UserRecord>)
    ensures r.Keys == users.Keys
    ensures forall id :: id in r ==> !(r[id].isActive && r[id].tokenExpiry < now)
    ensures forall id :: id in ExpiredActiveIds(users, now) ==>
      r[id] == users[id].(isActive := false, lastActivity := now, updatedAt := now)
    ensures forall id :: id in users && id !in ExpiredActiveIds(users, now) ==> r[id] == users[id]
  {
    map id | id in users ::
      if id in ExpiredActiveIds(users, now) then users[id].(isActive := false, lastActivity := now, updatedAt := now)
      else users[id]
  }

  /** The records `deleteMany({ lastActivity: { $lt: cutoff }, isActive: false })` matches. */
  function StaleInactiveIds(users: map<string, UserRecord>, cutoff: Time): set<string> {
    set id | id in users && !users[id].isActive && users[id].lastActivity < cutoff
  }

  /** The collection after `cleanupInactiveUsers(…)` with the given cutoff. */
  function PurgeInactive(users: map<string, UserRecord>, cutoff: Time): (r: map<string, UserRecord>)
    ensures r.Keys == users.Keys - StaleInactiveIds(users, cutoff)
    ensures forall id :: id in r ==> r[id] == users[id]
    ensures forall id :: id in users && users[id].isActive ==> id in r
    ensures forall id :: id in r ==> r[id].isActive || r[id].lastActivity >= cutoff
  {
    map id | id in users && id !in StaleInactiveIds(users, cutoff) :: users[id]
  }

  /** `cleanupInactiveUsers(daysInactive)`'s cutoff: `daysInactive` days before now. */
  function InactivityCutoff(now: Time, daysInactive: int): Time {
    now - daysInactive * DAY_MS
  }

  /**
   * Expiry then purge, as one cleanup run does them: a record the expiry pass
   * flips is not deleted by the purge in the same run (its `lastActivity` is
   * now), for any non-negative inactivity window.
   */
  lemma FlippedRecordsSurvivePurge(users: map<string, UserRecord>, now: Time, daysInactive: nat)
    ensures ExpiredActiveIds(users, now) <= PurgeInactive(ExpireTokens(users, now), InactivityCutoff(now, daysInactive)).Keys
  {
    var expired := ExpireTokens(users, now);
    var cutoff := InactivityCutoff(now, daysInactive);
    forall id | id in ExpiredActiveIds(users, now)
      ensures id !in StaleInactiveIds(expired, cutoff)
    {
      assert expired[id].lastActivity == now;
    }
  }

  /** Every record is stored under its own `userId` (the unique index). */
  predicate KeyedByUserId(users: map<string, UserRecord>) {
    forall id :: id in users ==> users[id].userId == id
  }

  /** Every stored record was written by a save that passed the validators. */
  predicate StoredRecordsValid(users: map<string, UserRecord>) {
    forall id :: id in users ==> PassesValidation(users[id])
  }

  /** The bulk cleanups touch only `isActive`, `lastActivity` and `updatedAt`, so they keep every record valid. */
  lemma CleanupKeepsRecordsValid(users: map<string, UserRecord>, now: Time, cutoff: Time)
    requires KeyedByUserId(users) && StoredRecordsValid(users)
    ensures KeyedByUserId(ExpireTokens(users, now)) && StoredRecordsValid(ExpireTokens(users, now))
    ensures KeyedByUserId(PurgeInactive(users, cutoff)) && StoredRecordsValid(PurgeInactive(users, cutoff))
  {
    var expired := ExpireTokens(users, now);
    forall id | id in expired
      ensures expired[id].userId == id && PassesValidation(expired[id])
    {
      assert expired[id].(isActive := users[id].isActive, lastActivity := users[id].lastActivity, updatedAt := users[id].updatedAt) == users[id];
    }
  }

  /** The users collection. */
  class UserCollection {
    var users: map<string, UserRecord>

    /** The unique index on `userId`, and only validated records stored. */
    ghost predicate Valid()
      reads this
    {
      KeyedByUserId(users) && StoredRecordsValid(users)
    }

    constructor ()
      ensures Valid() && users == map[]
    {
      users := map[];
    }

    /**
     * `doc.save()`: validation, then the hooks, then the write. A new document
     * whose `userId` is taken fails like a duplicate-key error; a failed save
     * leaves both the collection and the document as they were.
     */
    method Save(doc: UserDocument, now: Time) returns (ok: bool)
      requires Valid()
      requires doc.isNew || doc.fields.userId == doc.loaded.userId
      modifies this, doc
      ensures Valid()
      ensures ok <==> PassesValidation(old(doc.fields)) && !(old(doc.isNew) && old(doc.fields.userId) in old(users))
      ensures ok ==> && doc.fields == Saved(old(doc.loaded), old(doc.fields), old(doc.isNew), now)
                     && users == old(users)[doc.fields.userId := doc.fields]
                     && !doc.isNew && doc.loaded == doc.fields
      ensures !ok ==> && users == old(users) && doc.fields == old(doc.fields)
                      && doc.isNew == old(doc.isNew) && doc.loaded == old(doc.loaded)
    {
      ok := PassesValidation(doc.fields) && !(doc.isNew && doc.fields.userId in users);
      if ok {
        doc.RunSaveHooks(now);
        users := users[doc.fields.userId := doc.fields];
        doc.isNew, doc.loaded := false, doc.fields;
      }
    }

    /** `User.deleteOne({ userId })`, reporting `deletedCount`. */
    method DeleteOne(userId: string) returns (deletedCount: nat)
      requires Valid()
      modifies this
      ensures Valid()
      ensures users == old(users) - {userId}
      ensures deletedCount == if userId in old(users) then 1 else 0
    {
      deletedCount := if userId in users then 1 else 0;
      users := users - {userId};
    }

    /** `User.cleanupExpiredTokens()`, reporting `modifiedCount`. */
    method CleanupExpiredTokens(now: Time) returns (modifiedCount: nat)
      requires Valid()
      modifies this
      ensures Valid()
      ensures users == ExpireTokens(old(users), now)
      ensures modifiedCount == |ExpiredActiveIds(old(users), now)|
    {
      modifiedCount := |ExpiredActiveIds(users, now)|;
      CleanupKeepsRecordsValid(users, now, now);
      users := ExpireTokens(users, now);
    }

    /** `User.cleanupInactiveUsers(daysInactive)`, reporting `deletedCount`. */
    method CleanupInactiveUsers(now: Time, daysInactive: int) returns (deletedCount: nat)
      requires Valid()
      modifies this
      ensures Valid()
      ensures users == PurgeInactive(old(users), InactivityCutoff(now, daysInactive))
      ensures deletedCount == |StaleInactiveIds(old(users), InactivityCutoff(now, daysInactive))|
    {
      var cutoff := InactivityCutoff(now, daysInactive);
      deletedCount := |StaleInactiveIds(users, cutoff)|;
      CleanupKeepsRecordsValid(users, now, cutoff);
      users := PurgeInactive(users, cutoff);
    }
  }
}
