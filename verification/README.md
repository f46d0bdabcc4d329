# AutoPost Meta credentials: a Dafny model

AutoPost is a Next.js app that publishes real-estate posts to Facebook pages and
Instagram business accounts. Each user has one record in the `users` collection,
keyed by `userId`. This model covers that record's Meta credentials:

- an encrypted long-lived access token stored as `hex(iv):hex(ciphertext)`;
- its expiry bookkeeping and an `isActive` flag;
- the linked pages, one of them active, mirrored into legacy single-page fields.

Modelled operations:

- **Record methods** of `models/User.ts`: key derivation, the token format, the
  expiry predicates, page-token access, active-page lookup, the pre-save hook and
  the two bulk cleanup passes.
- **Token store** of `lib/token-manager.ts`: store, lookup by id and by email,
  refresh, `getValidToken`, soft and hard delete, scheduled cleanup.
- **API routes**: page listing and active-page selection, profile sync, and the
  Meta disconnect.
- **Security helpers** of `lib/security-config.ts`: key, encrypt/decrypt format,
  input sanitising, the in-memory rate-limit store and its limiter, and the
  production environment check.
- **Carousel reordering** of the template step.

Modules, one per source file or concern:

| module | models |
|---|---|
| `Wrappers`, `Http` | `Option`, `Result`; an HTTP reply (`Ok(body)` or `Fail(status, error)`) |
| `JsText` | the JavaScript string operations the code relies on: truthiness, `trim`, `split` |
| `Hex`, `Cipher` | Node's hex `Buffer` encoding; concrete stand-ins for SHA-256 and AES-256-CBC |
| `UserSchema` | the record, the email validator, the key, the token format, expiry, page lookups |
| `UserDocuments` | a loaded document (`class UserDocument`), `save()` with its hooks, the collection (`class UserCollection`) and the cleanup statics |
| `TokenManager` | `lib/token-manager.ts` |
| `PagesRoute`, `SyncRoute`, `DisconnectRoute` | the three user routes |
| `SecurityConfig` | `lib/security-config.ts` |
| `TemplateCarousel` | `app/dashboard/template/page.tsx` |

How the stateful code is modelled:

- A database operation is a method on a `UserCollection`, whose `users` field is
  a `map` from `userId` to record. The method hydrates a `UserDocument`, assigns
  its fields as the source does, and calls `Save`.
- Each such method is specified by a pure `...Spec` function. The function
  returns an `Outcome`: the value the operation returns, plus the collection
  afterwards. A `...Properties` lemma proves what the source promises about it.
- `findOne({ email })` can match several records. The methods choose any
  matching one, and their contract holds for whichever record is chosen.
- Inputs the code reads from outside are parameters:
  - the clock is `now`, in milliseconds;
  - the random IV is `iv`;
  - the encryption key is `key`;
  - the Graph API token exchange is `exchange: string -> Option<string>`, where `None` is a failed request;
  - the template upload result is `cloudUrl`/`cloudPublicId`.

Where the code and its comments disagree, the model follows the code:

- The rate limiter is called fixed-window, but `increment` rewrites the expiry
  on every call (lib/security-config.ts:213-218). The window therefore slides: it
  ends `windowSeconds` after the latest attempt. `CountsSeen` and
  `DecisionsWithinWindow` state this.
- `SecureTokenEncryption` is documented as AES-256-GCM but uses CBC. It also
  shares the user model's `iv:ciphertext` format: `StoredTokenDecrypts`.
- Its 32-byte key-length check can never fail. `GetEncryptionKey` keeps the
  branch, and its contract shows that the branch is unreachable.

## Model

| member | source | states |
|---|---|---|
| UserSchema.EmailValidatorMatchesPattern | models/User.ts:73-78 | the validator accepts exactly the empty email and strings of the form A `@` B `.` C, where A, B and C are non-empty runs of characters other than whitespace and `@` |
| UserSchema.DeriveKey | models/User.ts:164-176 | 64 hex digits are decoded to the key; the key re-encodes to those digits, lower-cased. Any other string is hashed. The key is always 32 bytes (type `Key`) |
| UserSchema.FallbackKeyIsHashed | models/User.ts:163 | without `TOKEN_ENCRYPTION_KEY` the fallback passphrase is hashed, because it is not 64 hex digits |
| UserSchema.EncryptToken | models/User.ts:181-189 | the stored token is 32 hex digits (the IV), `:`, then a ciphertext with no `:` |
| UserSchema.DecipherStored | models/User.ts:197-205 | a decryption succeeds only when the text has a `:`, its first field decodes to a 16-byte IV and its second field has an even number of hex digits; an odd-length second field always fails, as `decipher.update(…, 'hex')` throws |
| UserSchema.DecipherEncoded | models/User.ts:181-205 | splitting `hex(iv):hex(ct)` recovers the IV and the ciphertext, so the result is exactly what deciphering `ct` gives |
| UserSchema.DecryptToken | models/User.ts:192-206 | fails with "no encrypted token" exactly when the stored token is empty; fails for a token with no `:` or an odd-length ciphertext half |
| UserSchema.TokenRoundTrip | models/User.ts:181-206 | `getDecryptedToken` after `setEncryptedToken(t)` returns `t`, for every key and IV |
| UserSchema.DistinctIvsGiveDistinctTokens | models/User.ts:182-189 | two encryptions under different IVs never give the same stored string |
| UserSchema.ExpiredNeedsRefresh | models/User.ts:208-216 | an expired token always needs refresh; a token expiring exactly now is not expired (strict `>`) but needs refresh |
| UserSchema.FreshTokenWindow | models/User.ts:212-216 | a token given the 60-day lifetime needs no refresh for 53 days and needs one after that |
| UserSchema.FindPageIndex | models/User.ts:247 | the index `find` stops at: the first page with that id, or the length when there is none |
| UserSchema.FindPage | models/User.ts:220 | finds a page exactly when one has that id, and returns a page with that id |
| UserSchema.GetActivePage | models/User.ts:253-258 | nothing when `activePageId` is unset or empty or no page has it; otherwise the first page whose id is `activePageId` |
| UserSchema.SetPageToken | models/User.ts:244-250 | only the first page with the id gets the new token; nothing changes when no page has it |
| UserSchema.DecryptPageToken | models/User.ts:219-232 | fails for an unknown page and for a page with an empty token; a success is the decryption of that page's stored token, so it inherits every failure of `DecipherStored` |
| UserSchema.PageTokenRoundTrip | models/User.ts:219-251 | after setting a page's token, reading it back returns the token |
| UserDocuments.Saved | models/User.ts:266-271 | only `lastActivity`, `createdAt` and `updatedAt` change on save; a modified existing record gets `lastActivity = now`, an unmodified one keeps it |
| UserDocuments.SavedIsStable | models/User.ts:266-271 | saving a just-saved record again, at any later time, changes nothing |
| UserDocuments.UserDocument.Hydrate | lib/token-manager.ts:143-146 | a document loaded by `findOne` is not new and holds the stored record |
| UserDocuments.UserDocument.Create | lib/token-manager.ts:105-120 | `new User({...})` is new and holds the given record |
| UserDocuments.UserDocument.SetEncryptedToken | models/User.ts:181-190 | only the token field changes, and it decrypts to the given token |
| UserDocuments.UserDocument.SetEncryptedPageToken | models/User.ts:236-251 | only the matching page's token changes, and it decrypts to the given token |
| UserDocuments.UserDocument.RunSaveHooks | models/User.ts:266-271 | the fields become the saved record; `lastActivity` is bumped only for a modified existing document |
| UserDocuments.ExpireTokens | models/User.ts:274-280 | afterwards no record is both active and past `tokenExpiry`; flipped records get `lastActivity = now`; all other records are unchanged and none is deleted |
| UserDocuments.PurgeInactive | models/User.ts:282-290 | deletes exactly the inactive records with `lastActivity` before the cutoff, and never an active one |
| UserDocuments.FlippedRecordsSurvivePurge | lib/token-manager.ts:353-357 | a record flipped by the expiry pass is never deleted by the purge in the same run |
| UserDocuments.UserCollection.Save | models/User.ts:53-128 | succeeds exactly when the document passes every schema validator (required `userId`, the email validator, the page subdocuments' required strings), whether or not the path changed, and a new document's `userId` is not taken; it then writes the saved record under its `userId`, and otherwise nothing changes. It keeps the collection keyed by `userId` and holding validated records only |
| UserDocuments.UserCollection.DeleteOne | lib/token-manager.ts:327-328 | removes the record and reports a count of 1 exactly when one existed |
| UserDocuments.CleanupKeepsRecordsValid | models/User.ts:274-290 | both bulk cleanups keep the collection keyed by `userId` with every record passing the validators |
| UserDocuments.UserCollection.CleanupExpiredTokens | models/User.ts:274-280 | the collection becomes `ExpireTokens` of the old one, and the count is the number of flipped records |
| UserDocuments.UserCollection.CleanupInactiveUsers | models/User.ts:282-290 | the collection becomes `PurgeInactive` with a cutoff `daysInactive` days before now, and the count is the number deleted |
| TokenManager.IncludesAll | lib/token-manager.ts:55 | true exactly when every required entry occurs in the granted list |
| TokenManager.ValidateMetaPermissions | lib/token-manager.ts:46-56 | true exactly when all five required permissions were granted |
| TokenManager.PermissionsDependOnMembershipOnly | lib/token-manager.ts:46-56 | order and extra entries of the granted list do not change the verdict |
| TokenManager.StoreUserTokenProperties | lib/token-manager.ts:61-134 | the stored record has `isActive`, expiry now + 60 days, `tokenRefreshedAt = now`, permissions or `[]`, and a token that decrypts to the supplied one. A new record gets the consent date and no pages; an existing one keeps its pages. On a collection of validated records it fails exactly when `userId` is empty or the supplied email is rejected, and then writes nothing; otherwise every stored record still passes the validators |
| TokenManager.StoreUserToken | lib/token-manager.ts:61-134 | returns and leaves what `StoreUserTokenSpec` gives, keeping the collection keyed by `userId` |
| TokenManager.GetUserTokenProperties | lib/token-manager.ts:140-165 | returns a record exactly when an active one with an unexpired token exists, touched now. An expired one is saved inactive and `null` is returned. Nothing else changes |
| TokenManager.GetUserToken | lib/token-manager.ts:140-165 | returns and leaves what `GetUserTokenSpec` gives |
| TokenManager.GetUserByEmailProperties | lib/token-manager.ts:171-211 | applies the same expiry rule. A decrypt failure returns `null` and writes nothing, so the record stays active and untouched. A success returns the decrypted token and touches the record |
| TokenManager.GetUserByEmail | lib/token-manager.ts:171-211 | no active record with the email gives `null` and no change; otherwise some matching record is handled as `GetUserByEmailSpec` says |
| TokenManager.RefreshUserTokenProperties | lib/token-manager.ts:217-267 | on success the stored token decrypts to the exchanged one, expires in 60 days and needs no refresh. If the decrypt or the exchange fails, the record becomes inactive and the result is `null` |
| TokenManager.RefreshUserToken | lib/token-manager.ts:217-267 | returns and leaves what `RefreshUserTokenSpec` gives |
| TokenManager.GetValidTokenProperties | lib/token-manager.ts:273-293 | refreshes only when `needsTokenRefresh` holds, and returns `null` when the lookup or the refresh does. A returned record is stored, active, unexpired and more than 7 days from expiry |
| TokenManager.GetValidToken | lib/token-manager.ts:273-293 | returns and leaves what `GetValidTokenSpec` gives |
| TokenManager.GetDecryptedAccessTokenProperties | lib/token-manager.ts:299-316 | the token handed out is what the stored, active, fresh record decrypts to. After a refresh, it is the exchanged token |
| TokenManager.GetDecryptedAccessToken | lib/token-manager.ts:299-316 | returns and leaves what `GetDecryptedAccessTokenSpec` gives |
| TokenManager.DeleteUserTokenProperties | lib/token-manager.ts:322-341 | returns true exactly when a record existed. A hard delete removes it. A soft delete keeps it inactive with an empty token, even when it was already inactive. Afterwards `getUserToken` finds nothing |
| TokenManager.DeleteUserToken | lib/token-manager.ts:322-341 | returns and leaves what `DeleteUserTokenSpec` gives |
| TokenManager.PerformCleanup | lib/token-manager.ts:347-365 | expiry pass then 90-day purge; returns both counts; every flipped record is still present afterwards |
| PagesRoute.Summarize | app/api/user/pages/route.ts:28-36 | an entry is marked active exactly when its page id is `activePageId` |
| PagesRoute.Summaries | app/api/user/pages/route.ts:28 | one entry per stored page |
| PagesRoute.ListPages | app/api/user/pages/route.ts:6-41 | 400 without `userId`, 404 for an unknown user; otherwise the listing with the user's `activePageId` |
| PagesRoute.ListingMarksActivePage | app/api/user/pages/route.ts:27-41 | entries follow stored order with each page's fields and no token. Some entry is marked active exactly when `getActivePage` finds a page, and the first marked entry is that page |
| PagesRoute.SelectPageProperties | app/api/user/pages/route.ts:83-93 | selection sets `activePageId` and copies the page into the legacy fields; nothing else changes; `getActivePage` then returns that page |
| PagesRoute.SetActivePageProperties | app/api/user/pages/route.ts:57-101 | succeeds exactly when both ids are given, the user exists and owns the page. A missing id gives 400 "userId and pageId are required", an unknown user 404 "User not found", a page the user lacks 404 "Page not found in user's pages"; every refusal leaves the collection unchanged |
| PagesRoute.SetActivePageIdempotent | app/api/user/pages/route.ts:83-95 | selecting the same page again gives the same reply and the same collection |
| PagesRoute.SetActivePage | app/api/user/pages/route.ts:52-101 | returns and leaves what `SetActivePageSpec` gives |
| SyncRoute.ProfileOf | app/api/user/sync/route.ts:50-59 | `hasMetaTokens` and `connected` both equal `isActive` and a non-empty `pageId` |
| SyncRoute.DefaultUserNameIsLocalPart | app/api/user/sync/route.ts:29 | for a valid email the default user name is the non-empty text before its first `@` |
| SyncRoute.SyncProperties | app/api/user/sync/route.ts:11-59 | 400 without both ids and 500 for an email the validator rejects, both writing nothing. Afterwards exactly one record has the `userId`, with the email, the name and `lastActivity = now`. An insert gets the no-connection defaults; an update keeps the token, expiry, activity flag, permissions, pages and legacy fields. Every stored record still passes the validators |
| SyncRoute.Sync | app/api/user/sync/route.ts:11-59 | returns and leaves what `SyncSpec` gives |
| SyncRoute.OrNull | app/api/user/sync/route.ts:114-117 | `value \|\| null`: present exactly when the value is a non-empty string |
| SyncRoute.GetProfile | app/api/user/sync/route.ts:86-120 | 400 without `userId`, 404 for an unknown one, else the stored record's profile |
| SyncRoute.GetAfterSync | app/api/user/sync/route.ts:97-120 | after a successful sync, GET returns the profile the sync replied with |
| DisconnectRoute.DisconnectProperties | app/api/user/delete-meta-connection/route.ts:33-55 | the token is cleared and expires now, and the refresh date, legacy page fields and permissions are gone; the record is inactive. `userId`, email, name, pages and `activePageId` are kept. The reply says what was linked before. Every stored record still passes the validators. Afterwards `getUserToken` and a refresh find nothing |
| DisconnectRoute.Disconnect | app/api/user/delete-meta-connection/route.ts:11-74 | 400 without an email, 404 with no change for an unknown one, else `DisconnectSpec` for some record with that email |
| SecurityConfig.GetEncryptionKey | lib/security-config.ts:70-91 | fails exactly when the key is missing, with that message; otherwise gives the same 32-byte key as the user model |
| SecurityConfig.Encrypt | lib/security-config.ts:93-109 | with a key: 32 hex digits, `:`, then ciphertext; without one, "Failed to encrypt token" |
| SecurityConfig.Decrypt | lib/security-config.ts:111-131 | every failure is "Failed to decrypt token"; no key, no `:`, an empty half or an odd-length ciphertext half always fails |
| SecurityConfig.DecryptEncrypt | lib/security-config.ts:93-131 | with a key, `decrypt(encrypt(p)) == p` |
| SecurityConfig.StoredTokenDecrypts | lib/security-config.ts:111-131 | a token stored by the user model under the same key decrypts here too |
| SecurityConfig.RemoveAngleBrackets | lib/security-config.ts:171 | the result holds exactly the input's characters other than `<` and `>` |
| SecurityConfig.SanitizeInput | lib/security-config.ts:164-173 | no `<` or `>`, at most 1000 characters, the trimmed and stripped input when it has at most 1000 characters, otherwise exactly its first 1000; a non-string gives `''` |
| SecurityConfig.Incremented | lib/security-config.ts:213-218 | the key holds the live value plus one, expiring `ttl` seconds from now; other keys are unchanged |
| SecurityConfig.MemoryRateLimitStore.constructor | lib/security-config.ts:195 | the store starts empty |
| SecurityConfig.MemoryRateLimitStore.Get | lib/security-config.ts:197-204 | returns the live value, or 0 for a missing or expired key, which is then removed |
| SecurityConfig.MemoryRateLimitStore.Set | lib/security-config.ts:206-211 | stores the value to expire `ttl` seconds from now |
| SecurityConfig.MemoryRateLimitStore.Increment | lib/security-config.ts:213-218 | returns the live value plus one, and the store becomes `Incremented` |
| SecurityConfig.CountsSeen | lib/security-config.ts:213-218 | one count per call, each call incrementing the store left by the previous one |
| SecurityConfig.CountsIncreaseWithinWindow | lib/security-config.ts:197-218 | from no live entry, calls each within the window of the previous one see 1, 2, 3, … |
| SecurityConfig.CountsFrom | lib/security-config.ts:197-218 | from a live count `seen`, calls within the window see `seen + 1`, `seen + 2`, … |
| SecurityConfig.Decide | lib/security-config.ts:235-238 | allowed exactly when the count is at most `maxAttempts`; `remaining` is `max(0, maxAttempts - count)` |
| SecurityConfig.RateLimiter.constructor | lib/security-config.ts:225-229 | the limiter holds its store, limit and window |
| SecurityConfig.RateLimiter.CheckLimit | lib/security-config.ts:231-239 | increments `rate_limit:<identifier>` and decides on the new count |
| SecurityConfig.DecisionsWithinWindow | lib/security-config.ts:231-239 | within one window, exactly the first `maxAttempts` calls are allowed |
| SecurityConfig.MissingVars | lib/security-config.ts:268 | lists exactly the required names that are unset or empty |
| SecurityConfig.ValidateProductionEnvironment | lib/security-config.ts:258-284 | true exactly when all six variables are set and the key has at least 32 characters |
| SecurityConfig.ValidEnvironmentHasKey | lib/security-config.ts:258-284 | a valid environment yields a key, the same one the user model derives |
| TemplateCarousel.InitialOrder | app/dashboard/template/page.tsx:59 | the identity order has one entry per image |
| TemplateCarousel.InitialOrderCounts | app/dashboard/template/page.tsx:59 | the identity order holds each index `0..n-1` exactly once and nothing else |
| TemplateCarousel.IndexPermutationInRange | app/dashboard/template/page.tsx:59 | a permutation of the `n` indices has length `n` and only in-range entries, and the initial order is one |
| TemplateCarousel.SwapAt | app/dashboard/template/page.tsx:327-328 | the two positions are exchanged, everything else is kept, and the contents are a permutation of the input |
| TemplateCarousel.MovePrev | app/dashboard/template/page.tsx:325-330 | at `displayIndex > 0` exchanges it with the previous position; at 0 nothing changes; always a permutation |
| TemplateCarousel.MoveNext | app/dashboard/template/page.tsx:340-345 | at `displayIndex < len - 1` exchanges it with the next position; at the last index nothing changes; always a permutation |
| TemplateCarousel.PrevNextInverse | app/dashboard/template/page.tsx:325-345 | Prev at `d` and Next at `d - 1` undo each other, and both keep an index permutation one |
| TemplateCarousel.KeptCounts | app/dashboard/template/page.tsx:218-223 | the pushed indices are `imageOrder` with every occurrence of the selected index removed |
| TemplateCarousel.Pick | app/dashboard/template/page.tsx:220-221 | one looked-up value per index |
| TemplateCarousel.KeptStep | app/dashboard/template/page.tsx:218-223 | each `forEach` step appends one looked-up value, or none for the selected index |
| TemplateCarousel.ReorderedKeepsEveryOtherImage | app/dashboard/template/page.tsx:210-223 | with `imageOrder` a permutation of `0..n-1` and the selected index below `n`, every other image appears exactly once, so the lists have length `n` and no entry is `undefined` |
| TemplateCarousel.Reorder | app/dashboard/template/page.tsx:210-223 | the lists start with the templated URL/publicId, then hold the other images in `imageOrder` order; both have the same length |
| TemplateCarousel.ApplyTemplate | app/dashboard/template/page.tsx:155-235 | "No images available" without a workflow or images; "Failed to get URL for templated image" without an upload URL; otherwise it always succeeds, keeping the originals and storing the templated image first, then the other images in display order |

## Left out

- Cryptography is not verified. `Cipher.Sha256`, `Cipher.Seal` and `Cipher.Open` are concrete stand-ins for SHA-256 and AES-256-CBC with PKCS#7. They have the right lengths and a proved round trip. No property here depends on more than that.
- The HMAC webhook check (`validateWebhookSignature`), `generateSecureId`, `generateUserId` and the `SECURITY_HEADERS`/`SECURITY_CONFIG` tables are not modelled. They are random, hashing or constant data.
- `storeUserPages` is imported by the Meta callback route, but its source is not part of this model.
- MongoDB plumbing is not modelled: connections, the `__v` version key, concurrent writers and `findOneAndUpdate` internals. The collection is a map keyed by `userId`, and each operation runs alone.
- Projections are not modelled. `select: false` fields are visible to every load, so `StoreUserToken` and `RefreshUserToken` return the full stored record where `findById` would omit the token.
- The schema's `trim` and `lowercase` setters are not modelled. Values are stored as given, and the email validator sees the email as given. Mongoose applies the setters before validating, so an email such as `" A@B.C"` is stored as `"a@b.c"` and accepted, while the model rejects it: 500 in the sync route, `SaveRejected` in `storeUserToken`.
- Every `catch` that turns an unexpected exception into a 500 reply is left out. Only validation failures are modelled: `SaveRejected`, and the sync's 500 for an invalid email.
- The disconnect route's audit-log entry and all `console` logging are left out.
- Time is integer milliseconds, and `setDate(getDate() ± n)` is taken as `n` fixed days of 86 400 000 ms. Daylight-saving shifts are not modelled.
- SecurityConfig.SanitizeInput: the 1000 limit counts characters, while JavaScript's `substring` counts UTF-16 code units. Inputs outside the Basic Multilingual Plane are not modelled exactly.
- SecurityConfig.ValidateProductionEnvironment: the 32-character minimum likewise counts characters rather than UTF-16 code units.
- PagesRoute.ListingMarksActivePage: assumes non-empty page ids. Every stored record satisfies this, because `UserCollection.Valid` holds only records that pass the `required` validator on `pageId`. With an empty id, an empty `activePageId` would mark that entry while `getActivePage` finds nothing.
- SecurityConfig.MemoryRateLimitStore.Increment: atomic in the model. The source awaits `get` and `set` separately (lib/security-config.ts:213-218), so two concurrent requests can read the same count and both write that count plus one. Concurrency is not modelled.
- UserSchema.TokenRoundTrip: holds for every string Dafny can represent. A JavaScript string holding a lone UTF-16 surrogate is not one of them, and it would not survive the UTF-8 round trip. The same holds for UserSchema.PageTokenRoundTrip, SecurityConfig.DecryptEncrypt and SecurityConfig.StoredTokenDecrypts.
- TemplateCarousel.ApplyTemplate: the rendering of the template (html2canvas) and the Cloudinary upload are parameters. Their own failures, reported as "Failed to apply template", and the router navigation are not modelled.
- TemplateCarousel.MovePrev: the button is disabled at the first position, and the model keeps the code's own guard. The same applies to `MoveNext` at the last position. React state updates and rendering are not modelled.
- The thin routes that only forward to modelled functions are left out: `delete-account`, `check-meta-tokens`, `cleanup`, `profile`, `token` and `webhooks`. So are the publishing, AI, upload and reporting routes, Redis, and the UI.
