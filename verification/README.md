# A verified model of nestjs-advanced: sessions, signing keys, listings

The project models the stateful core of the back end in Dafny and proves what it keeps over every run:

- **Sessions and tokens.** One Redis key space holds a record per session (`session:<id>`, with a ttl) and an index
  set per user (`session:user:<uid>`). Login, e-mail verification and password reset create a session with a fresh id
  and a fresh pair of token ids; refresh signs a new pair and overwrites the record; logouts delete; time expires.
- **Signing keys.** A monthly job adds one key per type and deletes keys older than a per-type retention period; the
  newest key signs, and a key is made on demand where there is none.
- **Listings.** The cursor and the offset listing of users, as walks that a client makes by following the pointers.
- **User rows.** What keeps e-mails unique, soft-deleted rows included.

## How it is laid out

| files | content |
|---|---|
| `Uuids`, `DateHelpers`, `RedisStore`, `SessionModel`, `SessionService` | ttl arithmetic; the flat string-keyed store; the two typed maps it represents; the session operations as a class over the flat store |
| `KeyModel`, `KeyService`, `Tokens`, `JwtService` | the key table and its service and rotation classes; tokens and the three places that accept them; signing |
| `AuthSystem`, `AuthService` | the protocol as events of whole requests; the class whose methods, and the rotation beside it, continue a run by exactly those events in the flat store and the key table |
| `SessionTheorems`, `TokenTheorems`, `MailLinks`, `Accounts` | theorems over all runs of **whole requests** and clock steps |
| `Interleaving`, `InterleavedStore`, `KeyCreation` | theorems over all interleavings at single **`await` points**; the commands of interleaved requests in the flat store |
| `Ordering`, `Pagination`, `UserModel`, `UserService` | listings and user rows |

The classes keep the store's own form (one `map` from strings, reassigned by each command). Their methods are proved
equal to functions on typed maps, which `Represents` ties to the flat store. `AuthService` carries the run that has
led to its state, and its `Valid()` says that this is a run of the protocol ending in the key table and the maps of
the store: the theorems over runs are about every state its requests and `AuthServices.Rotate` reach.

## What came out that the code does not promise

- A ttl computed as 0 stores a record that never expires (`SessionTheorems.ExpiryBoundExactly`: with whole requests
  this happens exactly if the refresh lifetime is 0 or 1 second).
- Tokens are sure to find their key until `exp` exactly if the gap between key creations and their lifetime fit into
  the retention period (`TokenTheorems.LifetimeBoundExactly`). With keys created up to 31 days apart that is 30 days
  for refresh tokens, which is the lifetime the example configuration gives them, and nothing for the 31-day types
  (`TokenTheorems.MonthlyBoundExactly`): a 15-minute access, confirmation or reset token signed just before a rotation
  can lose its key in that rotation.
- At `await` grain, a refresh that read its session before a logout and writes after it brings the record back
  (`Interleaving.ReappearsExactly`), and the owner's index then does not know it (`Interleaving.RefreshOutrunsLogout`,
  `Interleaving.ReturnsLostExactly`). From a given moment a session can come to be live and missing from its index
  exactly if it is live or a request in flight can make it so (`Interleaving.CanBeLostExactly`).
- Along a run none ever is live and missing exactly if no step takes a live session's id out of its owner's index and
  every refresh that still stores its record finds the id indexed (`Interleaving.NeverLostExactly`). That the sessions
  which refreshes merely hold stay indexed too takes more: no step may take out their ids either
  (`Interleaving.StaysIndexedExactly`).
- A bulk logout that has found the index empty deletes its key although a login may have filled it since
  (`Interleaving.DropOutrunsLogin`).
- A logout takes its session id from a token that is only decoded. With the text "user:" and a user's id it builds the
  key of that user's index: as a whole request it then fails or changes nothing (`SessionModel.ForeignIdIsHarmless`),
  but if it has read the key before the user's first login and deletes it after, the index is gone and the session
  lives on (`Interleaving.ForeignLogoutOutrunsLogin`).
- Whatever the lifetimes, interleaved requests leave a record for ever exactly if one writes within a second of its
  refresh token's expiry (`InterleavedStore.RecordsExpireExactly`), and move a session's refresh expiry back exactly if
  one stores an older one than was stored before (`InterleavedStore.NeverBackExactly`).
- A removed session id stays in its owner's index after a logout, since the index key is built from the session id
  (`SessionTheorems.LogoutLeavesStaleId`); the listing of sessions is exact all the same.
- The creation flag is shared by all key types, so a key of one type being saved makes a rotation skip another, and
  the rotation's removals run all the same: the type is left without a key exactly if all it had are past retention
  (`KeyModel.RotationLeavesNoneExactly`, `KeyCreation.TurnLeavesNoneExactly`, `KeyCreation.SkippedTurnRuns`).
- A bulk logout asks nobody whose sessions it is given: another user's session goes exactly if the list names it
  (`SessionTheorems.LogoutSessionsIsExact`). A caller whose token names a user that is not active any more has no id:
  a logout everywhere then removes nothing (`AuthServices.AuthService.LogoutAll`).
- A login never asks for the user's status: an inactive or blocked user gets a session as an active one does
  (`AuthServices.AuthService.Login`). A blocked user stays blocked and is never issued a confirmation token, which is
  the only way to become active (`Accounts.BlockedStaysBlocked`).
- A confirmation link works once, a reset link any number of times until it expires (`MailLinks`).
- With a search text the cursor condition does not bind the e-mail half of the search
  (`Pagination.SearchRespectsCursorExactly`, `Pagination.SearchCanRepeat`).
- The comments of `refresh.strategy.ts` speak of blacklist and whitelist checks; the code has none, and the model
  follows the code.

## Assumptions

UUIDs are fresh, never used up, and compared as text in the one spelling in which the program draws them and the
database gives them back; user and session ids are UUIDs, except that a caller without a user has none; the ids of a bulk logout are UUIDs, as its DTO
demands. One clock, in milliseconds, serves the process, Redis and the database, and does not go back; a day has
86400 seconds; a ttl is computed at the moment its `SET` takes effect. A record is visible strictly before its expiry
moment. JSON encoding, signatures and password hashes are exact: a signature checks out under the key that made it
and no other, and no token verifies that was not issued. Claims follow RFC 7519 (sections 4.1.4 and 4.1.7), the key id RFC 7515 (section 4.1.4).

## Model

| member | source | states |
|---|---|---|
| `DateHelpers.TtlCases` | src/common/helpers/date.ts:8-13 | truncation toward zero: which distances give a negative, zero or positive ttl, and how close a positive one comes |
| `RedisStore.RedisService.Set` | src/modules/cache/cache.service.ts:26-38 | the three ttl cases: no expiry for a missing or zero ttl, no write for a negative one, expiry otherwise |
| `RedisStore.RedisService.Del` | src/modules/cache/cache.service.ts:65-67 | exactly that key goes |
| `RedisStore.GetAfterSet` | src/modules/cache/cache.service.ts:26-50 | what a read finds after a write, at any later moment and for each ttl: the value for ever, until the ttl has passed, or what was there before |
| `RedisStore.SmembersAfterSaddSrem` | src/modules/cache/cache.service.ts:127-159 | a set holds what was added and not removed since, adding and removing undo each other, a text key refuses both, no other key is touched |
| `SessionModel.SessionKeyInjective` | src/modules/auth/session.service.ts:57-59 | two session ids build the same key only if they are equal |
| `SessionModel.UserSessionsKeyInjective` | src/modules/auth/session.service.ts:48-50 | two user ids build the same key only if they are equal |
| `SessionModel.KeysCollide` | src/modules/auth/session.service.ts:48-59 | exactly which session ids build an index key, and that no UUID does |
| `SessionModel.RepresentsUnique` | src/modules/auth/session.service.ts:48-59 | a flat store determines the records and indexes it stands for |
| `SessionModel.SetRepresents` | src/modules/auth/session.service.ts:162-180 | writing a record key changes that record of the two maps and nothing else |
| `SessionModel.DelRepresents` | src/modules/auth/session.service.ts:236-238 | deleting a record key removes that record of the two maps and nothing else |
| `SessionModel.SaddRepresents` | src/modules/auth/session.service.ts:166-169 | adding to an index key adds to that user's index and nothing else |
| `SessionModel.SremRepresents` | src/modules/auth/session.service.ts:236-239 | removing from an index key removes from that user's index and nothing else |
| `SessionModel.OnlyUuidsAreIndexed` | src/modules/auth/session.service.ts:48-50 | the index key built from anything but a UUID, such as a missing id, is never in the store |
| `SessionModel.SmembersRepresents` | src/modules/auth/session.service.ts:210-211 | the index key of any id, a missing one included, reads as that id's index |
| `SessionModel.GetRepresents` | src/modules/auth/session.service.ts:198-202 | the record key reads as the live record of that id, if any |
| `SessionModel.ForeignIdIsHarmless` | src/modules/auth/session.service.ts:229-242 | a whole logout with an id that is no UUID can change no record and no index |
| `SessionModel.IndexNamedExactly` | src/modules/auth/session.service.ts:48-59 | exactly which session id builds the key of a user's index |
| `SessionModel.AnyGetRepresents` | src/modules/auth/session.service.ts:198-202 | for any text: the live record, nothing, or the wrong type exactly where the key is that of a filled index |
| `SessionModel.AnyDelRepresents` | src/modules/auth/session.service.ts:236-238 | for any text: the deletion takes a record, an index, or nothing |
| `SessionModel.RemoveSessionsStep` | src/modules/auth/session.service.ts:257-263 | one turn of the removal loop extends the removed set by one id |
| `SessionServices.SessionService.StoreSession` | src/modules/auth/session.service.ts:162-170 | the record is written under the ttl cases and the id joins the user's index, in the flat store |
| `SessionServices.SessionService.UpdateSession` | src/modules/auth/session.service.ts:176-180 | the record under the data's own id is overwritten, indexes stay |
| `SessionServices.SessionService.CreateNewSession` | src/modules/auth/session.service.ts:187-191 | stores under the data's own id until its refresh expiry |
| `SessionServices.SessionService.GetSessionById` | src/modules/auth/session.service.ts:198-202 | the live record, nothing, or an error exactly where the key holds a set |
| `SessionServices.SessionService.GetAllSessions` | src/modules/auth/session.service.ts:209-223 | for any user id: the index in Redis's order with missing records dropped |
| `SessionServices.SessionService.RemoveSession` | src/modules/auth/session.service.ts:229-242 | for any string: the record goes and the id leaves the index keyed by itself; fails only where the key holds a set |
| `SessionServices.SessionService.RemoveAllSessions` | src/modules/auth/session.service.ts:249-272 | for any user id: the loop removes exactly the listed ids, or all the user's, from records and index |
| `KeyModel.CurrentExists` | src/modules/key/key.service.ts:165-169 | a table with a usable key of a type has a newest one |
| `KeyModel.RemovalIsDownwardClosed` | src/modules/key/key.service.ts:147-155 | what a removal deletes is a lower part in creation order, so the newest key goes only with all of its type |
| `KeyModel.RotationKeepsSigningKey` | src/modules/key/key-rotation.service.ts:22-33 | a type whose own addition succeeds, whatever the others do, has that key as its newest, and it is there exactly if its removal ran within retention |
| `KeyModel.RotationLeavesNoneExactly` | src/modules/key/key-rotation.service.ts:22-33 | whichever additions succeed, exactly when a rotation leaves a type without a key to sign with |
| `KeyModel.RotationDeletesExactly` | src/modules/key/key-rotation.service.ts:28-31 | of the rows it finds a rotation deletes exactly the refresh keys older than 61 days and the others older than 31 |
| `KeyServices.KeyService.GetKeyById` | src/modules/key/key.service.ts:58-65 | throws exactly for a missing or empty id and for one that is no UUID, otherwise looks the row up |
| `KeyServices.KeyService.AddKeyPair` | src/modules/key/key.service.ts:104-139 | adds one row unless the flag is set or saving fails, and leaves the flag as it was in every case |
| `KeyServices.KeyService.RemoveOldKeys` | src/modules/key/key.service.ts:147-158 | deletes exactly the rows of the type older than the retention date |
| `KeyServices.KeyService.GetCurrentKey` | src/modules/key/key.service.ts:165-181 | the newest usable key, or a new one where there is none; throws exactly if that cannot be made |
| `KeyServices.KeyRotationService.HandleCron` | src/modules/key/key-rotation.service.ts:22-33 | the table after four additions and four removals: exactly the rows past 61 or 31 days go; while the flag is set none is added and a type is left without keys exactly if all it had are past retention |
| `Tokens.SignedVerifiesExactly` | src/modules/auth/jwt.service.ts:193-224 | a signed token verifies, with the claims signed, exactly under its key's type, while the key exists and before `exp` |
| `AuthSystem.StepKeepsInv` | src/modules/auth/auth.service.ts:150-286 | every request keeps records filed and indexed, indexes owned, token ids unique and keys typed |
| `AuthSystem.RunKeepsInv` | src/modules/auth/auth.service.ts:150-437 | so does every run |
| `SessionTheorems.GetAllSessionsIsExact` | src/modules/auth/session.service.ts:209-223 | in every reachable state the answer is exactly the user's live records, each once |
| `SessionTheorems.LogoutAllClears` | src/modules/auth/session.service.ts:249-272 | no record of the user is left anywhere, the index is gone, everybody else's data is unchanged |
| `SessionTheorems.LogoutSessionsIsExact` | src/modules/auth/session.service.ts:249-272 | exactly the listed records and index entries go, other users' records included, whose owners keep the stale id; an empty list changes nothing |
| `SessionTheorems.LogoutLeavesStaleId` | src/modules/auth/session.service.ts:229-242 | after a logout the owner's index still holds the id unless session and owner share it |
| `SessionTheorems.WriteOutcome` | src/modules/cache/cache.service.ts:26-38 | a record write leaves nothing, a record for ever, or one that expires within a second before its refresh token |
| `SessionTheorems.RecordsExpireWithTokens` | src/modules/auth/session.service.ts:162-180 | every record of every run expires at most a second before its refresh token and never after it |
| `SessionTheorems.ExpiryBoundExactly` | src/modules/auth/session.service.ts:162-180 | that bound holds of all runs over UUIDs exactly if the refresh lifetime is not 0 or 1 second |
| `SessionTheorems.ExpRefNeverDecreases` | src/modules/auth/auth.service.ts:224-229 | along any run a session's refresh expiry never moves back |
| `TokenTheorems.RetentionCoversLifetime` | src/modules/key/key-rotation.service.ts:22-33 | with creations at most a gap apart, tokens whose lifetime and the gap fit into the retention verify until `exp` |
| `TokenTheorems.LongTokensOutliveKeys` | src/modules/key/key-rotation.service.ts:22-33 | for any gap, a run over UUIDs in which a longer-lived token loses its key before `exp` |
| `TokenTheorems.LifetimeBoundExactly` | src/modules/key/key-rotation.service.ts:22-33 | for any gap the bound is exact to the millisecond, `exp` being rounded down to a second |
| `TokenTheorems.MonthlyBoundExactly` | src/modules/key/key-rotation.service.ts:22-31 | with monthly creations: 30 days for refresh tokens, nothing for the other three types |
| `TokenTheorems.RemovalSparesCurrent` | src/modules/key/key.service.ts:147-155 | with a gap within retention no removal takes the newest key of a type |
| `TokenTheorems.CurrentNeverOlder` | src/modules/key/key.service.ts:165-173 | the creation moment of the key in use never moves back along a run |
| `TokenTheorems.IssuedVerifiesExactly` | src/modules/auth/jwt.service.ts:193-224 | in every reachable state an issued token verifies exactly under its own type, before `exp`, while its key exists; strategies accept only their own type |
| `TokenTheorems.LastRefreshTokenIsAccepted` | src/modules/auth/strategies/refresh.strategy.ts:54-95 | the last refresh token of an untouched session is accepted exactly until the expiry of the record written with it, through any rotation, and no other token is |
| `TokenTheorems.LastAccessTokenIsAccepted` | src/modules/auth/strategies/jwt.strategy.ts:43-82 | the access token beside it is accepted exactly while session, `exp` and key last, and no other token is |
| `TokenTheorems.IssueIsAccepted` | src/modules/auth/strategies/refresh.strategy.ts:54-95 | a pair is accepted by both strategies at the moment it is issued |
| `JwtServices.JwtServiceLocal.SignWithCurrentKey` | src/modules/auth/jwt.service.ts:33-152 | a token signed by the newest key, or by one made now; throws exactly if there is none and none can be made |
| `JwtServices.JwtServiceLocal.SignTokens` | src/modules/auth/jwt.service.ts:159-171 | refresh token first, access token second, both under one session id, drawn only if none was given, with the claims and lifetimes each should carry; throws exactly if a key is missing for one of them |
| `JwtServices.JwtServiceLocal.Verify` | src/modules/auth/jwt.service.ts:193-224 | throws, refuses or returns the claims, by key lookup, key type, signature and expiry |
| `AuthServices.LoginOpens` | src/modules/auth/auth.service.ts:126-162 | the pair of a login is issued, names the user field by field, lives as configured and is accepted at once; the record holds the client, the user and the pair |
| `AuthServices.RefreshRenews` | src/modules/auth/auth.service.ts:217-237 | the pair of a refresh is issued, names the caller, lives as configured and is accepted at once; the record holds the new pair and keeps the rest |
| `AuthServices.LoginFollows` | src/modules/auth/auth.service.ts:158-162 | a signed pair and a stored record are the protocol's login |
| `AuthServices.RefreshFollows` | src/modules/auth/auth.service.ts:217-229 | a signed pair and an overwritten record are the protocol's refresh |
| `AuthServices.AuthService.OpenSession` | src/modules/auth/auth.service.ts:158-171 | the run, with its flat store and key table, goes on by exactly one login event, and the caller gets the issued pair, about the user by id, e-mail and name, accepted at once; throws exactly if a key is missing, leaving at most a new refresh key |
| `AuthServices.AuthService.Login` | src/modules/auth/auth.service.ts:150-173 | without a live user of that e-mail and password no effect; otherwise that user's login event, pair and record |
| `AuthServices.AuthService.VerifyEmail` | src/modules/auth/auth.service.ts:296-320 | a link that does not work has no effect; one that does makes the token's own `sub` active, no other row changes, and is that user's login event, pair and record |
| `AuthServices.AuthService.ResetPassword` | src/modules/auth/auth.service.ts:331-360 | a link that does not work has no effect; one that does makes exactly the new password accepted for the token's own `sub`, no other row changes, and is that user's login event, pair and record |
| `AuthServices.AuthService.Refresh` | src/modules/auth/auth.service.ts:210-238 | refuses a session that is not live without effect; otherwise one refresh event, and the caller gets the issued pair, about itself, under that session, accepted at once |
| `AuthServices.AuthService.Register` | src/modules/auth/auth.service.ts:181-202 | a taken e-mail has no effect; otherwise the new row of an inactive member stays, and the issued token names it and works as a confirmation link until it expires or its key goes |
| `AuthServices.AuthService.ResendVerificationEmail` | src/modules/auth/auth.service.ts:368-390 | throws exactly without a live user of that e-mail who is neither active nor blocked, or without a key; otherwise a confirmation token naming that user is issued |
| `AuthServices.AuthService.SendResetPassword` | src/modules/auth/auth.service.ts:398-414 | throws exactly without a live user of that e-mail or without a key; otherwise a reset token naming that user is issued |
| `AuthServices.AuthService.Logout` | src/modules/auth/auth.service.ts:265-273 | without a token to decode it throws without effect; otherwise one logout event for whatever id the token carries, an error exactly where that id builds the key of a filled index |
| `AuthServices.AuthService.LogoutAll` | src/modules/auth/auth.service.ts:280-286 | one event that logs the user out everywhere; a caller without an id logs nothing out |
| `AuthServices.AuthService.LogoutSessions` | src/modules/auth/auth.service.ts:431-437 | one event that logs the listed sessions out; for a caller without an id no index changes |
| `AuthServices.AuthService.GetUserSessions` | src/modules/auth/auth.service.ts:421-423 | exactly the caller's live sessions, each once; none for a caller without an id |
| `AuthServices.RotationRuns` | src/modules/key/key-rotation.service.ts:22-33 | the rotation's calls are creation and removal events of a run, and lead to the rotated table |
| `AuthServices.Rotate` | src/modules/key/key-rotation.service.ts:22-33 | the monthly job continues the requests' run by those events |
| `AuthServices.AuthService.ValidatePayload` | src/modules/auth/auth.service.ts:247-257 | accepts exactly if the live session stores the token's id for the asked kind |
| `Interleaving.StepKeepsSound` | src/modules/auth/auth.service.ts:210-229 | every `await` step keeps stored pairs signed and out of flight, and token ids unique |
| `Interleaving.OnePairPerSession` | src/modules/auth/jwt.service.ts:159-171 | under any interleaving a live session validates exactly one access and one refresh id, from one signing call |
| `Interleaving.NeverValidAgain` | src/modules/auth/auth.service.ts:210-229 | a token id once valid and then not is never valid again, with any number of refreshes in flight |
| `Interleaving.GoneStays` | src/modules/auth/session.service.ts:229-242 | a session that is gone and in no writer's hands stays gone |
| `Interleaving.FlightLands` | src/modules/auth/auth.service.ts:217-229 | a request that holds a session can carry it to a live record |
| `Interleaving.ReappearsExactly` | src/modules/auth/auth.service.ts:210-229 | a session that is not live can become live exactly if such a request is in flight |
| `Interleaving.LogoutLands` | src/modules/auth/session.service.ts:229-272 | a logout that nothing comes between has, command by command, the effect of the whole request |
| `Interleaving.LogoutUndisturbed` | src/modules/auth/session.service.ts:229-272 | a logout of one id, of a list or of all, step by step from its first, leaves what the whole request leaves |
| `Interleaving.LoginUndisturbed` | src/modules/auth/auth.service.ts:158-162 | so do the four steps of a login |
| `Interleaving.RefreshUndisturbed` | src/modules/auth/auth.service.ts:210-229 | so do the four steps of a refresh |
| `Interleaving.NeverLostExactly` | src/modules/auth/session.service.ts:162-272 | along a run no session is ever live and missing from its owner's index exactly if every step is harmless: takes no live session's id out, and writes back no session that is not indexed |
| `Interleaving.StaysIndexedExactly` | src/modules/auth/session.service.ts:162-272 | along a run every session that is live, or held by a refresh that can still write it, is indexed exactly if no step takes such a session's id out |
| `Interleaving.CanBeLostExactly` | src/modules/auth/session.service.ts:229-272 | from any reached moment a session can become live and missing from its index exactly if it is live or a request in flight can make it so |
| `Interleaving.ReturnsLostExactly` | src/modules/auth/auth.service.ts:210-229 | after a logout has taken record and index entry away, that happens exactly if a refresh that read the record can still write it, and then that refresh alone is enough |
| `Interleaving.RefreshOutrunsLogout` | src/modules/auth/session.service.ts:249-272 | the run in question, step by step: read, a whole logout everywhere, two signatures, write |
| `Interleaving.DropOutrunsLogin` | src/modules/auth/session.service.ts:267-271 | a bulk logout's last command deletes the index entry of a login whose two commands came after its check |
| `Interleaving.ForeignLogoutOutrunsLogin` | src/modules/auth/session.service.ts:229-238 | a logout of the text "user:" and a user's id reads no key, the user logs in, and the logout deletes the user's index |
| `InterleavedStore.StoreFollowsMaps` | src/modules/auth/session.service.ts:162-272 | however the commands of requests interleave, the flat store holds exactly the records and indexes of the maps |
| `InterleavedStore.ReadsFindWhatIsStored` | src/modules/auth/session.service.ts:198-232 | a refresh or a logout goes on exactly where the flat store gives the reply it goes on from, for any text as id |
| `InterleavedStore.ListingsFindWhatIsStored` | src/modules/auth/session.service.ts:252-267 | a logout everywhere goes on with the members that the flat store answers with |
| `InterleavedStore.RecordsExpireExactly` | src/modules/auth/session.service.ts:162-180 | along a run every record expires with its refresh token exactly if no write falls within a second of that token's expiry |
| `InterleavedStore.LateWriteStays` | src/modules/cache/cache.service.ts:26-38 | such a write can happen with any lifetime, and its record never expires |
| `InterleavedStore.NeverBackExactly` | src/modules/auth/auth.service.ts:224-229 | along a run a session's refresh expiry never moves back exactly if no write stores an older one than was stored before |
| `InterleavedStore.OlderRefreshWritesLast` | src/modules/auth/auth.service.ts:210-229 | two refreshes that write in the order opposite to their signatures move it back |
| `KeyCreation.OneCreationAtATime` | src/modules/key/key.service.ts:104-139 | the flag is set exactly while one creation is in flight, never two, and rows grow by the saved creations |
| `KeyCreation.TurnLeavesNoneExactly` | src/modules/key/key-rotation.service.ts:22-33 | amid any acts that save or delete no other row of the type, exactly when a rotation's call and removal leave the type without a key; a call that meets the flag saves none |
| `KeyCreation.SkippedTurnRuns` | src/modules/key/key.service.ts:104-109 | a run in which a key of one type being saved makes the rotation take another type's last keys |
| `Pagination.PageIsPrefix` | src/modules/user/user.service.ts:263-289 | a cursor page is the ordered first rows beyond its cursor, says that there are more and has a next cursor exactly if full, and gives its cursor back |
| `Pagination.NextPageIsEmptyExactly` | src/modules/user/user.service.ts:284-289 | a page that says there are more is followed by an empty one exactly if its rows were the last |
| `Pagination.PageSkipsNothing` | src/modules/user/user.service.ts:263-289 | what a page leaves out lies beyond its next cursor |
| `Pagination.WalkOfChangingTable` | src/modules/user/user.service.ts:247-291 | on a table that changes between requests: strict order, no id twice, only live rows, and nothing missed that was live throughout |
| `Pagination.CursorWalkListsTable` | src/modules/user/user.service.ts:247-291 | on a still table: exactly the live rows in order, in floor(rows / limit) + 1 requests |
| `Pagination.SearchRespectsCursorExactly` | src/modules/user/user.service.ts:263-275 | when a search honours the cursor, exactly |
| `Pagination.SearchCanRepeat` | src/modules/user/user.service.ts:263-289 | a search that offers the same page as its own next page |
| `Pagination.NextAndPrevious` | src/modules/user/user.service.ts:210-220 | a next page exists exactly before the last, and previous undoes next |
| `Pagination.PageSaysWhere` | src/modules/user/user.service.ts:208-220 | an offset page has the rows at its places and says its page and limit, the number of rows that pass the filter, the least number of pages that hold them, and its neighbours |
| `Pagination.OffsetWalkListsAll` | src/modules/user/user.service.ts:171-220 | for any filter and tie-free order the pages from 1 on are the whole list, in max(1, totalPages) pages |
| `Pagination.WalksAgree` | src/modules/user/user.service.ts:185-281 | both listings walk through the same rows in the same order, for any two limits |
| `UserModel.EmailsStayUnique` | src/modules/user/user.service.ts:67-113 | over any sequence of requests no two rows, live or soft-deleted, share an e-mail |
| `UserModel.DeletedEmailStaysReserved` | src/modules/user/user.service.ts:369-417 | until a restore, every creation, registration and update to a soft-deleted user's e-mail is refused, and the restore brings the row back as it was |
| `UserModel.VerifiedOnce` | src/modules/user/user.service.ts:545-557 | a user once verified is refused another verification for ever after |
| `UserModel.LoginTakesLastPassword` | src/modules/user/user.service.ts:98-113 | over any sequence of requests a live user's login takes exactly the password set last, by creation, registration, update or reset |
| `UserModel.ResetSetsPassword` | src/modules/user/user.service.ts:562-569 | after a reset exactly the new password is accepted, and nothing else has changed |
| `UserModel.UpdateSetsParts` | src/modules/user/user.service.ts:454-485 | an update changes exactly the parts given |
| `UserModel.DeleteFreesEmail` | src/modules/user/user.service.ts:139-145 | a hard deletion takes the row and gives its e-mail free again |
| `UserModel.RegisteredCanConfirm` | src/modules/user/user.service.ts:529-557 | a registered user is an inactive member with the password asked for, and can be confirmed once |
| `MailLinks.LinkWorksExactly` | src/modules/auth/auth.service.ts:296-341 | an issued link works exactly as its own kind, before `exp`, while its key exists and its user is live, and to confirm, not active |
| `MailLinks.ConfirmationWorksOnce` | src/modules/auth/auth.service.ts:296-303 | once a user is confirmed no confirmation link of that user ever works again |
| `MailLinks.ResetWorksUntilExpiry` | src/modules/auth/auth.service.ts:331-343 | a reset link goes on working, however often links are followed, until `exp`, its key's removal or its user's deletion |
| `Accounts.BlockedStaysBlocked` | src/modules/auth/auth.service.ts:375-377 | a blocked user stays blocked while the row exists, and no confirmation token is ever issued for it |
| `Accounts.EventsRun` | src/modules/auth/auth.service.ts:150-437 | the protocol's half of a joint run is a run of the protocol by exactly the run's events |
| `Accounts.RequestsServe` | src/modules/user/user.service.ts:98-569 | the rows' half of a joint run is served by exactly the run's requests |
| `UserServices.UserService.FindByEmail` | src/modules/user/user.service.ts:492-504 | the one live row with the e-mail, if there is one |
| `UserServices.UserService.CreateHandler` | src/modules/user/user.service.ts:98-113 | conflict if any row has the e-mail, otherwise the new row with the hash of the password and the given role and status |
| `UserServices.UserService.Register` | src/modules/user/user.service.ts:529-537 | conflict if any row has the e-mail, otherwise the new row of an inactive member |
| `UserServices.UserService.UpdateHandler` | src/modules/user/user.service.ts:454-485 | refuses an unknown row or a new e-mail that another row has, otherwise changes exactly the given parts |
| `UserServices.UserService.SoftDeleteHandler` | src/modules/user/user.service.ts:407-417 | marks a live row, refuses any other |
| `UserServices.UserService.RestoreHandler` | src/modules/user/user.service.ts:369-381 | unmarks a soft-deleted row, refuses a live one and an unknown one differently |
| `UserServices.UserService.DeleteHandler` | src/modules/user/user.service.ts:139-145 | removes a live row, refuses any other |
| `UserServices.UserService.VerifyEmail` | src/modules/user/user.service.ts:545-557 | activates a live row once |
| `UserServices.UserService.ResetPassword` | src/modules/user/user.service.ts:562-569 | replaces the password hash of a live row |

## Left out

- RSA, AES, bcrypt, base64 and JSON are library calls: tokens carry the identity of the key that signed them, passwords a symbolic hash.
- The user lookup inside `validatePayload` is not modelled: its result is spread into a new object and does not decide acceptance. What it finds for a token without `sub` and `email` is up to the ORM; the caller's id is a parameter.
- `AuthService.validateUser`, the blacklist and whitelist helpers and the token cache are outside the login, refresh and logout flows.
- The remaining Redis wrappers are thin calls; controllers, cookies, guards, mail, queues, logging and translations are plumbing.
- The update of `payload.sessionId` inside `signRefreshToken` is modelled on values: every caller passes a new object, so the aliasing is not observable.
- User rows are not part of the interleavings: following a link and deleting its user are whole requests.
- The four signers differ only in key type, lifetime and claims and are one method with the type as a parameter.
- Calendar and daylight-saving effects of `setDate` are replaced by 86400-second days.
- The `withDeleted` branches of both listings, limits below 1 and sort keys with ties are not part of the listing theorems.
- Listings are specified over ordered sets as functions; the generated SQL and its execution are not modelled.
- E-mail uniqueness is stated for whole requests; a race between two check-then-save requests is left to the database's own constraint.
- At `await` grain a command that fails ends its request; the second command of the same `Promise.all`, which would still run, does not.
