# auth-service: the credential store, the revocation store and the handlers over them

auth-service is an authentication and authorization backend. It keeps users and
permissions in a relational store. It issues access and refresh JWTs that carry
the user's permission ids. It revokes tokens by writing ban markers into Redis.
This project models its core as abstract state, and proves what each operation
does to that state:

- **Credential store** (`Models`): the `user` and `permission` tables and the
  `user_permission` association. Each user row keeps its permission ids in
  list order. `Models.Valid` states the schema's guarantees: primary keys,
  unique logins over live and deleted rows, unique permission names, column
  lengths, no duplicate association rows, and foreign keys.
- **Revocation store** (`Redis`): a map from structured `Key`s to 1-tuples
  with their expiry, read back the way `RedisService.get` reads them. A stored
  `None` reads as the caller's plug; an absent key reads as `None`.
- **Revocation engine** (`JwtService`): `check_banned` and the two ways other
  components write ban markers. The first is one user's two global cutoffs.
  The second is the batched dictionaries written by `pipe_set`. `Revoked` is
  an independent statement of when a token counts as revoked.
- **Permission administration** (`PermissionManagement`, `RightsManagement`):
  create, delete, update, assign, take away and list permissions. Each runs on
  a `Models.State`, which pairs the database with the revocation store. Each
  operation is a specification function returning a `Results.Step` (what the
  call returned or raised, and the state it left). The service classes' methods
  are proved equal to these functions. The loops that collect ban markers are
  methods with invariants.
- **Users and the auth handlers** (`Users`, `Auth`): get by login or by id,
  registration (which revives a soft-deleted row), login, logout, logout from
  all devices, password change, account deletion and refresh.
- **Authorization rule** (`AuthHelpers`): `check_permissions`.
- **Administrator bootstrap** (`AdminInit`): `create_admin` and `delete_admin`.
- **Failures** (`Errors`): which failure each `raise` is, and the HTTP status
  the application answers with.

Fresh randomness (uuid4 ids, jtis, salts) and the clock are parameters of the
operations that use them (`newId`, `jti`, `salt`, `now`). The key-derivation
function is a parameter of `Passwords.PasswordService`. The JWT library's
signing and verification are outside the model. A handler is given the
decoded, accepted token records (`Tokens.TokenData`), and the tokens it issues
are their claims (`Tokens.RawToken`).

Where the written description of the system and the code disagree, the model
follows the code:

- A global cutoff bans a token when it is strictly greater than the token's
  issue time (`>`), not when it is greater or equal.
- A `ResponseError` always answers 421, whatever status code it names.
- `logout` stores the jti, not the token.

## Model

| member | source | states |
|---|---|---|
| Errors.Error.Status | src/main.py:66-68 | The status is one of 401, 403, 421, 500; it is 421 exactly for the failures the auth handlers raise as `ResponseError`. |
| Errors.Error.IntendedStatus | src/services/custom_error.py:11-14 | Each `ResponseError` answers with the code its raise names (409 or 401, never 421); every other failure answers as `Status` does. |
| Errors.ResponseErrorCodeIgnored | src/main.py:66-68 | Every failure raised as `ResponseError(code, detail)` reaches the client as 421, which is not the code it names. |
| Errors.BannedDetail | src/services/jwt_service.py:41-43 | The 401 detail is the token type followed by " token banned". |
| Ids.UuidShape | src/services/redis_service.py:22-29 | A rendered uuid contains no ':' and is never the partition name "all". |
| Passwords.PasswordService.ComputeHashWith | src/services/password_service.py:20-39 | The result records the algorithm, the iteration count and the salt it was made with. |
| Passwords.PasswordService.ComputeHash | src/services/password_service.py:20-39 | With the configured defaults, the result records the configured algorithm and iteration count, and the given salt. |
| Passwords.CheckAcceptsOwnHash | src/services/password_service.py:41-44 | A password always verifies against a hash computed from it, whatever algorithm and iteration count made the hash. |
| Passwords.CheckRefusesOtherPassword | src/services/password_service.py:41-44 | A password whose digest differs from the stored one is refused. |
| Query.Filter | src/services/permission_management_service.py:56 | The filtered rows are exactly the rows that pass, in table order; the first of them is the first passing row. |
| Query.First | src/services/user_service.py:21-28 | `.first()` is None exactly on no rows, and otherwise the first row. |
| Query.One | src/services/permission_management_service.py:57-60 | `.one()` succeeds exactly on one row and returns it; no rows give the caller's not-found failure; more than one gives MultipleResultsFound. |
| Query.OneAgreesWithFirst | src/services/rights_management_service.py:42-53 | When at most one row can pass, `.one()` and `.first()` on the filtered rows agree. |
| Query.FilterKeepsDistinct | src/models/alchemy_model.py:40-41 | Filtering keeps a unique column unique. |
| Query.OneFindsUnique | src/services/permission_management_service.py:136-139 | Over rows unique by some key, when exactly one row passes, `.one()` returns it. |
| Query.TwoRowsNotOne | src/services/permission_management_service.py:56-60 | Two different result rows make `.one()` raise MultipleResultsFound. |
| Redis.KeyString | src/services/redis_service.py:28-29 | `str(Key)` is the three parts joined by ':' at the two computed positions. |
| Redis.Get | src/services/redis_service.py:37-42 | `get` reads as absent exactly when the key is not stored; a found value is never None (a stored None reads as the plug). |
| Redis.Put | src/services/redis_service.py:45-50 | `set` adds exactly the given key to the keys of the store. |
| Redis.PutAll | src/services/redis_service.py:53-62 | `pipe_set` adds exactly the keys of its map. |
| Redis.RedisService.Set | src/services/redis_service.py:45-50 | The store after the call is `Put` of the store before it. |
| Redis.RedisService.PipeSet | src/services/redis_service.py:53-62 | Queueing the entries one at a time and executing them yields `PutAll` of the store before it. |
| Redis.KeyStringInjective | src/services/redis_service.py:28-29 | Two keys whose first two parts contain no ':' and that render to the same string are the same key. |
| Redis.DistinctKeysDistinctStrings | src/services/redis_service.py:28-29 | Different keys with colon-free first parts are stored under different strings. |
| Redis.GetAfterPut | src/services/redis_service.py:37-50 | `get` after `set` on the same key returns the value written (a written None reads as the plug). |
| Redis.GetPutOther | src/services/redis_service.py:37-50 | `set` on one key does not change what `get` returns for another. |
| Redis.GetAfterPutAll | src/services/redis_service.py:37-62 | After `pipe_set`, the keys of the map read back their values with the given expiry; other keys read as before. |
| JwtService.BannedPrefix | src/services/jwt_service.py:34 | The prefix of "access" tokens is "access_banned", and that of "refresh" tokens is "refresh_banned". |
| JwtService.CheckBanned | src/services/jwt_service.py:31-43 | `check_banned` fails exactly when `Revoked` holds: the token's own marker holds None or the token string, or the user's global marker holds None or an int later than the issue time. The failure is 401 for the token's type. |
| JwtService.AccessTokenData | src/services/jwt_service.py:45-55 | The record for the current access token has type "access", the token string, and the subject, jti and issue time of its claims. |
| JwtService.BanUser | src/api/auth.py:128-130 | Banning one user adds exactly its two global markers to the store's keys. |
| JwtService.BanMap | src/services/permission_management_service.py:63-70 | The dictionary maps `Key(prefix, "all", u)` to `now` for each listed user, and holds no other key. |
| JwtService.BanMapAdd | src/services/permission_management_service.py:69-70 | Adding one user to the dictionary adds exactly that user's marker. |
| JwtService.NoMarkersNotBanned | src/services/jwt_service.py:35-41 | With neither marker present, a token is not banned. |
| JwtService.CutoffDecides | src/services/jwt_service.py:40-41 | With only an int cutoff present, the token is banned exactly when the cutoff is strictly after its issue time. |
| JwtService.NonIntCutoffNeverBans | src/services/jwt_service.py:41 | A global marker holding a string never bans through the cutoff branch. |
| JwtService.StoredNoneBans | src/services/jwt_service.py:37-40 | A marker key that exists but holds None reads as the plug, and bans. |
| JwtService.IndividualMarkerBansItsToken | src/services/jwt_service.py:38-39 | The individual marker bans exactly the token string it holds. |
| JwtService.OnlyOwnPrefixMatters | src/services/jwt_service.py:34-41 | A token's verdict depends only on entries under its own type's prefix. |
| JwtService.PrefixesDisjoint | src/services/jwt_service.py:34 | The access and refresh prefixes differ. |
| JwtService.BanUserRevokes | src/api/auth.py:128-130 | After the two global markers are set to `now`, every access or refresh token of the user issued before `now` is banned, whatever the store held. |
| JwtService.BanUsersRevokes | src/services/permission_management_service.py:72-73 | After the two pipelines, every access or refresh token of any listed user issued before `now` is banned. |
| JwtService.BanUserWrites | src/services/permission_management_service.py:149-150 | The two `set`s write both global markers holding `now`, with the configured lifetimes, and change no other entry. |
| JwtService.BanUsersWrites | src/services/permission_management_service.py:72-73 | The two pipelines write both global markers of every listed user, holding `now` with the configured lifetimes, and no other key. |
| JwtService.BanUserBansAll | src/api/auth.py:128-130 | For all tokens: those of the user issued before `now` are banned. |
| JwtService.BanUsersBansAll | src/services/permission_management_service.py:72-73 | For all tokens: those of any listed user issued before `now` are banned. |
| JwtService.BanUserLeavesOthers | src/services/jwt_service.py:31-43 | Banning one user leaves every other user's verdicts unchanged. |
| AuthHelpers.TokenPermissions | src/jwt_auth_helpers.py:52-53 | A token without the claim carries no permission; otherwise exactly the ids of the claim. |
| AuthHelpers.RequiredIds | src/jwt_auth_helpers.py:56-58 | The required ids are exactly the ids of stored permissions whose name is configured. |
| AuthHelpers.CheckPermissions | src/jwt_auth_helpers.py:47-60 | Access passes exactly when the token carries some permission and every required id; otherwise 403. |
| AuthHelpers.EmptyTokenForbidden | src/jwt_auth_helpers.py:59-60 | A missing or empty claim is refused, even when nothing is required. |
| AuthHelpers.UnknownNameImposesNothing | src/jwt_auth_helpers.py:56-58 | A configured name that no stored permission has does not change the verdict. |
| AuthHelpers.MoreNamesStricter | src/jwt_auth_helpers.py:56-60 | Requiring more names can only take access away. |
| AuthHelpers.StaleSnapshotRefused | src/jwt_auth_helpers.py:52-60 | A token lacking the id of a required stored permission is refused: a grant made after issue does not count until a new token carries it. |
| AuthHelpers.RequirementFollowsStore | src/jwt_auth_helpers.py:54-60 | A token with some permission and every id of the required stored permissions passes. |
| Models.NewUser | src/models/alchemy_model.py:36-54 | A new user row is live, holds no permission, and has the given id, login and password. |
| Models.Holders | src/services/permission_management_service.py:65 | An id is a holder exactly when some row with that id holds the permission. |
| Models.HoldersSnoc | src/services/permission_management_service.py:65-66 | Scanning one more row adds its id to the holders exactly when it holds the permission. |
| Models.RemoveFirst | src/services/permission_management_service.py:68 | `list.remove(x)` drops one occurrence of `x`: the multiset loses exactly `x`. |
| Models.NoDuplicatesTail | src/models/alchemy_model.py:28-33 | A duplicate-free list's tail is duplicate-free and does not contain its head. |
| Models.RemoveFirstNoDuplicates | src/models/alchemy_model.py:28-33 | On a duplicate-free list, `remove(x)` removes `x` entirely, keeps every other id, and stays duplicate-free. |
| Models.ReplaceUser | src/models/alchemy_model.py:36-54 | Updating one row in place replaces exactly the rows with its id and keeps the table's length. |
| Models.Resolve | src/services/permission_management_service.py:151-157 | Every listed row is a stored permission whose id is in the list. |
| Models.Detach | src/services/permission_management_service.py:68 | Detaching keeps the row's id, login, password and flag, and shortens its list by one when the row held the permission. |
| Models.DetachRemoves | src/services/permission_management_service.py:67-68 | Detaching removes exactly that id from a duplicate-free list, which stays duplicate-free. |
| Models.DetachAll | src/services/permission_management_service.py:66-68 | Every row is replaced by its detached copy. |
| Models.WithoutPermission | src/services/permission_management_service.py:74 | The table keeps exactly the rows with another id. |
| Models.DeletePermissionRows | src/models/alchemy_model.py:60-65 | Deleting a permission leaves the table without exactly that id, with unique ids and names, and every value within its column. |
| Models.DeletePermissionUsers | src/models/alchemy_model.py:28-33 | The cascade detaches exactly that id from every user row, and every list stays duplicate-free. |
| Models.DeletePermissionValid | src/models/alchemy_model.py:28-33 | Deleting a permission with its cascaded association rows keeps `Valid`. It removes exactly that id, leaves nobody holding it, and changes no user's other permissions. |
| Models.ReplaceUserValid | src/models/alchemy_model.py:36-54 | Replacing a row by a copy with the same id and login, a duplicate-free list and existing permissions keeps `Valid`, and replaces only that row. |
| Models.ReplacePermission | src/services/permission_management_service.py:82-87 | The UPDATE replaces exactly the rows with the given id and keeps the table's length. |
| Models.ResolveComplete | src/services/permission_management_service.py:154-157 | When every id names a stored permission, the listing has one row per id, with that id, in list order. |
| Models.SameIdSameRow | src/models/alchemy_model.py:63 | In a valid table, a permission id names one row. |
| Models.ReplacePermissionOne | src/models/alchemy_model.py:63 | Only the row itself carries its id, so only it is replaced. |
| Models.ReplacePermissionValid | src/models/alchemy_model.py:60-65 | Replacing a permission row by one with the same id keeps `Valid` when the new name is no other row's name and the values fit their columns. |
| PermissionManagement.Matching | src/services/permission_management_service.py:56 | The matched rows are exactly those the selector's name or id picks (a None field matches nothing). |
| PermissionManagement.Named | src/services/permission_management_service.py:42 | The lookup by name is empty exactly when no row has the name. |
| PermissionManagement.FindPermission | src/services/permission_management_service.py:56-60 | The found row is picked by the selector and is the only such row. "Does not exist" happens exactly when no row is picked; otherwise the failure is MultipleResultsFound. |
| PermissionManagement.FindUser | src/services/permission_management_service.py:126-139 | The found row is live, picked by id or login, and the only such row. "Does not exist" happens exactly when no live row is picked. |
| PermissionManagement.View | src/services/permission_management_service.py:151-158 | The response carries the user's id and login. |
| PermissionManagement.Apply | src/services/permission_management_service.py:85 | The updated row keeps its id and takes exactly the columns the change sets. |
| PermissionManagement.WithPermission | src/services/permission_management_service.py:146 | `append` puts the id at the end of the list and changes nothing else. |
| PermissionManagement.Insert | src/services/permission_management_service.py:46-49 | The commit succeeds exactly when the name and description fit and the id is free, and then appends the row; otherwise it changes nothing. |
| PermissionManagement.CreateSpec | src/services/permission_management_service.py:41-50 | "Already exists" happens exactly when some row has the name. Success means the name is free, the values fit and the id is free, and appends the row. Failure changes nothing. |
| PermissionManagement.DeleteSpec | src/services/permission_management_service.py:52-76 | A blank selector fails with "not enough info". Success happens exactly when the selector finds one row; a lookup failure is passed on. Failure changes nothing. |
| PermissionManagement.UpdateSpec | src/services/permission_management_service.py:78-106 | A blank selector or change fails with "not enough info". "Does not exist" happens exactly when nothing is picked. Success happens exactly when one row is found, the values fit, and no other row has the new name. Failure changes nothing. |
| PermissionManagement.AssignSpec | src/services/permission_management_service.py:116-160 | Blank selectors fail with "not enough info". Success happens exactly when both lookups find one row and the user does not already hold the permission. Failure changes nothing. |
| PermissionManagement.TakeAwaySpec | src/services/permission_management_service.py:162-207 | Blank selectors fail with "not enough info". Success happens exactly when both lookups find one row and the user holds the permission. Failure changes nothing. |
| PermissionManagement.DetachHolders | src/services/permission_management_service.py:62-70 | The loop detaches the permission from every holder. Its two dictionaries hold a marker for exactly the holders. |
| PermissionManagement.CollectBans | src/services/permission_management_service.py:95-101 | The loop's two dictionaries hold a marker for exactly the holders. |
| PermissionManagement.BanStep | src/services/permission_management_service.py:99-101 | One more scanned user adds its marker exactly when it holds the permission. |
| PermissionManagement.PermissionManagementService.Create | src/services/permission_management_service.py:41-50 | The result and the new state are those of `CreateSpec`. |
| PermissionManagement.PermissionManagementService.Delete | src/services/permission_management_service.py:52-76 | The result and the new state are those of `DeleteSpec`. |
| PermissionManagement.PermissionManagementService.Update | src/services/permission_management_service.py:78-106 | The result and the new state are those of `UpdateSpec`. |
| PermissionManagement.PermissionManagementService.GetAll | src/services/permission_management_service.py:108-114 | The listing holds every row of the table and nothing else. |
| PermissionManagement.PermissionManagementService.Assign | src/services/permission_management_service.py:116-160 | The result and the new state are those of `AssignSpec`. |
| PermissionManagement.PermissionManagementService.TakeAway | src/services/permission_management_service.py:162-207 | The result and the new state are those of `TakeAwaySpec`. |
| PermissionManagement.PermissionManagementService.GetUserPermissions | src/services/permission_management_service.py:209-233 | A blank selector fails with "not enough info", and a lookup failure is passed on. Success gives the user's permission rows in list order. |
| PermissionManagement.FindUserAfterReplace | src/services/permission_management_service.py:126-139 | After a row is updated in place, keeping its id, login and flag, the same selector finds the updated row. |
| PermissionManagement.CreateKeepsValid | src/services/permission_management_service.py:41-50 | `create` keeps `Valid`. |
| PermissionManagement.AmbiguousSelectorFails | src/services/permission_management_service.py:56-60 | A selector whose id picks one row and whose name picks another makes delete, assign and take_away raise MultipleResultsFound and change nothing. |
| PermissionManagement.DeleteRevokes | src/services/permission_management_service.py:52-76 | After `delete`, `Valid` holds and exactly that id is gone. Nobody holds it; every other association is kept. Every former holder's two markers hold `now`, so its earlier tokens are refused. |
| PermissionManagement.UpdateNameCollision | src/services/permission_management_service.py:88-93 | A new name already carried by a row the selector does not pick gives "already exists" and changes nothing. |
| PermissionManagement.UpdateChangesOnlyRequested | src/services/permission_management_service.py:82-89 | `update` changes only the requested columns of the one matched row, and no association. |
| PermissionManagement.UpdateKeepsValid | src/services/permission_management_service.py:78-106 | `update` keeps `Valid`. |
| PermissionManagement.UpdateBansHolders | src/services/permission_management_service.py:95-104 | After `update`, every holder's two markers hold `now`, so its earlier tokens are refused. |
| PermissionManagement.GrantedListValid | src/services/permission_management_service.py:141-146 | The list that `assign` builds has no duplicate and names only stored permissions. |
| PermissionManagement.AssignGrants | src/services/permission_management_service.py:141-159 | After `assign`, `Valid` holds. The user's list gains exactly that id at its end, and no other row changes. |
| PermissionManagement.AssignAnswer | src/services/permission_management_service.py:151-158 | `assign` answers with the user's permission rows in list order, the new one last. |
| PermissionManagement.AssignAndTakeAwayBan | src/services/permission_management_service.py:148-150 | After `assign` or `take_away`, both global markers of the user hold `now`, so its earlier tokens are refused. |
| PermissionManagement.TakeAwayRevokes | src/services/permission_management_service.py:187-206 | After `take_away`, `Valid` holds. The user loses exactly that id and keeps every other; no other row changes. The answer is one row shorter and no longer lists it. |
| PermissionManagement.TakeAwayTwice | src/services/permission_management_service.py:187-190 | A second `take_away` answers "does not hold" and changes nothing. |
| PermissionManagement.AssignTwice | src/services/permission_management_service.py:141-144 | A second `assign` answers "already holds" and changes nothing. |
| PermissionManagement.ListedPermissionsAreHeld | src/services/permission_management_service.py:209-233 | `get_user_permissions` lists exactly the ids the user holds, in order, each as its stored row. |
| RightsManagement.Raise | src/services/rights_management_service.py:60-61 | A failure the service raises itself propagates as TypeError; a library failure propagates unchanged. |
| RightsManagement.Reraise | src/services/rights_management_service.py:55-200 | The state is kept and success is kept; each failure is raised the way this service raises it. |
| RightsManagement.RightsCreateSpec | src/services/rights_management_service.py:42-53 | Success implies that no row had the name. Failure changes nothing. |
| RightsManagement.RightsManagementService.Create | src/services/rights_management_service.py:42-53 | The result and the new state are those of `RightsCreateSpec`. |
| RightsManagement.RightsManagementService.Delete | src/services/rights_management_service.py:55-79 | The result and the new state are `DeleteSpec`'s, with failures raised as TypeError. |
| RightsManagement.RightsManagementService.Update | src/services/rights_management_service.py:81-109 | The result and the new state are `UpdateSpec`'s, with failures raised as TypeError. |
| RightsManagement.RightsManagementService.GetAll | src/services/rights_management_service.py:111-117 | The listing holds every row and nothing else. |
| RightsManagement.RightsManagementService.Assign | src/services/rights_management_service.py:119-158 | The result and the new state are `AssignSpec`'s, with failures raised as TypeError. |
| RightsManagement.RightsManagementService.TakeAway | src/services/rights_management_service.py:160-200 | The result and the new state are `TakeAwaySpec`'s, with failures raised as TypeError. |
| RightsManagement.RightsManagementService.GetUserRights | src/services/rights_management_service.py:202-223 | Blank selectors and missing users end as TypeError; an ambiguous selector ends as MultipleResultsFound. Success gives the user's rows in list order. |
| RightsManagement.RightsCreateAgrees | src/services/rights_management_service.py:42-53 | With unique names, this `create` is the permission service's `create` with "already exists" raised as TypeError. |
| RightsManagement.RightsCreateOnDuplicateNames | src/services/rights_management_service.py:43-47 | With two rows of the name, this `create` fails with MultipleResultsFound where the permission service answers "already exists". |
| RightsManagement.NoHandledFailureEscapes | src/services/rights_management_service.py:55-200 | No failure this service means to report reaches its caller as such. |
| Users.GetUserSpec | src/services/user_service.py:21-28 | The row found has the login and exactly the deleted flag asked for; None means that no row has both. |
| Users.GetUserByIdSpec | src/services/user_service.py:30-37 | The row found is live with that id; None means that no live row has it. |
| Users.CreateUserSpec | src/services/user_service.py:39-54 | On success the row has the login, is live, stores the hash of the password and is in the table. A soft-deleted row with the login is revived under its own id. Otherwise the new row is a fresh row with the new id, no permissions and the hash, appended to the user table, with the permission table unchanged. Creation fails exactly when no soft-deleted row has the login and the login is over 60 characters or the id or login is taken. Failure changes nothing. |
| Users.DeleteUserSpec | src/services/user_service.py:56-60 | Soft deletion keeps the permission table and the number of user rows. |
| Users.ChangePasswordSpec | src/services/user_service.py:62-65 | A password change keeps the permission table and the number of user rows. |
| Users.UserService.GetUser | src/services/user_service.py:21-28 | The answer is `GetUserSpec` on the session. |
| Users.UserService.GetUserById | src/services/user_service.py:30-37 | The answer is `GetUserByIdSpec` on the session. |
| Users.UserService.CreateUser | src/services/user_service.py:39-54 | The result and the new table are those of `CreateUserSpec`. |
| Users.UserService.DeleteUser | src/services/user_service.py:56-60 | The new table is that of `DeleteUserSpec`. |
| Users.UserService.ChangePassword | src/services/user_service.py:62-65 | The new table is that of `ChangePasswordSpec`. |
| Users.CreateUserRevives | src/services/user_service.py:40-47 | Registering a soft-deleted login revives that row: the same id, the new password, live, and no other row changes; `Valid` holds. |
| Users.CreateUserKeepsValid | src/services/user_service.py:39-54 | `create_user` keeps `Valid`. |
| Users.DeleteUserClears | src/services/user_service.py:56-60 | After `delete_user`, `Valid` holds. The row is deleted and holds nothing, and it no longer resolves by id; no other row changes. |
| Users.ChangePasswordOnlyPassword | src/services/user_service.py:62-65 | After `change_password`, `Valid` holds and only the row's password changes. The new password verifies. |
| Auth.Unbanned | src/api/auth.py:230-237 | The handler goes on exactly when the token is not revoked; otherwise 401 for its type. |
| Auth.RegisterSpec | src/api/auth.py:42-51 | "Login taken" happens exactly when a live user has the login. Failure changes nothing; success gives a live row with the login. |
| Auth.LoginSpec | src/api/auth.py:60-77 | Success means a live user with the login whose hash checks. Both tokens are issued at `now` for that user, carry its permission ids, and expire after their configured lifetimes. Otherwise the answer is 401. |
| Auth.LogoutSpec | src/api/auth.py:86-107 | The call fails exactly when the access token is revoked; failure changes nothing. Success adds exactly the two individual markers, both under the access token's user. Each holds its token's jti and expires after that token's `exp - now` seconds. Every other entry is kept. |
| Auth.LogoutIntendedSpec | src/api/auth.py:86-107 | The same guard, with the markers holding the token strings. |
| Auth.LogoutAllSpec | src/api/auth.py:116-132 | The call fails exactly when the token is revoked, and then changes nothing. Success adds exactly the user's two global markers. Each holds `now` and expires after the configured access or refresh lifetime. Every other entry is kept. |
| Auth.ChangePasswordHandlerSpec | src/api/auth.py:142-162 | Success means the token is not revoked, a live user has its id, and the old password checks. Failure changes nothing. The revocation store never changes. |
| Auth.DeleteHandlerSpec | src/api/auth.py:172-195 | The call fails exactly when the token is revoked. Success bans the user in every case, and changes no row when no live user has the id. |
| Auth.RefreshSpec | src/api/auth.py:205-221 | The call fails exactly when the refresh token is revoked. Success issues an access token at `now` for the same user, carrying the refresh token's permissions. |
| Auth.AuthHandlers.Register | src/api/auth.py:42-51 | The result and the new table are those of `RegisterSpec`. |
| Auth.AuthHandlers.Login | src/api/auth.py:60-77 | The answer is `LoginSpec` on the session. |
| Auth.AuthHandlers.Logout | src/api/auth.py:86-107 | The result and the new store are those of `LogoutSpec`. |
| Auth.AuthHandlers.LogoutAll | src/api/auth.py:116-132 | The result and the new store are those of `LogoutAllSpec`. |
| Auth.AuthHandlers.ChangePassword | src/api/auth.py:142-162 | The result and the new state are those of `ChangePasswordHandlerSpec`. |
| Auth.AuthHandlers.Delete | src/api/auth.py:172-195 | The result and the new state are those of `DeleteHandlerSpec`. |
| Auth.AuthHandlers.Refresh | src/api/auth.py:205-221 | The answer is `RefreshSpec` on the store. |
| Auth.LoginDecides | src/api/auth.py:64-70 | With unique logins, `login` succeeds exactly when the password checks against the live user's hash, and then it is for that user. |
| Auth.RegisterKeepsLoginsUnique | src/api/auth.py:42-51 | `register` keeps `Valid`; the registered user is the only row with its login. |
| Auth.RegisterThenLogin | src/api/auth.py:42-77 | Registering and then logging in with the same password succeeds, as the registered user. |
| Auth.LogoutLeavesTokensUsable | src/api/auth.py:100-105 | As written, `logout` of unrevoked tokens whose strings differ from their jtis leaves both tokens unrevoked. |
| Auth.LogoutIntendedRevokes | src/api/auth.py:100-105 | Storing the token strings revokes both tokens. |
| Auth.LogoutAllRevokes | src/api/auth.py:116-132 | After `logout_all`, every token of the user issued before `now` is refused, and no other user's verdict changes. |
| Auth.ChangePasswordThenLogin | src/api/auth.py:142-162 | After `change_password`, `Valid` holds and the new password logs in as the same user. |
| Auth.DeleteLeavesNoLiveLogin | src/services/user_service.py:56-60 | After soft deletion, `Valid` holds and no live row has the user's id or login. |
| Auth.DeleteEndsAccount | src/api/auth.py:172-195 | After `delete`, the account neither resolves by id nor logs in, and every token of it issued before `now` is refused. |
| Auth.DeleteThenRegisterKeepsId | src/services/user_service.py:40-47 | Deleting an account and registering its login again revives the same row, with the same id and no permission. |
| Auth.RefreshAfterTakeAwayRefused | src/api/auth.py:205-221 | `refresh` issues the refresh token's permission snapshot, but after `take_away` every refresh token issued before the change is refused. |
| AdminInit.FindAdmin | admin_init.py:45-47 | The row found is named "admin"; None means that no row is. |
| AdminInit.AdminCount | admin_init.py:61 | No admin permission counts zero. A zero count means that nobody holds it. |
| AdminInit.CreateAdminUser | admin_init.py:23-36 | `Exit` happens exactly when a live user has the login; otherwise the result is a fresh live row with no permission. |
| AdminInit.CommitAdmin | admin_init.py:54 | Failure changes nothing. Success appends the user, and the permission when it is new. |
| AdminInit.CreateAdminSpec | admin_init.py:39-54 | Failure happens exactly when a live user has the login, the login is over 60 characters, the id or login is taken, or a new "admin" permission's id is taken. Failure commits nothing. Success appends exactly one new live row with the login, the password's hash and the admin permission as its only permission. The permission table is unchanged when "admin" exists, and otherwise gains only the new "admin" row. |
| AdminInit.RemoveUser | admin_init.py:69 | The table keeps exactly the rows with another id. |
| AdminInit.DeleteAdminSpec | admin_init.py:57-70 | `Exit` happens exactly when no row has the login, and then changes nothing. |
| AdminInit.DeleteAdminIntendedSpec | admin_init.py:57-70 | The same exit; the admin permission goes only with its last holder. |
| AdminInit.AdminCli.CreateAdmin | admin_init.py:39-54 | The result and the new tables are those of `CreateAdminSpec`. |
| AdminInit.AdminCli.DeleteAdmin | admin_init.py:57-70 | The result and the new tables are those of `DeleteAdminSpec`. |
| AdminInit.CommitAdminValid | admin_init.py:49-54 | Committing a new user that holds only the admin permission keeps `Valid`, whether that permission is new or stored. |
| AdminInit.CommitAdminUsers | admin_init.py:54 | The committed user table keeps its primary key and unique logins. |
| AdminInit.CreateAdminGrants | admin_init.py:39-54 | On success, `Valid` holds and a live user with the login holds a permission named "admin". |
| AdminInit.CreateAdminRefusesTakenLogin | admin_init.py:26-31 | A live user with the login gives `Exit`. A soft-deleted one is not revived and makes the commit fail. Either way nothing is committed. |
| AdminInit.DeleteAdminEffect | admin_init.py:57-70 | After a successful delete, no row has the login and every other user keeps a row with its id. If the admin count is not exactly one, the permission table and every other row are untouched. Otherwise no permission is named "admin" and nobody holds its id. |
| AdminInit.RemoveLoginRow | admin_init.py:69 | Deleting the user's row removes every row with its login and keeps every other row. |
| AdminInit.DeleteLastAdminLogin | admin_init.py:66-69 | Deleting the admin permission and then the user's row removes every row with its login. |
| AdminInit.AdminPermissionGone | admin_init.py:66-69 | After the admin permission and a user row are deleted, nothing is named "admin" and nobody holds it; every other user's row stays. |
| AdminInit.DeleteAdminStripsOtherAdmin | admin_init.py:61-67 | As written, deleting a non-holder while exactly one other user holds the admin permission deletes the permission: the remaining administrator loses it. |
| AdminInit.DeleteAdminIntendedKeepsOthers | admin_init.py:57-70 | Under the intended reading, deleting a non-holder keeps the permission table and every other user. |
| AdminInit.DeleteAdminIntendedRemovesLast | admin_init.py:57-70 | Under the intended reading, deleting the last administrator deletes the admin permission with it. |
| AdminInit.AdminUnique | admin_init.py:60 | With unique names, the first row named "admin" is the one row named "admin". |
| AdminInit.SoleHolderCounts | admin_init.py:61 | A permission held by exactly one row counts one administrator. |

## Left out

- Signing and verifying JWTs, cookies, `jwt_required` and `jwt_refresh_token_required` (src/custom_auth_jwt.py) belong to the JWT library. Handlers receive decoded, accepted token records; expiry of a token by its `exp` claim is not modelled.
- `checkout_access` and `get_payload` (src/api/auth.py:230-257) are only the ban check of `Auth.Unbanned` followed by returning the payload, so they have no member of their own.
- The key-derivation function (pbkdf2_hmac and base64) is a parameter. Fresh salts, uuid4 ids and jtis are parameters, and so is the clock (`now`).
- Redis time-to-live expiry is recorded with each entry but never applied. Redis refusing a non-positive expiry (a `logout` with an already expired token) is not modelled.
- The retries by `backoff` and the connection errors they retry are not modelled. Pickling is modelled as wrapping in a 1-tuple.
- Concurrency is not modelled: operations are sequential and commits are atomic. The order in which the ORM flushes rows within one commit is not modelled either; only the resulting constraint violation is.
- Auth.RegisterSpec: `register` at src/api/auth.py:50 calls `transfer_user_to_other_services` on the user service with `configs.services_depend_user_id`. The user service defines no such method, so the method lookup raises AttributeError before its argument is evaluated (src/core/config.py declares no `services_depend_user_id` either; a `.env` entry could still supply one, because `Configs` allows extra fields). The AttributeError comes after `create_user` has committed: the row stays and the client gets a 500. `Ok` here stands for the reply the handler evidently intends, and the hand-over to other services over the network is not part of this model.
- Auth.AuthHandlers.Register: has the same gap as `RegisterSpec`, since it is proved equal to it. The committed row is modelled; the AttributeError that follows it is not.
- RightsManagement: src/services/rights_management_service.py imports `CreateRightModel` and `RightOrm` and uses `UserOrm.rights`. The models define none of these, so the module fails at import. The model reads `RightOrm` as the permission table, `rights` as the user's `permissions`, and `CreateRightModel` as the permission model.
- AuthHelpers.RequiredIds: src/jwt_auth_helpers.py:57 reads `configs.names_permission`, but src/core/config.py:30 declares only `names_right`. `Configs` allows extra fields (src/core/config.py:14). Without a `.env` entry named `names_permission`, the lookup raises AttributeError. With one, the value is a string and `in` becomes a substring test. The model takes the configured names as a set, the parameter `names`.
- Auth: src/api/auth.py:18 imports `Payload` from src/models/jwt.py, which defines only `RawToken` and `TokenData`, so the module fails at import. The handlers also call `authorize.get_payload()` and `authorize.raise_banned_jwt(...)` (src/api/auth.py:92, 95, 98, 122, 126), which src/custom_auth_jwt.py and src/jwt_auth_helpers.py do not define. `Tokens.TokenData` reads the payload they return as one decoded token record. It joins the fields `JWTService.check_banned` reads (`user_id`, `name_token`, `token`, `jti`, `iat`; src/services/jwt_service.py:31-40) with the `exp` of src/models/jwt.py and the `permissions` claim. `raise_banned_jwt` is read as the 401 that `check_banned` itself raises.
- Creation and modification timestamps of rows are not modelled.
- The String(60) and String(255) limits on the password columns are not checked at commit.
- Pydantic's validation of request bodies (for example minimum password lengths) happens before the handlers and is not modelled.
- The detail strings of failures are not modelled, only which failure was raised (`BannedDetail` is the exception).
- AdminInit.AdminCount: with no admin permission at all, `delete_admin` counts holders of `None`; the model counts zero, so the permission delete of `None` is not modelled.
- Auth.RefreshSpec does not model the library refusing an access token passed as a refresh token, because that check belongs to the JWT library.
- JwtService.CheckBanned takes the token type as a string; only "access" and "refresh" are ever written by the services.

## Findings

| source | as written | input that shows it | evidently intended | confidence | as-written member | corrected member |
|---|---|---|---|---|---|---|
| src/api/auth.py:104-105 | `logout` stores each token's jti under its marker, but `check_banned` bans only when the marker holds the token string | any access/refresh pair: the encoded JWT string is never equal to its 36-character jti, so both tokens stay usable after logout | store the token strings, so logout revokes both tokens | high (not executed) | Auth.LogoutLeavesTokensUsable | Auth.LogoutIntendedRevokes |
| admin_init.py:61-67 | `delete_admin` deletes the admin permission whenever exactly one user holds it, even when the deleted user is not that holder | alice holds "admin", bob holds nothing; `delete_admin bob` deletes the permission and alice loses it | delete the permission only with its last holder | high (not executed) | AdminInit.DeleteAdminStripsOtherAdmin | AdminInit.DeleteAdminIntendedKeepsOthers |
| src/main.py:66-68 | the one `ResponseError` handler answers 421 whatever status code the raise named | `register` with a taken login answers 421 instead of 409; a wrong password answers 421 instead of 401 | answer with the raise's own status code | high (not executed) | Errors.ResponseErrorCodeIgnored | Errors.Error.IntendedStatus |
