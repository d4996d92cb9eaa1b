# MongoRolesFastAPI core, modelled in Dafny

MongoRolesFastAPI is a FastAPI service that keeps accounts, users, roles and
user-role assignments in four MongoDB collections. Access to it is controlled
by a bearer token that carries the user's `id`, `role` and `account_id`. This
project models the service's core as sequential Dafny and proves what that
core promises:

- **The CRUD layer.** The generic `CRUDBase` runs over one collection:
  `get`, `get_not_active`, `get_by_name`, `get_multi`, `create`, `_update`,
  `_remove` and `partial_remove`. It includes the `Base` document's
  `is_active` default and its `pre_insert`/`pre_update` timestamp hooks,
  and the validation the ODM applies on commit.
- **The entity layers.**
  - The `User` model's field constraints and its account/user-role/role
    aggregation.
  - `CRUDUser`: password hashing on create and update, `authenticate`,
    `get_by_email` and `get_by_account_id`.
  - `CRUDUserRole.get_by_user_id`.
- **The authorization dependency** (`get_current_user`,
  `get_current_active_user`): it decides between the user and a 401.
- **The routers.**
  - `/auth`: login and `hash_password`.
  - `/users`: every handler with its scope list.
  - `/user-roles`: assign and update.
  - `/accounts`: create.
- **The `init_db` bootstrap.**

## How the model is laid out

| module | file | models |
|---|---|---|
| `Wrappers` | wrappers.dfy | `Option` and `Result` |
| `Documents` | documents.dfy | BSON values, records, ObjectIds and their 24-digit text form |
| `Query` | query.dfy | filters, `find`, `find_one`, the cursor's sort by `name` and `skip`/`limit` |
| `ModelBase` | model_base.dfy | the `Base` document: `is_active` default and the timestamp hooks, as a class |
| `Models` | models.dfy | the field declarations of the four models, as a validation predicate |
| `Store` | store.dfy | `CRUDBase` as the class `Collection`, plus the four-collection `Database` |
| `UserModel` | user_model.dfy | the `User` aggregation pipeline |
| `UserSchema` | user_schema.dfy | the `UserInDB` schema that `get_by_email` builds from each joined document |
| `Security` | security.dfy | stand-ins for the password hash and the JSON Web Token |
| `UserCrud`, `UserRoleCrud` | user_crud.dfy, user_role_crud.dfy | `CRUDUser`, `CRUDUserRole` |
| `Deps` | deps.dfy | the authorization dependency |
| `AuthRouter`, `UsersRouter`, `UserRolesRouter`, `AccountsRouter` | the four router files | the endpoints |
| `InitDb` | init_db.dfy | the bootstrap |

Modelling choices:

- **Collections.** A collection is a sequence of records in natural
  (insertion) order. `find_one` is the first match. A cursor loop that
  overwrites a variable keeps the last match. A sort by `name` is stable.
- **Mutation.** `Collection` is a class whose methods reassign its `entries`.
- **Inputs.** The clock (`now`) and the ObjectIds the driver hands out
  (`oid`) are parameters.
- **Errors.** A write that raises inside a handler (a `None` dereference, a
  validation error) returns a `StoreError`, which the routers turn into a 500.
- **Hashing and tokens.** The password hash is a deterministic function of
  the password and a salt passed in. `verify_password` re-hashes with the
  salt read back from the stored hash. A token is the claims, the key and
  an expiry time. `app/core/security.py` is not part of this model.
- **The login, as written and as intended.** `AuthRouter.LoginAccessToken`
  follows the code: it reads the `UserInDB` that `get_by_email` builds, and
  the lemmas beside it show the two ways its tokens fail (see "## Findings").
  `AuthRouter.LoginAccessTokenIntended` reads the joined document itself and
  puts a null `account_id` in the token of a user without an account.
  `AuthRouter.LoginTokenAccepted` is proved about it, and
  `AuthRouter.LoginsAgree` shows that the two logins succeed and fail
  together.

## Model

| member | source | states |
|---|---|---|
| ModelBase.WithDefaults | app/models/base.py:10 | a new document's `is_active` is true unless the input sets it; every input key is kept and no other key is added |
| ModelBase.InsertStamped | app/models/base.py:17-19 | `created_at` and `updated_at` both read the clock; every other field is unchanged and no other key is added |
| ModelBase.UpdateStamped | app/models/base.py:21-22 | only `updated_at` is refreshed; `created_at` and every other field keep their value |
| ModelBase.Document.constructor | app/crud/base.py:44-45 | a new document is not yet written, has no `_id`, and holds the input with the `is_active` default |
| ModelBase.Document.PreInsert | app/models/base.py:17-19 | the document's data becomes its insert-stamped form |
| ModelBase.Document.PreUpdate | app/models/base.py:21-22 | the document's data becomes its update-stamped form |
| ModelBase.Document.Update | app/crud/base.py:62 | every key of the patch is set on the document and the other keys are kept |
| Models.UserFieldBounds | app/models/user.py:10-22 | a user that passed validation has `full_name`, `email` and `hashed_password` of at most 255 characters, `phone_number` of at most 10, and an `account_id` key holding null or an ObjectId, since the field is required though null is allowed |
| Documents.ParseIdString | app/crud/base.py:30-33 | `ObjectId(str(oid)) == oid`: the text form of an id parses back to it |
| Documents.IdStringInjective | app/api/api_v1/routers/auth.py:39 | two ids have the same text form exactly when they are equal |
| Documents.FromHexToHex | app/crud/base.py:32 | reading back the hexadecimal digits of a number gives the number |
| Query.Select | app/crud/base.py:21 | `find` yields exactly the stored records that match, and never more records than it was given |
| Query.SelectAppend | app/crud/base.py:21 | a record appended to a collection ends `find`'s result when it matches and is absent otherwise, after the earlier results unchanged: `find` keeps insertion order |
| Query.FindFirst | app/crud/base.py:31-33 | `find_one` finds a record exactly when one matches, and it is a stored matching record |
| Query.FindFirstIsFirst | app/crud/base.py:31-33 | no record before the one `find_one` returns matches |
| Query.SortByNameDescCorrect | app/crud/base.py:22 | sorting by `name` descending is a permutation of its input and is ordered |
| Query.Window | app/crud/base.py:23-24 | `skip` then `limit`: the records from position `skip` on, as many as the limit allows |
| Store.Get | app/crud/base.py:30-33 | `get` finds a record exactly when one has that `_id` and is active, and returns it |
| Store.StoredIsGot | app/crud/base.py:30-33 | with unique `_id`s, `get` of an active stored record's `_id` returns that record |
| Store.GetNotActive | app/crud/base.py:35-38 | `get_not_active` finds a record exactly when one has that `_id` and is soft-deleted |
| Store.GetByName | app/crud/base.py:40-41 | `get_by_name` finds a record exactly when an active one has that name |
| Store.CursorWindow | app/crud/base.py:20-25 | the cursor yields only matching records, sorted by name descending, no more than the limit, and all matching records when `skip` is 0 and `limit` is 0, which the driver reads as no limit (the callers default to a limit of 100) |
| Store.InsertThenGet | app/crud/base.py:43-48 | after an insert under a fresh `_id`, `get` finds the new record exactly when it is active; lookups of other ids are unchanged |
| Store.SoftDeleteThenGet | app/crud/base.py:71-76 | after a soft delete, `get` misses the record, `get_not_active` finds it, and other ids are unaffected |
| Store.SoftDeletedFields | app/crud/base.py:72-75 | a soft-deleted record is inactive, has a refreshed `updated_at`, keeps every other field including `created_at`, and still passes validation when the record did |
| Store.DeleteThenGet | app/crud/base.py:66-69 | a hard delete leaves one record fewer, `get` misses the id, and the id is gone |
| Store.PutOthers | app/crud/base.py:61-64 | writing a record back changes no lookup that matches only other ids |
| Store.AppendValid | app/crud/base.py:46 | appending a conforming record under a fresh `_id` keeps the collection valid |
| Store.PutValid | app/crud/base.py:63 | writing back a conforming record under its own `_id` keeps the collection valid |
| Store.Collection.Commit | app/crud/base.py:46-63 | a created document with no modified field is returned as it is and nothing is written; a new document is insert-stamped, validated and appended under a fresh `_id`; a changed stored one is update-stamped, validated and written back; a failed validation or a used `_id` changes nothing |
| Store.Collection.GetMulti | app/crud/base.py:16-28 | the loop collects the window of active records sorted by name descending: only active stored records, at most `limit`, in order |
| Store.Collection.Create | app/crud/base.py:43-48 | exactly one record is appended, holding the input with the default and both timestamps, unless validation fails or the `_id` is taken |
| Store.Collection.Update | app/crud/base.py:50-64 | a record `get` misses is an error and nothing changes; an empty patch returns the record as stored and writes nothing; otherwise the record becomes its fields plus the patch with a fresh `updated_at`, written in place, unless validation fails, which changes nothing |
| Store.Collection.Remove | app/crud/base.py:66-69 | a record `get` misses is an error; otherwise the record is removed and the count is 1 |
| Store.Collection.PartialRemove | app/crud/base.py:71-76 | a record `get` misses is an error; otherwise the record stays in place with `is_active` false and a refreshed `updated_at` |
| UserModel.Project | app/models/user.py:38 | `$project` keeps `_id` and the named key only |
| UserModel.Pipeline | app/models/user.py:29-73 | the aggregation yields one joined document per matching user, in order |
| UserModel.JoinedUser | app/models/user.py:29-70 | the joined document keeps the user's `_id` and own fields and drops `temp_role_id` |
| UserModel.JoinedKeys | app/models/user.py:56-70 | the joined document holds the user's keys plus `_id`, `account`, `user_role` and `role`, and no `temp_role_id` |
| UserModel.JoinedField | app/models/user.py:29-70 | any other field is in the joined document exactly when it is in the user, with the same value |
| UserModel.JoinedAccounts | app/models/user.py:32-42 | `account` lists exactly the accounts, active or not, whose `_id` is the user's `account_id`, projected to `name` |
| UserModel.RolesOfMembers | app/models/user.py:44-68 | the looked-up roles are exactly those some user-role of the user points at, soft-deleted ones included |
| UserModel.JoinedRoles | app/models/user.py:44-70 | `role` lists exactly the roles some user-role of the user points at, projected to `name` |
| UserModel.PipelineLast | app/models/user.py:72-76 | the cursor's last document is the join of the last matching user, and exists exactly when a user matches |
| UserModel.GetWithRoleAndAccount | app/models/user.py:28-76 | the loop keeps the last joined document; `{}` exactly when no user has that `_id`; otherwise the document carries that `_id` |
| UserSchema.InDb | app/schemas/user.py:71-75 | `UserInDB(**doc)` succeeds exactly when the document has the declared attributes with their types; it keeps the `_id`, the stored hash and the `account_id`, and a `role` list becomes a dict without `name` |
| UserSchema.LookupDictHasNoName | app/crud/user.py:81 | `dict()` of a joined list succeeds exactly when every item has just `_id` and `name`; the dict has no `name` key and is empty exactly when the list is |
| Security.VerifyHash | app/api/api_v1/routers/auth.py:61-68 | a hash verifies against the password it was made from and fits 255 characters |
| Security.DecodeCreated | app/api/deps.py:42-44 | a token decodes to its claims exactly when the key is the signing key and it has not expired |
| UserCrud.GetWithAccountAndRole | app/crud/user.py:73-82 | the loop turns each joined document into a `UserInDB` and keeps the last; a document the schema rejects is a validation error; otherwise there is a user exactly when some user matches the filter |
| UserCrud.LastConverted | app/crud/user.py:78-82 | over any cursor: the `UserInDB` of the last document, none for an empty cursor, or the error of a document the schema rejects |
| UserCrud.JoinedAccountIsDict | app/crud/user.py:81 | with valid accounts, the joined `account` list passes `UserInDB`'s `Optional[Dict]` attribute |
| UserCrud.JoinedRoleIsDict | app/crud/user.py:81 | with valid roles, the joined `role` is a list that passes `UserInDB`'s `Optional[Dict]` attribute |
| UserCrud.JoinedConverts | app/crud/user.py:73-82 | the joined document of a valid user carrying both timestamps, over valid accounts and roles, passes `UserInDB`; the result keeps the user's `_id` and stored hash, and its `role` is a dict without `name` |
| UserCrud.ConvertedRoleHasNoName | app/crud/user.py:81 | whatever the collections hold, the user `get_by_email` returns has a `role` dict without a `name` key |
| UserCrud.UserIdByEmail | app/crud/user.py:15-24 | a user is found exactly when some user has that e-mail, and it is one of them |
| UserCrud.UserByEmail | app/crud/user.py:15-24 | `get_by_email` finds nothing when no user has the e-mail; when it does not raise, it returns a user exactly when one has the e-mail, carrying that user's `_id` |
| UserCrud.UserByEmailConverts | app/crud/user.py:15-24 | with valid collections whose users all carry both timestamps, `get_by_email` never raises |
| UserCrud.GetByEmail | app/crud/user.py:15-24 | the join, then the fallback `find_one`, give the result `UserByEmail` describes; the fallback runs only when no user has the e-mail and then finds nothing |
| UserCrud.CreatedFoundByEmail | app/crud/user.py:15-32 | after a user is created, `get_by_email` for its e-mail finds it |
| UserCrud.Authenticated | app/crud/user.py:47-55 | `authenticate` raises exactly when `get_by_email` does; it returns a user exactly when `get_by_email` returns one and the password verifies against its stored hash, and then it is that user |
| UserCrud.Authenticate | app/crud/user.py:47-55 | the method returns what `Authenticated` describes |
| UserCrud.AuthenticateStored | app/crud/user.py:47-55 | with valid collections whose users carry both timestamps, a user whose hash was made from the password, and which `get_by_email` picks, authenticates as the `UserInDB` of its joined document |
| UserCrud.LastByEmail | app/crud/user.py:15-24 | with unique `_id`s, the last joined document for an e-mail is the join of the user `UserIdByEmail` names |
| UserCrud.CreateData | app/crud/user.py:27 | the set fields of `UserCreate`: they include `email` and `password`, and no key outside the schema |
| UserCrud.NewUserData | app/crud/user.py:26-31 | the stored data has no `password` key, has a `hashed_password` that verifies against the password, and keeps every other set field |
| UserCrud.CreateUser | app/crud/user.py:26-32 | exactly one user is appended, holding the hashed data, unless validation fails or the `_id` is taken; both leave the collection unchanged |
| UserCrud.UnsetAccountIdRejected | app/models/user.py:22 | a `UserCreate` that leaves `account_id` unset never passes validation: the field is required even though null is allowed, so `create` stores nothing |
| UserCrud.UserPatch | app/crud/user.py:40-44 | a supplied text `password` becomes `hashed_password` and is dropped; without one the patch is passed on unchanged; every other key is kept |
| UserCrud.UpdateUser | app/crud/user.py:34-45 | the hashed patch goes to `_update`: a non-text password is a validation error and a missing user an error, both changing nothing; an empty patch returns the record as stored and writes nothing; otherwise only the patched keys and `updated_at` change |
| UserCrud.UpdateKeepsHash | app/crud/user.py:40-45 | an update without `password` keeps the stored `hashed_password` and stores no `password` |
| UserCrud.GetByAccountId | app/crud/user.py:57-71 | the loop collects only users with that `account_id`, active or not, at most `limit`, and all of them when `skip` is 0 and `limit` is 0, the driver's "no limit" (the default is 100) |
| UserRoleCrud.GetByUserId | app/crud/user_role.py:12-13 | a record is found exactly when some record, active or not, has that `user_id` |
| UserRoleCrud.SoftDeletedSeenByUserId | app/crud/user_role.py:12-13 | a soft-deleted record is still found by `get_by_user_id` while `get` misses it |
| UserRoleCrud.NewUserRoleData | app/crud/base.py:43-45 | a created user-role holds exactly the given `user_id` and `role_id` |
| UserRoleCrud.CreatedUserRole | app/crud/base.py:43-48 | a created user-role is active, carries the given ids and passes the model's validation |
| UserRoleCrud.RoleUpdateKeepsUser | app/crud/base.py:61-63 | an update of `role_id` sets it and keeps `user_id`; a record that passed validation still passes |
| UserRoleCrud.AssignKeepsOnePerUser | app/api/api_v1/routers/user_roles.py:31-41 | adding a record for a user `get_by_user_id` does not find keeps at most one record per user |
| UserRoleCrud.UpdateKeepsOnePerUser | app/api/api_v1/routers/user_roles.py:62-73 | writing back a record with the same `user_id` keeps at most one record per user |
| Deps.AuthenticateValue | app/api/deps.py:32-35 | `Bearer scope="…"` with the scopes when there are any, `Bearer` otherwise |
| Deps.ParsePayload | app/api/deps.py:47 | the payload passes the schema exactly when `id` is an ObjectId and `role` and `account_id` have the allowed forms |
| Deps.GetCurrentUser | app/api/deps.py:28-73 | the user is returned exactly when the token decodes, the payload is valid, the id names an active user and the role passes the scopes, and then it is `get`'s record; each refusal is a 401 as the code raises it: "Could not validate credentials" without a header for an undecodable token or a rejected payload, with the scope header for a missing `id` or an unknown user, and "Not enough permissions" with the header for a role the scopes refuse |
| Deps.GetCurrentActiveUser | app/api/deps.py:76-86 | the same answer as `get_current_user`; the 400 "Inactive user" never arises |
| Deps.MissingIdRefused | app/api/deps.py:45-46 | a token without an `id` claim is a 401 "Could not validate credentials" |
| Deps.UnscopedAcceptsAnyRole | app/api/deps.py:57-73 | with no scopes, any valid token of an active user is accepted, whatever its role |
| AuthRouter.TokenClaimsAsWritten | app/api/api_v1/routers/auth.py:37-42 | the claims exist exactly when the user's `role` is a dict, since `.get` on a null role raises; they are exactly `id`, `role` and `account_id`; the role is the dict's `name`, null when it has none; a user without an account gets the text `"None"` |
| AuthRouter.TokenClaims | app/api/api_v1/routers/auth.py:37-42 | the intended claims: exactly `id`, `role` and `account_id`; the role is the first joined role's name, `"GUEST"` without a `role` key; the account id is its text or null |
| AuthRouter.RoleClaimOfJoined | app/api/api_v1/routers/auth.py:37 | the role claim of a joined user is null or the name of a role one of its user-roles points at |
| AuthRouter.RoleClaimIsText | app/api/api_v1/routers/auth.py:37 | with valid roles, the role claim of a joined user is null or text |
| AuthRouter.LoginAccessToken | app/api/api_v1/routers/auth.py:17-48 | as written: a 500 when `authenticate` raises; a 400 "Incorrect email or password" when it finds no user; a 500 for a null role; otherwise a bearer token over the written claims with the configured lifetime |
| AuthRouter.OpenUserTokenRejected | app/api/api_v1/routers/auth.py:38-42 | as written, a token the login issues to a user without an account is refused with 401 on every request, with "Could not validate credentials" before it expires |
| AuthRouter.AccountlessClaimsRejected | app/api/api_v1/routers/auth.py:38-42 | the written claims of a `UserInDB` without an account fail the payload schema, so a token over them gets a 401 |
| AuthRouter.ScopedLoginRejected | app/api/api_v1/routers/auth.py:37 | as written, no token the login issues passes an endpoint that asks for scopes: the answer is a 401 |
| AuthRouter.NamelessRoleRejected | app/api/api_v1/routers/auth.py:37 | the written claims of a user whose `role` dict has no `name` carry a null role, which every endpoint with scopes refuses with 401 |
| AuthRouter.LoginAccessTokenIntended | app/api/api_v1/routers/auth.py:17-48 | as intended: a 400 exactly when no joined user has the e-mail with a verifying password; otherwise a bearer token over the intended claims of the joined document |
| AuthRouter.IntendedClaimsParse | app/api/api_v1/routers/auth.py:38-42 | the intended payload of a user with an ObjectId `_id` passes the schema and names that user |
| AuthRouter.UnscopedTokenAccepted | app/api/deps.py:54-73 | a valid payload on an unscoped endpoint yields its user exactly when that user is active |
| AuthRouter.JoinedLoginUser | app/crud/user.py:47-55 | the document the intended login authenticates is the join of the last stored user with that e-mail, the one `UserIdByEmail` names |
| AuthRouter.JoinedClaimsParse | app/api/api_v1/routers/auth.py:37-42 | the intended payload of any stored user's joined record passes the schema and names that user |
| AuthRouter.LoginTokenAccepted | app/api/api_v1/routers/auth.py:24-48 | with the intended login, a token used before it expires yields the logged-in user exactly when that user is still active and its first joined role passes the endpoint's scopes |
| AuthRouter.AuthenticatedIsJoined | app/crud/user.py:47-55 | with valid collections whose users carry both timestamps, `authenticate` never raises, finds a user exactly when the intended login does, and returns the `UserInDB` of that joined document |
| AuthRouter.LoginsAgree | app/api/api_v1/routers/auth.py:24-36 | with valid, stamped collections the written and the intended login succeed together, and fail with the same 400 |
| AuthRouter.LoginClaimsAgree | app/api/api_v1/routers/auth.py:37-42 | with valid, stamped collections both logins' tokens name the same user, and the written token's role is null |
| AuthRouter.ConvertedClaims | app/api/api_v1/routers/auth.py:37-42 | the written claims of a converted document whose `role` has no `name` carry the same `id` as the intended claims of the document, and a null role |
| AuthRouter.HashPassword | app/api/api_v1/routers/auth.py:61-68 | the returned hash verifies against the password and fits the `hashed_password` field |
| UsersRouter.GetUsers | app/api/api_v1/routers/users.py:20-36 | ADMIN or SUPER_ADMIN; the window of active users sorted by name, at most `limit` |
| UsersRouter.GetMeUser | app/api/api_v1/routers/users.py:39-46 | no scope; exactly the answer of `get_current_active_user`: the token's active user, else its 401 |
| UsersRouter.UpdateFromCurrent | app/api/api_v1/routers/users.py:60-61 | `UserUpdate(**current)` holds exactly the current values of the schema's keys |
| UsersRouter.Override | app/api/api_v1/routers/users.py:62-67 | a body value that is not None replaces the key; None leaves the update as it was |
| UsersRouter.MePatchFields | app/api/api_v1/routers/users.py:60-68 | the stored user gets each body value that is not None and keeps every other current value |
| UsersRouter.UpdateMeUser | app/api/api_v1/routers/users.py:49-69 | no scope; the current user is rewritten with the overrides, or nothing changes on a refusal |
| UsersRouter.CreateKeepsEmailsUnique | app/api/api_v1/routers/users.py:84-93 | creating a user whose e-mail `get_by_email` does not find keeps e-mails unique |
| UsersRouter.EmailTakenConflict | app/api/api_v1/routers/users.py:84-92 | with valid collections whose users carry both timestamps, a taken e-mail is answered with 409 "User with email <<…>> already exists" |
| UsersRouter.CreateChecked | app/api/api_v1/routers/users.py:84-92 | a taken e-mail is a 409, or a 500 when `get_by_email` raises, and changes nothing; otherwise exactly one hashed user is appended under the fresh `_id`, or a failed write is a 500 that changes nothing; a user whose `account_id` is unset is always such a 500 |
| UsersRouter.CreateUser | app/api/api_v1/routers/users.py:72-93 | ADMIN or SUPER_ADMIN; then the check-then-create of `CreateChecked`, so a user without `account_id` is a 500 that stores nothing; a refusal changes nothing |
| UsersRouter.CreateUserOpen | app/api/api_v1/routers/users.py:96-118 | a 403 before any lookup when open registration is off; otherwise the check-then-create of `CreateChecked`, so a request without `account_id` is a 500 that stores nothing |
| UsersRouter.SoftDeletedUser | app/api/api_v1/routers/users.py:143 | the record `partial_remove` writes is inactive; `get` misses it and `get_not_active` finds it |
| UsersRouter.RemovePartialUser | app/api/api_v1/routers/users.py:121-144 | SUPER_ADMIN; a 404 when `get` misses the id; otherwise the record with `is_active` false and a fresh `updated_at` is written back in place and returned, after which `get` misses it and `get_not_active` finds it |
| UsersRouter.RemoveUser | app/api/api_v1/routers/users.py:147-182 | SUPER_ADMIN; a 404 for a missing or inactive id; otherwise the user is deleted and the success message returned |
| UsersRouter.UpdateUser | app/api/api_v1/routers/users.py:185-209 | SUPER_ADMIN; a 404 when `get` misses the id; an empty body returns the record as stored and writes nothing; otherwise only the supplied fields and `updated_at` change, a password stored as its hash, or a failed write is a 500 that changes nothing |
| UsersRouter.GetUserById | app/api/api_v1/routers/users.py:212-231 | ADMIN or SUPER_ADMIN; exactly the record `get` returns for the id, which is the one active user with it, else a 404 "user not exists" |
| UserRolesRouter.AssignUserRole | app/api/api_v1/routers/user_roles.py:15-42 | ADMIN, SUPER_ADMIN or ACCOUNT_ADMIN; a 409 and no insert when the user has a record, soft-deleted or not; otherwise the record with the two ids, `is_active` true and both timestamps is appended under the fresh `_id`, or a taken `_id` is a 500; at most one record per user is kept |
| UserRolesRouter.UpdateUserRole | app/api/api_v1/routers/user_roles.py:45-73 | ADMIN, SUPER_ADMIN or ACCOUNT_ADMIN; a 404 when the user has no record; a soft-deleted record is a 500 that changes nothing; an active one gets the new `role_id` and a fresh `updated_at` in place and is returned, keeping its `user_id`; at most one record per user is kept |
| UserRolesRouter.ReassignRole | app/api/api_v1/routers/user_roles.py:62-73 | after authorization: a 404 when the user has no record; a soft-deleted record, which `get_by_user_id` finds but `_update`'s `get` misses, is a 500; an active one is rewritten in place with the new `role_id`; at most one record per user is kept |
| UserRolesRouter.RoleUpdateKept | app/api/api_v1/routers/user_roles.py:70-73 | the written-back record keeps the user and has the new role, and at most one record per user remains |
| AccountsRouter.AccountData | app/crud/base.py:44 | the encoded account holds every schema field, with the given name and description; a set `plan_id` becomes an empty dict, since `AccountBase` gives its `ObjectId` no encoder |
| AccountsRouter.PlanIdRejected | app/models/account.py:10 | an account encoded with a plan never passes validation: `plan_id` must be text or null |
| AccountsRouter.CreateKeepsNamesUnique | app/api/api_v1/routers/accounts.py:15-21 | adding an account under a name `get_by_name` misses keeps active names unique |
| AccountsRouter.CreateAccount | app/api/api_v1/routers/accounts.py:9-22 | no authentication; a 409 and no change when an active account has the name; otherwise exactly one account is appended, except that a request with a `plan_id` is always a 500 that changes nothing; active names stay unique |
| InitDb.CreateSuperadminAccount | app/db/init_db.py:20-29 | inserts the superadmin account only when `get_by_name` misses it; afterwards it is found |
| InitDb.CreateSuperadminUser | app/db/init_db.py:32-47 | returns the user `get_by_email` finds; otherwise inserts one under the superadmin account's id; a missing account is an error |
| InitDb.InsertSuperadminUser | app/db/init_db.py:38-45 | the created superadmin user is the one `get_by_email` then finds |
| InitDb.CreateDefaultRole | app/db/init_db.py:50-56 | inserts a role only when `get_by_name` misses it; afterwards it is found; only appends |
| InitDb.CreateSuperadminUserRole | app/db/init_db.py:59-68 | inserts a user-role to SUPER_ADMIN only when the user has none; afterwards the user has one |
| InitDb.PresentKept | app/db/init_db.py:12-16 | roles found by name stay found as later steps append |
| InitDb.AllPresent | app/db/init_db.py:12-16 | the five default roles being present means each of GUEST, ACCOUNT_ADMIN, ACCOUNT_MANAGER, ADMIN and SUPER_ADMIN is found by name |
| InitDb.DefaultRoleStep | app/db/init_db.py:50-56 | one call keeps `Progress`: the roles found so far stay found and its own joins them, at most one record is appended, nothing changes when all five were there, and a fresh store gains one record named after the call |
| InitDb.StepKeepsProgress | app/db/init_db.py:50-56 | a successful `create_default_role` that found its role, or appended one record named after it, keeps `Progress` |
| InitDb.CreateDefaultRoles | app/db/init_db.py:12-16 | on success all five default roles are found by name; when they already were, nothing changes; only appends, at most five records; a fresh store ends with exactly five |
| InitDb.CreateSuperadmin | app/db/init_db.py:10-11 | on success the account and the user exist; when both already did, nothing changes |
| InitDb.CreateRolesAndAssignment | app/db/init_db.py:12-17 | on success the five roles exist and the user has a role assignment; when they already did, nothing changes; the SUPER_ADMIN lookup cannot miss |
| InitDb.Init | app/db/init_db.py:9-17 | on success everything is initialized; on an initialized store it succeeds and changes none of the four collections; it never fails on a missing account or role |
| InitDb.KeepsName | app/db/init_db.py:50-56 | a record found by name is still found after records are appended |

## Left out

- Async concurrency: every `await` is a sequential call. The race between a router's check and its insert is not modelled.
- Response shaping is not modelled: FastAPI `response_model` filtering and validation, and the `jsonable_encoder` of responses. In particular `schemas.UserRole` (app/schemas/user_role.py:19-24) requires a `role` that the stored user-role record lacks. Response validation would turn a successful `UserRolesRouter.AssignUserRole` or `UserRolesRouter.UpdateUserRole` into a 500 after the write, but the model answers with the written record. `get_me_user` and `get_user_by_id` return the stored record. They do not return the joined schema, because `app/api/utils.py` has no `get_user_schema_with_role_and_account`.
- `app/crud/user.py:78` calls `get_with_account_and_role(_match=…)`, but the model defines `get_with_role_and_account(user_id=…)`. `UserCrud.GetWithAccountAndRole` models the evidently intended call: the same pipeline with the filter as its `$match`.
- `app/crud/account.py` passes the model to a constructor that takes none. Account CRUD is modelled as plain `CRUDBase`.
- Store.Get: the tests at tests/crud/test_role.py:99-112 expect `get` to return a soft-deleted record. The code filters on `is_active`, and the model follows the code.
- Deps.GetCurrentUser: JWT encoding and decoding, and bcrypt hashing, are abstract. A token is its claims, key and expiry, and the hash is a salted function of the password.
- Deps.GetCurrentUser: the role check compares the role text with the scope list. Of pydantic's `str` coercions, only the one of booleans to "True" and "False" is modelled. A number or other non-text role is rejected rather than turned into text.
- Models.UserFieldBounds: `EmailField` format checking is not modelled. `email` is checked only for type and length.
- `unique=True` on `email` builds no index. No code calls `ensure_indexes`, so e-mail uniqueness comes only from the create endpoints' check. `UsersRouter.CreateKeepsEmailsUnique` proves that check keeps it. UsersRouter.UpdateUser and UsersRouter.UpdateMeUser can store an e-mail another user has; that is the code's behaviour.
- The model's handlers take every id as `Id`, a valid ObjectId. Only path ids are typed `ObjectId` and rejected by the request validator when they are not 24 hexadecimal digits. The body ids of `UserRoleCreate` and `UserRoleUpdate` are plain `str`: a `user_id` that is not an ObjectId makes `get_by_user_id` raise at `app/crud/user_role.py:13`, a 500, and a malformed `role_id` fails only in the ODM's validation on commit. These paths are not modelled.
- `UserCreate.account_id` is `Union[str, ObjectId]`, so any text passes the request schema and fails only in the ODM's validation on commit. The model's `UserCreate` admits only an ObjectId, null or an unset value, so that text path is not modelled.
- UserCrud.CreateUser: follows the code, where `account_id` is a required field and a request that leaves it unset is refused by the ODM. `UsersRouter.CreateUserOpen` is then a 500 that stores nothing. The test at tests/api/api_v1/test_users.py:252-281 expects that open registration succeeds and stores a user with no `account_id`; the model does not capture that expectation.
- UsersRouter.UpdateFromCurrent: `jsonable_encoder(current_user)` of an ODM document is taken to yield the document's stored fields. The encoder's fallback to `dict(obj)` or `vars(obj)` for objects that are not pydantic models is not modelled.
- Store.Collection.Commit: `pre_insert` reads the clock twice and `pre_update` once. The model uses one `now` per commit.
- UserCrud.UserPatch: a non-text `password` makes the hashing helper raise. The model returns a validation error instead.
- Query.Window: `skip` is a `nat`. A negative `skip` makes the driver raise and is not modelled.
- AccountsRouter.AccountData: `current_subscription_ends` is carried as given. A `plan_id` is a schema `ObjectId` with no encoder, so the account model, which wants text of at least 5 characters, refuses it. Storing a plan's id as text, which the `StringField` suggests was meant, is not modelled. No payment-plan logic is modelled.
- InitDb.CreateSuperadminUser, InitDb.CreateSuperadminUserRole: a missing account or role makes the source dereference `None`. Here it is `MissingRecord`, which `InitDb.Init` proves cannot happen in the order the steps run.
- InitDb.Init: the ObjectIds the eight possible inserts use come from the `oids` parameter. The role descriptions and the superadmin settings come from `Settings`, because `app/constants/role.py` and `app/core/config.py` are not part of this model.
- InitDb.CreateSuperadminUser: decides presence with `UserIdByEmail`, the user `get_by_email` would find. A joined record that `UserInDB` rejects would make `get_by_email` raise and abort start-up; that is not modelled.
- UserSchema.InDb: pydantic's coercions (text to `bool` or `datetime`, numbers to `str`) and the `EmailStr` format check are not modelled. An attribute has to hold a value of its declared type, and `_id` has to be an ObjectId.
- UserCrud.AuthenticateStored, UserCrud.UserByEmailConverts, UsersRouter.EmailTakenConflict, AuthRouter.AuthenticatedIsJoined, AuthRouter.LoginsAgree, AuthRouter.LoginClaimsAgree: these assume every user record carries `created_at` and `updated_at`, as every record written through `create` does.
- UserCrud.GetByEmail: the fallback `find_one` cannot find anything, because the join yields a document whenever a user matches. The model proves that branch unreachable.
- `app/api/utils.py` (`get_role_name_from_user`) is not called by the core and passes an argument the callee does not take. It is not modelled.
- The `/roles` router is a passthrough to `get_multi`, covered by `Store.Collection.GetMulti`.

## Findings

| source | as written | input that shows it | evidently intended | confidence | as-written member | corrected member |
|---|---|---|---|---|---|---|
| app/api/api_v1/routers/auth.py:38-42 | the `account_id` claim is `str(user.account_id)`, which is the text `"None"` for a user without an account; the payload schema's `ObjectId` type rejects it, so every request with that token is refused with 401 | a user created through `/users/open` with `"account_id": null` logs in and calls `/users/me` with the token | a user without an account gets a null `account_id` claim, which the schema accepts, so the token authenticates | not executed | AuthRouter.OpenUserTokenRejected | AuthRouter.LoginTokenAccepted |
| app/api/api_v1/routers/auth.py:37 | `get_by_email` returns `UserInDB(**user_found)` (app/crud/user.py:81), whose `Optional[Dict]` attribute turns the joined `role` list into `{"_id": "name"}`, or `{}` when there is no role; `user.role.get("name")` is then null, so every endpoint with scopes refuses the token with 401 | the superadmin `init_db` creates, with its SUPER_ADMIN assignment, logs in and calls `GET /users` with the token | the role claim is the name of the first role the join listed, so the SUPER_ADMIN token passes `GET /users` | not executed | AuthRouter.ScopedLoginRejected | AuthRouter.LoginTokenAccepted |
