/** The `/users` router. Every handler first runs the authorization
    dependency with its own scopes, then looks the user up, answers early
    with an HTTP error, and otherwise writes to the users collection. */
module UsersRouter {
  import opened Wrappers
  import opened Documents
  import opened Query
  import opened ModelBase
  import opened Models
  import opened Store
  import opened Security
  import opened UserCrud
  import opened Deps

  /** Listing, creating and reading a user by id. */
  const ReadScopes: seq<string> := [Admin, SuperAdmin]
  /** Removing, soft-deleting and updating a user. */
  const WriteScopes: seq<string> := [SuperAdmin]

  function EmailTaken(email: string): string
  {
    "User with email <<" + email + ">> already exists"
  }

  function UserNotExists(id: Id): string
  {
    "User wit id <<" + IdString(id) + ">> not exists"
  }

  const OpenRegistrationForbidden: string := "Open user registration is forbidden on this server"

  function UserRemoved(id: Id): string
  {
    "User with id <<" + IdString(id) + ">> removed"
  }

  /** How a create ends once the checks passed: a new user record appended
      under `oid`, or a 500 with the table as it was. */
  ghost predicate CreatedAs(before: Table, after: Table, data: Fields, oid: Id, r: Result<Entry, HttpError>)
  {
    if !Conforms(UserKind, data) || oid in Ids(before) then r == Err(InternalError) && after == before
    else r == Ok(Entry(oid, data)) && after == before + [Entry(oid, data)]
  }

  /** How an update of a found user ends: with an empty patch, the record as
      it was and nothing written; otherwise the record rewritten in place, or
      a 500 with the table as it was. */
  ghost predicate UpdatedAs(before: Table, after: Table, id: Id, patch: Fields, salt: Salt, now: Time, r: Result<Entry, HttpError>)
    requires Get(before, id).Some?
  {
    match UserPatch(patch, salt)
    case None => r == Err(InternalError) && after == before
    case Some(p) =>
      if p == map[] then r == Ok(Get(before, id).value) && after == before
      else
      var data := UpdateStamped(Get(before, id).value.fields + p, now);
      if Conforms(UserKind, data) then r == Ok(Entry(id, data)) && after == Put(before, Entry(id, data))
      else r == Err(InternalError) && after == before
  }

  /** `get_users`: the active users, sorted by `name` descending, windowed
      by `skip` and `limit`. */
  method GetUsers(db: Database, token: Token, key: string, now: Time, skip: nat, limit: int) returns (r: Result<seq<Entry>, HttpError>)
    ensures var auth := GetCurrentActiveUser(db.users.entries, token, key, now, ReadScopes);
      && (auth.Err? ==> r == Err(auth.error))
      && (auth.Ok? ==> r == Ok(Window(SortByNameDesc(Select(db.users.entries, ActiveOnly())), skip, limit)))
    ensures r.Ok? ==> forall u :: u in r.value ==> u in db.users.entries && IsActive(u.fields)
    ensures r.Ok? && limit != 0 ==> |r.value| <= Abs(limit)
  {
    var auth := GetCurrentActiveUser(db.users.entries, token, key, now, ReadScopes);
    if auth.Err? {
      return Err(auth.error);
    }
    var users := db.users.GetMulti(skip, limit);
    r := Ok(users);
  }

  /** `get_me_user`: the authenticated user, whatever its role. */
  method GetMeUser(db: Database, token: Token, key: string, now: Time) returns (r: Result<Entry, HttpError>)
    ensures r == GetCurrentActiveUser(db.users.entries, token, key, now, [])
    ensures r.Ok? <==> GetCurrentActiveUser(db.users.entries, token, key, now, []).Ok?
    ensures r.Ok? ==> r.value in db.users.entries && IsActive(r.value.fields)
    ensures r.Err? ==> r.error.status == Unauthorized
  {
    r := GetCurrentActiveUser(db.users.entries, token, key, now, []);
  }

  /** The keys of the `UserUpdate` schema. */
  const UserUpdateKeys: set<string> := {"email", "is_active", "full_name", "phone_number", "account_id", "password"}

  /** `UserUpdate(**current_user_data)`: the current values of the schema's
      keys; every other key is dropped. */
  function UpdateFromCurrent(current: Fields): (r: Fields)
    ensures r.Keys == current.Keys * UserUpdateKeys
    ensures forall k :: k in r ==> r[k] == current[k]
  {
    map k | k in current && k in UserUpdateKeys :: current[k]
  }

  /** A body value that is not None replaces the key's value. */
  function Override(patch: Fields, key: string, value: Option<string>): (r: Fields)
    ensures value.Some? ==> r == patch[key := Str(value.value)]
    ensures value.None? ==> r == patch
  {
    match value
    case Some(v) => patch[key := Str(v)]
    case None => patch
  }

  /** The update `update_me_user` hands to `_update`. */
  function MePatch(current: Fields, fullName: Option<string>, phoneNumber: Option<string>, email: Option<string>): Fields
  {
    var patch := UpdateFromCurrent(current);
    var patch := Override(patch, "phone_number", phoneNumber);
    var patch := Override(patch, "full_name", fullName);
    Override(patch, "email", email)
  }

  /** The body of `update_me_user` gives a value for this key. */
  predicate Overridden(k: string, fullName: Option<string>, phoneNumber: Option<string>, email: Option<string>)
  {
    || (k == "full_name" && fullName.Some?)
    || (k == "phone_number" && phoneNumber.Some?)
    || (k == "email" && email.Some?)
  }

  /** `update_me_user` changes `phone_number`, `full_name` and `email` only
      where the body gives a value, refreshes `updated_at`, and keeps every
      other field of the user as it was. */
  lemma MePatchFields(current: Fields, fullName: Option<string>, phoneNumber: Option<string>, email: Option<string>, salt: Salt, now: Time)
    requires "password" !in current
    ensures UserPatch(MePatch(current, fullName, phoneNumber, email), salt).Some?
    ensures var data := UpdateStamped(current + UserPatch(MePatch(current, fullName, phoneNumber, email), salt).value, now);
      && (fullName.Some? ==> data["full_name"] == Str(fullName.value))
      && (phoneNumber.Some? ==> data["phone_number"] == Str(phoneNumber.value))
      && (email.Some? ==> data["email"] == Str(email.value))
      && (forall k :: k in current && k != "updated_at" && !Overridden(k, fullName, phoneNumber, email) ==>
            k in data && data[k] == current[k])
  {
    var patch := MePatch(current, fullName, phoneNumber, email);
    assert "password" !in patch;
  }

  /** `update_me_user`. */
  method UpdateMeUser(db: Database, token: Token, key: string, now: Time, fullName: Option<string>, phoneNumber: Option<string>, email: Option<string>, salt: Salt)
    returns (r: Result<Entry, HttpError>)
    requires db.Valid()
    modifies db.users
    ensures db.Valid()
    ensures var auth := GetCurrentActiveUser(old(db.users.entries), token, key, now, []);
      && (auth.Err? ==> r == Err(auth.error) && db.users.entries == old(db.users.entries))
      && (auth.Ok? ==>
            UpdatedAs(old(db.users.entries), db.users.entries, auth.value.id,
              MePatch(auth.value.fields, fullName, phoneNumber, email), salt, now, r))
  {
    var auth := GetCurrentActiveUser(db.users.entries, token, key, now, []);
    if auth.Err? {
      return Err(auth.error);
    }
    var current := auth.value;
    var userIn := UpdateFromCurrent(current.fields);
    if phoneNumber.Some? {
      userIn := userIn["phone_number" := Str(phoneNumber.value)];
    }
    if fullName.Some? {
      userIn := userIn["full_name" := Str(fullName.value)];
    }
    if email.Some? {
      userIn := userIn["email" := Str(email.value)];
    }
    assert userIn == MePatch(current.fields, fullName, phoneNumber, email);
    var updated := UserCrud.UpdateUser(db.users, current.id, userIn, salt, now);
    r := match updated
      case Ok(e) => Ok(e)
      case Err(_) => Err(InternalError);
  }

  /** The users collection has at most one record per e-mail. */
  ghost predicate UniqueEmails(t: Table)
  {
    forall i, j :: 0 <= i < j < |t| && "email" in t[i].fields ==>
      "email" !in t[j].fields || t[j].fields["email"] != t[i].fields["email"]
  }

  /** Creating a user whose e-mail `get_by_email` does not find keeps e-mails
      unique. */
  lemma CreateKeepsEmailsUnique(t: Table, e: Entry, email: string)
    requires UniqueEmails(t) && UserIdByEmail(t, email).None? && HasEmail(e, email)
    ensures UniqueEmails(t + [e])
  {
    var r := t + [e];
    forall i, j | 0 <= i < j < |r| && "email" in r[i].fields
      ensures "email" !in r[j].fields || r[j].fields["email"] != r[i].fields["email"]
    {
      if j == |t| {
        assert r[i] == t[i] && t[i] in t;
      }
    }
  }

  /** The answer of both create endpoints when a user already has the
      e-mail: 409, or 500 when `get_by_email` raises on a joined record that
      `UserInDB` rejects. */
  function EmailTakenError(s: Snapshot, email: string): HttpError
  {
    if UserByEmail(s, email).Err? then InternalError else HttpError(Conflict, EmailTaken(email), None)
  }

  /** With valid, stamped collections the answer to a taken e-mail is 409. */
  lemma EmailTakenConflict(s: Snapshot, email: string)
    requires TableValid(UserKind, s.users) && Stamped(s.users)
    requires TableValid(AccountKind, s.accounts) && TableValid(RoleKind, s.roles)
    ensures EmailTakenError(s, email) == HttpError(Conflict, EmailTaken(email), None)
  {
    UserByEmailConverts(s, email);
  }

  /** The check-then-create shared by both create endpoints. */
  method CreateChecked(db: Database, input: UserCreate, salt: Salt, now: Time, oid: Id) returns (r: Result<Entry, HttpError>)
    requires db.Valid()
    modifies db.users
    ensures db.Valid()
    ensures UserIdByEmail(old(db.users.entries), input.email).Some? ==>
      r == Err(EmailTakenError(old(db.Contents()), input.email)) && db.users.entries == old(db.users.entries)
    ensures UserIdByEmail(old(db.users.entries), input.email).None? ==>
      CreatedAs(old(db.users.entries), db.users.entries, InsertStamped(WithDefaults(NewUserData(input, salt)), now), oid, r)
    ensures UserIdByEmail(old(db.users.entries), input.email).None? && input.accountId.None? ==>
      r == Err(InternalError) && db.users.entries == old(db.users.entries)
  {
    var existing := GetByEmail(db.Contents(), input.email);
    if existing.Err? {
      return Err(InternalError);
    }
    if existing.value.Some? {
      return Err(HttpError(Conflict, EmailTaken(input.email), None));
    }
    if input.accountId.None? {
      UnsetAccountIdRejected(input, salt, now);
    }
    var created := UserCrud.CreateUser(db.users, input, salt, now, oid);
    r := match created
      case Ok(e) => Ok(e)
      case Err(_) => Err(InternalError);
  }

  /** `create_user`. */
  method CreateUser(db: Database, token: Token, key: string, now: Time, input: UserCreate, salt: Salt, oid: Id) returns (r: Result<Entry, HttpError>)
    requires db.Valid()
    modifies db.users
    ensures db.Valid()
    ensures var auth := GetCurrentActiveUser(old(db.users.entries), token, key, now, ReadScopes);
      && (auth.Err? ==> r == Err(auth.error) && db.users.entries == old(db.users.entries))
      && (auth.Ok? && UserIdByEmail(old(db.users.entries), input.email).Some? ==>
            r == Err(EmailTakenError(old(db.Contents()), input.email)) && db.users.entries == old(db.users.entries))
      && (auth.Ok? && UserIdByEmail(old(db.users.entries), input.email).None? ==>
            CreatedAs(old(db.users.entries), db.users.entries, InsertStamped(WithDefaults(NewUserData(input, salt)), now), oid, r))
      && (auth.Ok? && UserIdByEmail(old(db.users.entries), input.email).None? && input.accountId.None? ==>
            r == Err(InternalError) && db.users.entries == old(db.users.entries))
  {
    var auth := GetCurrentActiveUser(db.users.entries, token, key, now, ReadScopes);
    if auth.Err? {
      return Err(auth.error);
    }
    r := CreateChecked(db, input, salt, now, oid);
  }

  /** `create_user_open`: refused with 403 before any lookup when open
      registration is off. */
  method CreateUserOpen(db: Database, openRegistration: bool, input: UserCreate, salt: Salt, now: Time, oid: Id) returns (r: Result<Entry, HttpError>)
    requires db.Valid()
    modifies db.users
    ensures db.Valid()
    ensures !openRegistration ==>
      r == Err(HttpError(Forbidden, OpenRegistrationForbidden, None)) && db.users.entries == old(db.users.entries)
    ensures openRegistration && UserIdByEmail(old(db.users.entries), input.email).Some? ==>
      r == Err(EmailTakenError(old(db.Contents()), input.email)) && db.users.entries == old(db.users.entries)
    ensures openRegistration && UserIdByEmail(old(db.users.entries), input.email).None? ==>
      CreatedAs(old(db.users.entries), db.users.entries, InsertStamped(WithDefaults(NewUserData(input, salt)), now), oid, r)
    ensures openRegistration && UserIdByEmail(old(db.users.entries), input.email).None? && input.accountId.None? ==>
      r == Err(InternalError) && db.users.entries == old(db.users.entries)
  {
    if !openRegistration {
      return Err(HttpError(Forbidden, OpenRegistrationForbidden, None));
    }
    r := CreateChecked(db, input, salt, now, oid);
  }

  /** The record `partial_remove` writes is inactive: `get` no longer finds
      it and `get_not_active` does. */
  lemma SoftDeletedUser(before: Table, id: Id, now: Time)
    requires UniqueIds(before) && Get(before, id).Some?
    ensures var e := Entry(id, UpdateStamped(Get(before, id).value.fields["is_active" := Bool(false)], now));
      && IsInactive(e.fields)
      && Get(Put(before, e), id).None?
      && GetNotActive(Put(before, e), id) == Some(e)
  {
    var found := Get(before, id).value;
    var e := Entry(id, UpdateStamped(found.fields["is_active" := Bool(false)], now));
    SoftDeletedFields(UserKind, found.fields, now);
    assert IsInactive(e.fields);
    assert found in before;
    assert id in Ids(before);
    var other: Id := if id == 0 then 1 else 0;
    SoftDeleteThenGet(before, e, other);
  }

  /** `remove_partial_user`: 404 unless `get` finds the user; otherwise the
      user is soft-deleted and returned inactive. */
  method RemovePartialUser(db: Database, token: Token, key: string, now: Time, userId: Id) returns (r: Result<Entry, HttpError>)
    requires db.Valid()
    modifies db.users
    ensures db.Valid()
    ensures var auth := GetCurrentActiveUser(old(db.users.entries), token, key, now, WriteScopes);
      && (auth.Err? ==> r == Err(auth.error) && db.users.entries == old(db.users.entries))
      && (auth.Ok? && Get(old(db.users.entries), userId).None? ==>
            r == Err(HttpError(NotFound, UserNotExists(userId), None)) && db.users.entries == old(db.users.entries))
      && (auth.Ok? && Get(old(db.users.entries), userId).Some? ==>
            r == Ok(Entry(userId, UpdateStamped(Get(old(db.users.entries), userId).value.fields["is_active" := Bool(false)], now)))
            && db.users.entries == Put(old(db.users.entries), r.value))
    ensures r.Ok? ==>
      && r.value.id == userId && IsInactive(r.value.fields)
      && Get(db.users.entries, userId).None?
      && GetNotActive(db.users.entries, userId) == Some(r.value)
      && db.users.entries == Put(old(db.users.entries), r.value)
  {
    var auth := GetCurrentActiveUser(db.users.entries, token, key, now, WriteScopes);
    if auth.Err? {
      return Err(auth.error);
    }
    var user := Get(db.users.entries, userId);
    if user.None? {
      return Err(HttpError(NotFound, UserNotExists(userId), None));
    }
    var before := db.users.entries;
    assert user.value in before;
    SoftDeletedFields(UserKind, user.value.fields, now);
    var removed := db.users.PartialRemove(userId, now);
    match removed {
      case Ok(e) =>
        SoftDeletedUser(before, userId, now);
        r := Ok(e);
      case Err(_) =>
        r := Err(InternalError);
    }
  }

  /** `remove_user`: 404 unless `get` finds the user; otherwise the record is
      deleted and the success message returned. */
  method RemoveUser(db: Database, token: Token, key: string, now: Time, userId: Id) returns (r: Result<string, HttpError>)
    requires db.Valid()
    modifies db.users
    ensures db.Valid()
    ensures var auth := GetCurrentActiveUser(old(db.users.entries), token, key, now, WriteScopes);
      && (auth.Err? ==> r == Err(auth.error) && db.users.entries == old(db.users.entries))
      && (auth.Ok? && Get(old(db.users.entries), userId).None? ==>
            r == Err(HttpError(NotFound, UserNotExists(userId), None)) && db.users.entries == old(db.users.entries))
      && (auth.Ok? && Get(old(db.users.entries), userId).Some? ==>
            && r == Ok(UserRemoved(userId))
            && db.users.entries == Without(old(db.users.entries), userId)
            && |db.users.entries| == |old(db.users.entries)| - 1
            && Get(db.users.entries, userId).None?)
  {
    var auth := GetCurrentActiveUser(db.users.entries, token, key, now, WriteScopes);
    if auth.Err? {
      return Err(auth.error);
    }
    var user := Get(db.users.entries, userId);
    if user.None? {
      return Err(HttpError(NotFound, UserNotExists(userId), None));
    }
    DeleteThenGet(db.users.entries, userId);
    var deleted := db.users.Remove(userId);
    match deleted {
      case Ok(count) =>
        if count != 1 {
          return Err(HttpError(NotFound, UserNotExists(userId), None));
        }
        r := Ok(UserRemoved(userId));
      case Err(_) =>
        r := Err(InternalError);
    }
  }

  /** `update_user`: 404 unless `get` finds the user; otherwise only the
      supplied fields change, with a supplied password stored as its hash. */
  method UpdateUser(db: Database, token: Token, key: string, now: Time, userId: Id, patch: Fields, salt: Salt) returns (r: Result<Entry, HttpError>)
    requires db.Valid()
    modifies db.users
    ensures db.Valid()
    ensures var auth := GetCurrentActiveUser(old(db.users.entries), token, key, now, WriteScopes);
      && (auth.Err? ==> r == Err(auth.error) && db.users.entries == old(db.users.entries))
      && (auth.Ok? && Get(old(db.users.entries), userId).None? ==>
            r == Err(HttpError(NotFound, UserNotExists(userId), None)) && db.users.entries == old(db.users.entries))
      && (auth.Ok? && Get(old(db.users.entries), userId).Some? ==>
            UpdatedAs(old(db.users.entries), db.users.entries, userId, patch, salt, now, r))
  {
    var auth := GetCurrentActiveUser(db.users.entries, token, key, now, WriteScopes);
    if auth.Err? {
      return Err(auth.error);
    }
    var user := Get(db.users.entries, userId);
    if user.None? {
      return Err(HttpError(NotFound, UserNotExists(userId), None));
    }
    var updated := UserCrud.UpdateUser(db.users, userId, patch, salt, now);
    r := match updated
      case Ok(e) => Ok(e)
      case Err(_) => Err(InternalError);
  }

  /** `get_user_by_id`: the active user with that id, or 404. */
  method GetUserById(db: Database, token: Token, key: string, now: Time, userId: Id) returns (r: Result<Entry, HttpError>)
    requires db.Valid()
    ensures var auth := GetCurrentActiveUser(db.users.entries, token, key, now, ReadScopes);
      && (auth.Err? ==> r == Err(auth.error))
      && (auth.Ok? ==> r == match Get(db.users.entries, userId)
            case Some(user) => Ok(user)
            case None => Err(HttpError(NotFound, UserNotExists(userId), None)))
      && (auth.Ok? ==> (r.Ok? <==> exists u :: u in db.users.entries && u.id == userId && IsActive(u.fields)))
      && (auth.Ok? && r.Err? ==> r.error == HttpError(NotFound, UserNotExists(userId), None))
    ensures r.Ok? ==> r.value in db.users.entries && r.value.id == userId && IsActive(r.value.fields)
  {
    var auth := GetCurrentActiveUser(db.users.entries, token, key, now, ReadScopes);
    if auth.Err? {
      return Err(auth.error);
    }
    var user := Get(db.users.entries, userId);
    if user.None? {
      return Err(HttpError(NotFound, UserNotExists(userId), None));
    }
    r := Ok(user.value);
  }
}
