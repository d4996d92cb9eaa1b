/** `CRUDUser`: users are created and updated with their password replaced by
    its hash, looked up by e-mail through the join, and authenticated. */
module UserCrud {
  import opened Wrappers
  import opened Documents
  import opened Query
  import opened ModelBase
  import opened Models
  import opened Store
  import opened Security
  import opened UserModel
  import opened UserSchema

  function ByEmail(email: string): Filter
  {
    ByField("email", Str(email))
  }

  predicate HasEmail(u: Entry, email: string)
  {
    "email" in u.fields && u.fields["email"] == Str(email)
  }

  /** Every record carries both timestamps, as every record `create` writes
      does (`pre_insert` sets them). */
  ghost predicate Stamped(t: Table)
  {
    forall e :: e in t ==> "created_at" in e.fields && "updated_at" in e.fields
  }

  /** `UserInDB(**doc)` on each document of the cursor in turn: the first one
      the schema rejects raises; otherwise the conversion of the last one, and
      none for an empty cursor. */
  function Converted(docs: seq<Fields>): Result<Option<UserInDb>, StoreError>
  {
    if forall i :: 0 <= i < |docs| ==> InDb(docs[i]).Some? then
      Ok(if docs == [] then None else InDb(docs[|docs| - 1]))
    else Err(ValidationError)
  }

  /** `_get_with_account_and_role`: the join with the filter as its `$match`,
      its documents converted by `LastConverted`. */
  method GetWithAccountAndRole(s: Snapshot, stage: Filter) returns (r: Result<Option<UserInDb>, StoreError>)
    ensures r == Converted(Pipeline(s, stage))
    ensures r.Ok? ==> (r.value.Some? <==> exists u :: u in s.users && Matches(u, stage))
  {
    var cursor := Pipeline(s, stage);
    r := LastConverted(cursor);
    var users := Select(s.users, stage);
    if users != [] {
      assert users[0] in users;
    }
  }

  /** The `async for` of `_get_with_account_and_role`: each document is
      converted to `UserInDB` and overwrites one variable, so the last one
      wins, and the empty start value stands for "none"; a rejected document
      raises out of the loop. */
  method LastConverted(cursor: seq<Fields>) returns (r: Result<Option<UserInDb>, StoreError>)
    ensures r == Converted(cursor)
    ensures r.Ok? ==> (r.value.Some? <==> cursor != [])
  {
    var last: Option<UserInDb> := None;
    var i := 0;
    while i < |cursor|
      invariant 0 <= i <= |cursor|
      invariant forall j :: 0 <= j < i ==> InDb(cursor[j]).Some?
      invariant last == if i == 0 then None else InDb(cursor[i - 1])
    {
      var converted := InDb(cursor[i]);
      if converted.None? {
        assert InDb(cursor[i]).None?;
        return Err(ValidationError);
      }
      last := converted;
      i := i + 1;
    }
    r := Ok(last);
  }

  /** The `_id` of the last user, in natural order, with that e-mail. */
  function UserIdByEmail(users: Table, email: string): (r: Option<Id>)
    ensures r.Some? <==> exists u :: u in users && HasEmail(u, email)
    ensures r.Some? ==> exists u :: u in users && HasEmail(u, email) && u.id == r.value
  {
    var found := Select(users, ByEmail(email));
    if found == [] then None
    else
      assert found[|found| - 1] in found;
      Some(found[|found| - 1].id)
  }

  /** What `get_by_email` returns: the `UserInDB` of the last user with that
      e-mail, active or not, or the error the conversion of any of the users
      with that e-mail raises. */
  function UserByEmail(s: Snapshot, email: string): (r: Result<Option<UserInDb>, StoreError>)
    ensures UserIdByEmail(s.users, email).None? ==> r == Ok(None)
    ensures r.Ok? ==> (r.value.Some? <==> UserIdByEmail(s.users, email).Some?)
    ensures r.Ok? && r.value.Some? ==> r.value.value.id == UserIdByEmail(s.users, email).value
  {
    PipelineLast(s, ByEmail(email));
    var found := Select(s.users, ByEmail(email));
    assert found != [] ==> found[0] in found;
    Converted(Pipeline(s, ByEmail(email)))
  }

  /** The user's own attributes pass `UserInDB` once the user passed the
      model's validation and carries its timestamps. */
  lemma JoinedOwnAttrs(s: Snapshot, u: Entry)
    requires Conforms(UserKind, u.fields) && "created_at" in u.fields && "updated_at" in u.fields
    ensures var j := Joined(s, u);
      && "_id" in j && j["_id"] == Oid(u.id)
      && TextAttr(j, "email") && TextAttr(j, "full_name")
      && TextAttr(j, "phone_number") && TextAttr(j, "hashed_password")
      && DateAttr(j, "created_at") && DateAttr(j, "updated_at")
      && ActiveAttr(j) && AccountIdAttr(j)
      && j["hashed_password"] == u.fields["hashed_password"]
  {
    JoinedUser(s, u);
    JoinedField(s, u, "is_active");
    JoinedField(s, u, "account_id");
    CopiedAttrs(u.fields, Joined(s, u));
  }

  /** The attributes of a user that passed validation pass `UserInDB` in any
      document that copies the user's own fields. */
  lemma CopiedAttrs(u: Fields, j: Fields)
    requires Conforms(UserKind, u) && "created_at" in u && "updated_at" in u
    requires forall k :: k in u && k != "_id" && k != "account" && k != "user_role" && k != "role" && k != "temp_role_id" ==>
      k in j && j[k] == u[k]
    requires ("is_active" in j ==> "is_active" in u) && ("account_id" in j ==> "account_id" in u)
    ensures TextAttr(j, "email") && TextAttr(j, "full_name")
    ensures TextAttr(j, "phone_number") && TextAttr(j, "hashed_password")
    ensures DateAttr(j, "created_at") && DateAttr(j, "updated_at")
    ensures ActiveAttr(j) && AccountIdAttr(j)
    ensures j["hashed_password"] == u["hashed_password"]
  {
    UserFieldBounds(u);
  }

  /** A looked-up list whose every item was projected from a record with a
      `name` passes `UserInDB`'s `Optional[Dict]`: each item has exactly
      the keys `_id` and `name`. */
  lemma NamedListIsDict(doc: Fields, key: string)
    requires key in doc && doc[key].Arr?
    requires forall x :: x in doc[key].items ==> "_id" in x && "name" in x && x.Keys <= {"_id", "name"}
    ensures DictAttr(doc, key).Some?
  {
    var items := doc[key].items;
    forall i | 0 <= i < |items|
      ensures items[i].Keys == {"_id", "name"}
    {
      assert items[i] in items;
    }
  }

  /** `account` passes `UserInDB` once the accounts passed validation. */
  lemma JoinedAccountIsDict(s: Snapshot, u: Entry)
    requires TableValid(AccountKind, s.accounts)
    ensures DictAttr(Joined(s, u), "account").Some?
  {
    var j := Joined(s, u);
    JoinedAccounts(s, u);
    forall x | x in j["account"].items
      ensures "_id" in x && "name" in x && x.Keys <= {"_id", "name"}
    {
      var a :| a in s.accounts && AccountIdOf(u) == Some(a.id) && x == Project(a, "name");
      assert Conforms(AccountKind, a.fields);
    }
    NamedListIsDict(j, "account");
  }

  /** `role` passes `UserInDB` once the roles passed validation. */
  lemma JoinedRoleIsDict(s: Snapshot, u: Entry)
    requires TableValid(RoleKind, s.roles)
    ensures "role" in Joined(s, u) && Joined(s, u)["role"].Arr?
    ensures DictAttr(Joined(s, u), "role").Some?
  {
    var j := Joined(s, u);
    JoinedRoles(s, u);
    forall x | x in j["role"].items
      ensures "_id" in x && "name" in x && x.Keys <= {"_id", "name"}
    {
      var r, ur :|
        && r in s.roles && ur in s.userRoles
        && "user_id" in ur.fields && ur.fields["user_id"] == Oid(u.id)
        && "role_id" in ur.fields && ur.fields["role_id"] == Oid(r.id)
        && x == Project(r, "name");
      assert Conforms(RoleKind, r.fields);
    }
    NamedListIsDict(j, "role");
  }

  /** When the user, the accounts and the roles passed validation and the
      user carries its timestamps, `UserInDB` accepts the joined document; its
      `role` is then a dict with no `name`. */
  lemma JoinedConverts(s: Snapshot, u: Entry)
    requires Conforms(UserKind, u.fields) && "created_at" in u.fields && "updated_at" in u.fields
    requires TableValid(AccountKind, s.accounts) && TableValid(RoleKind, s.roles)
    ensures InDb(Joined(s, u)).Some?
    ensures InDb(Joined(s, u)).value.id == u.id
    ensures InDb(Joined(s, u)).value.hashedPassword == HashedPassword(u.fields)
    ensures InDb(Joined(s, u)).value.role.Rec? && "name" !in InDb(Joined(s, u)).value.role.entries
  {
    JoinedOwnAttrs(s, u);
    JoinedAccountIsDict(s, u);
    JoinedRoleIsDict(s, u);
    UserFieldBounds(u.fields);
  }

  /** With the users stamped and the three collections valid, `get_by_email`
      never raises. */
  lemma UserByEmailConverts(s: Snapshot, email: string)
    requires TableValid(UserKind, s.users) && Stamped(s.users)
    requires TableValid(AccountKind, s.accounts) && TableValid(RoleKind, s.roles)
    ensures UserByEmail(s, email).Ok?
  {
    var users := Select(s.users, ByEmail(email));
    var docs := Pipeline(s, ByEmail(email));
    forall i | 0 <= i < |docs|
      ensures InDb(docs[i]).Some?
    {
      assert users[i] in users;
      JoinedConverts(s, users[i]);
    }
  }

  /** Whatever the collections hold, every user `get_by_email` returns has a
      `role` that is a dict without a `name` key: `UserInDB` builds it with
      `dict()` from the joined list of roles. */
  lemma ConvertedRoleHasNoName(s: Snapshot, email: string)
    ensures UserByEmail(s, email).Ok? && UserByEmail(s, email).value.Some? ==>
      UserByEmail(s, email).value.value.role.Rec? && "name" !in UserByEmail(s, email).value.value.role.entries
  {
    PipelineLast(s, ByEmail(email));
    var users := Select(s.users, ByEmail(email));
    if users != [] {
      JoinedRoles(s, users[|users| - 1]);
    }
  }

  /** `get_by_email`: the join first, then a plain `find_one` when the join
      yields nothing. The fallback can never find anything: the join has no
      filter of its own, so it yields a document whenever a user matches. */
  method GetByEmail(s: Snapshot, email: string) returns (r: Result<Option<UserInDb>, StoreError>)
    ensures r == UserByEmail(s, email)
  {
    var joined := GetWithAccountAndRole(s, ByEmail(email));
    if joined == Ok(None) {
      var guest := FindFirst(s.users, ByEmail(email));
      if guest.Some? {
        assert false;
      }
      r := Ok(None);
    } else {
      r := joined;
    }
  }

  /** A created user is the one `get_by_email` then finds for its e-mail. */
  lemma CreatedFoundByEmail(t: Table, e: Entry, email: string)
    requires HasEmail(e, email)
    ensures UserIdByEmail(t + [e], email) == Some(e.id)
  {
    SelectAppend(t, e, ByEmail(email));
  }

  /** The stored hash of a user record; a record without one verifies no
      password. */
  function HashedPassword(u: Fields): string
  {
    if "hashed_password" in u && u["hashed_password"].Str? then u["hashed_password"].s else ""
  }

  /** What `authenticate` returns: the error `get_by_email` raises, none when
      no user has that e-mail or the password does not verify against the
      stored hash, otherwise the user. */
  function Authenticated(s: Snapshot, email: string, password: string): (r: Result<Option<UserInDb>, StoreError>)
    ensures r.Err? <==> UserByEmail(s, email).Err?
    ensures r.Ok? && r.value.Some? <==>
      UserByEmail(s, email).Ok? && UserByEmail(s, email).value.Some?
      && VerifyPassword(password, UserByEmail(s, email).value.value.hashedPassword)
    ensures r.Ok? && r.value.Some? ==> r == UserByEmail(s, email)
  {
    match UserByEmail(s, email)
    case Err(e) => Err(e)
    case Ok(None) => Ok(None)
    case Ok(Some(u)) => if VerifyPassword(password, u.hashedPassword) then Ok(Some(u)) else Ok(None)
  }

  /** `authenticate`. */
  method Authenticate(s: Snapshot, email: string, password: string) returns (r: Result<Option<UserInDb>, StoreError>)
    ensures r == Authenticated(s, email, password)
  {
    var user := GetByEmail(s, email);
    if user.Err? || user.value.None? {
      return user;
    }
    if !VerifyPassword(password, user.value.value.hashedPassword) {
      return Ok(None);
    }
    r := user;
  }

  /** A user whose stored hash was made from `password` authenticates with it,
      provided it is the user `get_by_email` picks for its e-mail and the
      collections are valid: the result is that user's `UserInDB`. */
  lemma AuthenticateStored(s: Snapshot, u: Entry, email: string, password: string, salt: Salt)
    requires TableValid(UserKind, s.users) && Stamped(s.users) && u in s.users
    requires TableValid(AccountKind, s.accounts) && TableValid(RoleKind, s.roles)
    requires UserIdByEmail(s.users, email) == Some(u.id)
    requires "hashed_password" in u.fields && u.fields["hashed_password"] == Str(GetPasswordHash(password, salt))
    ensures Authenticated(s, email, password) == Ok(InDb(Joined(s, u)))
  {
    UserByEmailConverts(s, email);
    LastByEmail(s, email, u);
    JoinedConverts(s, u);
    VerifyHash(password, salt);
  }

  /** The last document the join yields for an e-mail is the join of the
      user `UserIdByEmail` names, when `_id`s are unique. */
  lemma LastByEmail(s: Snapshot, email: string, u: Entry)
    requires UniqueIds(s.users) && u in s.users && UserIdByEmail(s.users, email) == Some(u.id)
    ensures Last(Pipeline(s, ByEmail(email))) == Some(Joined(s, u))
  {
    var found := Select(s.users, ByEmail(email));
    PipelineLast(s, ByEmail(email));
    var last := found[|found| - 1];
    assert last in found;
    assert last == u by {
      var i :| 0 <= i < |s.users| && s.users[i] == u;
      var j :| 0 <= j < |s.users| && s.users[j] == last;
      assert s.users[i].id == s.users[j].id;
    }
  }

  // ---------------------------------------------------------------------
  // create and _update
  // ---------------------------------------------------------------------

  /** The `UserCreate` schema; `isActive` and `accountId` are `None` when the
      request left them unset, and `accountId` may be set to null. */
  datatype UserCreate = UserCreate(
    email: string, fullName: string, phoneNumber: string, password: string,
    isActive: Option<bool>, accountId: Option<Option<Id>>)

  /** `obj_in.dict(exclude_unset=True)`. */
  function CreateData(input: UserCreate): (r: Fields)
    ensures "password" in r && r["password"] == Str(input.password)
    ensures "email" in r && r["email"] == Str(input.email)
    ensures r.Keys <= {"email", "full_name", "phone_number", "password", "is_active", "account_id"}
    ensures "account_id" in r <==> input.accountId.Some?
  {
    var required: Fields := map[
      "email" := Str(input.email), "full_name" := Str(input.fullName),
      "phone_number" := Str(input.phoneNumber), "password" := Str(input.password)];
    var withActive := if input.isActive.Some? then required["is_active" := Bool(input.isActive.value)] else required;
    match input.accountId
    case None => withActive
    case Some(None) => withActive["account_id" := Null]
    case Some(Some(a)) => withActive["account_id" := Oid(a)]
  }

  /** What `create` hands to `CRUDBase.create`: the input with `password`
      replaced by `hashed_password`. */
  function NewUserData(input: UserCreate, salt: Salt): (r: Fields)
    ensures "password" !in r
    ensures "hashed_password" in r && r["hashed_password"] == Str(GetPasswordHash(input.password, salt))
    ensures VerifyPassword(input.password, r["hashed_password"].s)
    ensures "email" in r && r["email"] == Str(input.email)
    ensures forall k :: k in CreateData(input) && k != "password" ==> k in r && r[k] == CreateData(input)[k]
  {
    var data := CreateData(input);
    var hashed := GetPasswordHash(input.password, salt);
    assert VerifyPassword(input.password, hashed) by { VerifyHash(input.password, salt); }
    assert "hashed_password" !in data;
    var r := Rekeyed(data, "password", "hashed_password", Str(hashed));
    assert forall k :: k in data && k != "password" ==> k in r && r[k] == data[k];
    r
  }

  /** `m` with the key `from` deleted and `to` set to `v`. */
  function Rekeyed(m: Fields, from: string, to: string, v: Value): (r: Fields)
    requires from != to
    ensures from !in r && to in r && r[to] == v
    ensures forall k :: k in m && k != from && k != to ==> k in r && r[k] == m[k]
    ensures r.Keys == m.Keys - {from} + {to}
  {
    (m - {from})[to := v]
  }

  /** `create`. */
  method CreateUser(users: Collection, input: UserCreate, salt: Salt, now: Time, oid: Id) returns (r: Result<Entry, StoreError>)
    requires users.Valid() && users.kind == UserKind
    modifies users
    ensures users.Valid()
    ensures var data := InsertStamped(WithDefaults(NewUserData(input, salt)), now);
      if !Conforms(UserKind, data) then r == Err(ValidationError) && users.entries == old(users.entries)
      else if oid in Ids(old(users.entries)) then r == Err(DuplicateKey) && users.entries == old(users.entries)
      else r == Ok(Entry(oid, data)) && users.entries == old(users.entries) + [Entry(oid, data)]
  {
    var data := CreateData(input);
    data := data["hashed_password" := Str(GetPasswordHash(data["password"].s, salt))];
    data := data - {"password"};
    assert data == NewUserData(input, salt);
    r := users.Create(data, now, oid);
  }

  /** What `_update` hands to `CRUDBase._update`: a supplied `password` is
      replaced by `hashed_password`; `None` when that password is not text,
      which the hashing helper rejects. */
  function UserPatch(patch: Fields, salt: Salt): (r: Option<Fields>)
    ensures r.None? <==> "password" in patch && !patch["password"].Str?
    ensures r.Some? ==> "password" !in r.value
    ensures r.Some? && "password" in patch ==>
      && "hashed_password" in r.value
      && r.value["hashed_password"] == Str(GetPasswordHash(patch["password"].s, salt))
      && VerifyPassword(patch["password"].s, GetPasswordHash(patch["password"].s, salt))
    ensures r.Some? && "password" !in patch ==> r.value == patch
    ensures r.Some? ==> (r.value == map[] <==> patch == map[])
    ensures r.Some? ==> forall k :: k in patch && k != "password" && k != "hashed_password" ==> k in r.value && r.value[k] == patch[k]
  {
    if "password" !in patch then Some(patch)
    else if !patch["password"].Str? then None
    else
      VerifyHash(patch["password"].s, salt);
      Some(Rekeyed(patch, "password", "hashed_password", Str(GetPasswordHash(patch["password"].s, salt))))
  }

  /** A `UserCreate` that leaves `account_id` unset never passes the
      model's validation: the field is required even though null is
      allowed, so `create` stores nothing. */
  lemma UnsetAccountIdRejected(input: UserCreate, salt: Salt, now: Time)
    requires input.accountId.None?
    ensures !Conforms(UserKind, InsertStamped(WithDefaults(NewUserData(input, salt)), now))
  {
    var data := CreateData(input);
    var hashed := Str(GetPasswordHash(input.password, salt));
    assert NewUserData(input, salt) == Rekeyed(data, "password", "hashed_password", hashed);
    assert "account_id" !in NewUserData(input, salt);
    var doc := InsertStamped(WithDefaults(NewUserData(input, salt)), now);
    assert "account_id" !in doc;
    if Conforms(UserKind, doc) {
      UserFieldBounds(doc);
      assert false;
    }
  }

  /** `_update` on a user. */
  method UpdateUser(users: Collection, id: Id, patch: Fields, salt: Salt, now: Time) returns (r: Result<Entry, StoreError>)
    requires users.Valid() && users.kind == UserKind
    modifies users
    ensures users.Valid()
    ensures UserPatch(patch, salt).None? ==> r == Err(ValidationError) && users.entries == old(users.entries)
    ensures UserPatch(patch, salt).Some? && Get(old(users.entries), id).None? ==>
      r == Err(MissingRecord) && users.entries == old(users.entries)
    ensures UserPatch(patch, salt).Some? && Get(old(users.entries), id).Some? && patch == map[] ==>
      r == Ok(Get(old(users.entries), id).value) && users.entries == old(users.entries)
    ensures UserPatch(patch, salt).Some? && Get(old(users.entries), id).Some? && patch != map[] ==>
      var data := UpdateStamped(Get(old(users.entries), id).value.fields + UserPatch(patch, salt).value, now);
      if Conforms(UserKind, data) then r == Ok(Entry(id, data)) && users.entries == Put(old(users.entries), Entry(id, data))
      else r == Err(ValidationError) && users.entries == old(users.entries)
  {
    var data := patch;
    if "password" in data {
      if !data["password"].Str? {
        return Err(ValidationError);
      }
      var hashed := GetPasswordHash(data["password"].s, salt);
      data := data - {"password"};
      data := data["hashed_password" := Str(hashed)];
    }
    r := users.Update(id, data, now);
  }

  /** An update without `password` leaves the stored hash as it was. */
  lemma UpdateKeepsHash(stored: Fields, patch: Fields, salt: Salt, now: Time)
    requires "password" !in patch && "hashed_password" !in patch && "hashed_password" in stored
    ensures var data := UpdateStamped(stored + UserPatch(patch, salt).value, now);
      "hashed_password" in data && data["hashed_password"] == stored["hashed_password"]
  {
  }

  // ---------------------------------------------------------------------
  // get_by_account_id
  // ---------------------------------------------------------------------

  /** `get_by_account_id`: the users of an account, active or not, through the
      same sort, skip and limit as `get_multi`. */
  method GetByAccountId(users: Table, accountId: Id, skip: nat, limit: int) returns (response: seq<Entry>)
    ensures response == Window(SortByNameDesc(Select(users, ByField("account_id", Oid(accountId)))), skip, limit)
    ensures forall u :: u in response ==> u in users && "account_id" in u.fields && u.fields["account_id"] == Oid(accountId)
    ensures limit != 0 ==> |response| <= Abs(limit)
    ensures skip == 0 && limit == 0 ==>
      multiset(response) == multiset(Select(users, ByField("account_id", Oid(accountId))))
  {
    var found := Select(users, ByField("account_id", Oid(accountId)));
    var cursor := Window(SortByNameDesc(found), skip, limit);
    CursorWindow(users, ByField("account_id", Oid(accountId)), skip, limit);
    response := [];
    var i := 0;
    while i < |cursor|
      invariant 0 <= i <= |cursor|
      invariant response == cursor[..i]
    {
      response := response + [cursor[i]];
      i := i + 1;
    }
  }
}
