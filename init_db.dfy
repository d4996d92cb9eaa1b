/** Bootstrap: the superadmin account, the superadmin user, the five default
    roles and the superadmin's role assignment, each inserted only when its
    lookup finds nothing. */
module InitDb {
  import opened Wrappers
  import opened Documents
  import opened ModelBase
  import opened Models
  import opened Store
  import opened Security
  import opened UserCrud
  import opened UserRoleCrud
  import opened Deps
  import opened AccountsRouter

  /** The role descriptions the `Role` constants carry. */
  datatype RoleDescriptions = RoleDescriptions(
    guest: string, accountAdmin: string, accountManager: string, admin: string, superAdmin: string)

  /** The settings `init_db` reads; `salt` is the randomness the password
      hash draws. */
  datatype Settings = Settings(
    accountName: string, email: string, password: string, phoneNumber: string,
    salt: Salt, descriptions: RoleDescriptions)

  const SuperadminAccountDescription: string := "superadmin account"

  function SuperadminAccount(settings: Settings): AccountCreate
  {
    AccountCreate(settings.accountName, Some(SuperadminAccountDescription), None, None, Some(true))
  }

  function SuperadminUser(settings: Settings, accountId: Id): UserCreate
  {
    UserCreate(settings.email, settings.email, settings.phoneNumber, settings.password, None, Some(Some(accountId)))
  }

  /** `jsonable_encoder(RoleCreate(...))`. */
  function RoleData(name: string, description: string): Fields
  {
    map["name" := Str(name), "description" := Str(description)]
  }

  /** `create_superadmin_account`, on the accounts collection. */
  method CreateSuperadminAccount(accounts: Collection, settings: Settings, now: Time, oid: Id) returns (r: Result<(), StoreError>)
    requires accounts.Valid() && accounts.kind == AccountKind
    modifies accounts
    ensures accounts.Valid()
    ensures GetByName(old(accounts.entries), settings.accountName).Some? ==>
      r == Ok(()) && accounts.entries == old(accounts.entries)
    ensures GetByName(old(accounts.entries), settings.accountName).None? ==>
      var data := InsertStamped(WithDefaults(AccountData(SuperadminAccount(settings))), now);
      if !Conforms(AccountKind, data) then r == Err(ValidationError) && accounts.entries == old(accounts.entries)
      else if oid in Ids(old(accounts.entries)) then r == Err(DuplicateKey) && accounts.entries == old(accounts.entries)
      else r == Ok(()) && accounts.entries == old(accounts.entries) + [Entry(oid, data)]
    ensures r.Ok? ==> GetByName(accounts.entries, settings.accountName).Some?
    ensures r != Err(MissingRecord)
  {
    var account := GetByName(accounts.entries, settings.accountName);
    if account.None? {
      var created := accounts.Create(AccountData(SuperadminAccount(settings)), now, oid);
      match created {
        case Ok(e) =>
          assert e in accounts.entries;
          r := Ok(());
        case Err(err) =>
          r := Err(err);
      }
    } else {
      r := Ok(());
    }
  }

  /** `create_superadmin_user`: the user `get_by_email` finds, or a new one
      under the superadmin account; a missing account makes the source
      dereference `None`. The `_id` of the user is returned. */
  method CreateSuperadminUser(users: Collection, accounts: Collection, settings: Settings, now: Time, oid: Id)
    returns (r: Result<Id, StoreError>)
    requires users.Valid() && users.kind == UserKind && accounts.kind == AccountKind
    modifies users
    ensures users.Valid()
    ensures UserIdByEmail(old(users.entries), settings.email).Some? ==>
      r == Ok(UserIdByEmail(old(users.entries), settings.email).value) && users.entries == old(users.entries)
    ensures UserIdByEmail(old(users.entries), settings.email).None? && GetByName(accounts.entries, settings.accountName).None? ==>
      r == Err(MissingRecord) && users.entries == old(users.entries)
    ensures UserIdByEmail(old(users.entries), settings.email).None? && GetByName(accounts.entries, settings.accountName).Some? ==>
      var account := GetByName(accounts.entries, settings.accountName).value;
      var data := InsertStamped(WithDefaults(NewUserData(SuperadminUser(settings, account.id), settings.salt)), now);
      if !Conforms(UserKind, data) then r == Err(ValidationError) && users.entries == old(users.entries)
      else if oid in Ids(old(users.entries)) then r == Err(DuplicateKey) && users.entries == old(users.entries)
      else r == Ok(oid) && users.entries == old(users.entries) + [Entry(oid, data)]
    ensures r.Ok? ==> UserIdByEmail(users.entries, settings.email) == Some(r.value)
    ensures r == Err(MissingRecord) ==> GetByName(accounts.entries, settings.accountName).None?
  {
    var user := UserIdByEmail(users.entries, settings.email);
    if user.Some? {
      return Ok(user.value);
    }
    var account := GetByName(accounts.entries, settings.accountName);
    if account.None? {
      return Err(MissingRecord);
    }
    r := InsertSuperadminUser(users, settings, account.value.id, now, oid);
  }

  /** The insert of `create_superadmin_user`, under the given account. */
  method InsertSuperadminUser(users: Collection, settings: Settings, accountId: Id, now: Time, oid: Id)
    returns (r: Result<Id, StoreError>)
    requires users.Valid() && users.kind == UserKind
    modifies users
    ensures users.Valid()
    ensures var data := InsertStamped(WithDefaults(NewUserData(SuperadminUser(settings, accountId), settings.salt)), now);
      if !Conforms(UserKind, data) then r == Err(ValidationError) && users.entries == old(users.entries)
      else if oid in Ids(old(users.entries)) then r == Err(DuplicateKey) && users.entries == old(users.entries)
      else r == Ok(oid) && users.entries == old(users.entries) + [Entry(oid, data)]
    ensures r.Ok? ==> UserIdByEmail(users.entries, settings.email) == Some(r.value)
  {
    var before := users.entries;
    var created := UserCrud.CreateUser(users, SuperadminUser(settings, accountId), settings.salt, now, oid);
    match created {
      case Ok(e) =>
        CreatedFoundByEmail(before, e, settings.email);
        r := Ok(e.id);
      case Err(err) =>
        r := Err(err);
    }
  }

  /** `create_default_role`, on the roles collection. */
  method CreateDefaultRole(roles: Collection, name: string, description: string, now: Time, oid: Id) returns (r: Result<(), StoreError>)
    requires roles.Valid() && roles.kind == RoleKind
    modifies roles
    ensures roles.Valid()
    ensures GetByName(old(roles.entries), name).Some? ==>
      r == Ok(()) && roles.entries == old(roles.entries)
    ensures GetByName(old(roles.entries), name).None? ==>
      var data := InsertStamped(WithDefaults(RoleData(name, description)), now);
      if !Conforms(RoleKind, data) then r == Err(ValidationError) && roles.entries == old(roles.entries)
      else if oid in Ids(old(roles.entries)) then r == Err(DuplicateKey) && roles.entries == old(roles.entries)
      else r == Ok(()) && roles.entries == old(roles.entries) + [Entry(oid, data)]
    ensures r.Ok? ==> GetByName(roles.entries, name).Some?
    ensures old(roles.entries) <= roles.entries
    ensures r != Err(MissingRecord)
  {
    var role := GetByName(roles.entries, name);
    if role.None? {
      var created := roles.Create(RoleData(name, description), now, oid);
      match created {
        case Ok(e) =>
          assert e in roles.entries;
          r := Ok(());
        case Err(err) =>
          r := Err(err);
      }
    } else {
      r := Ok(());
    }
  }

  /** `create_superadmin_user_role`: a record pointing at the SUPER_ADMIN
      role unless the user already has one; a missing role makes the source
      dereference `None`. */
  method CreateSuperadminUserRole(userRoles: Collection, roles: Collection, userId: Id, now: Time, oid: Id)
    returns (r: Result<(), StoreError>)
    requires userRoles.Valid() && userRoles.kind == UserRoleKind && roles.kind == RoleKind
    modifies userRoles
    ensures userRoles.Valid()
    ensures GetByUserId(old(userRoles.entries), userId).Some? ==>
      r == Ok(()) && userRoles.entries == old(userRoles.entries)
    ensures GetByUserId(old(userRoles.entries), userId).None? && GetByName(roles.entries, SuperAdmin).None? ==>
      r == Err(MissingRecord) && userRoles.entries == old(userRoles.entries)
    ensures GetByUserId(old(userRoles.entries), userId).None? && GetByName(roles.entries, SuperAdmin).Some? ==>
      var data := InsertStamped(WithDefaults(NewUserRoleData(userId, GetByName(roles.entries, SuperAdmin).value.id)), now);
      if !Conforms(UserRoleKind, data) then r == Err(ValidationError) && userRoles.entries == old(userRoles.entries)
      else if oid in Ids(old(userRoles.entries)) then r == Err(DuplicateKey) && userRoles.entries == old(userRoles.entries)
      else r == Ok(()) && userRoles.entries == old(userRoles.entries) + [Entry(oid, data)]
    ensures r.Ok? ==> GetByUserId(userRoles.entries, userId).Some?
    ensures r == Err(MissingRecord) ==> GetByName(roles.entries, SuperAdmin).None?
  {
    var userRole := GetByUserId(userRoles.entries, userId);
    if userRole.Some? {
      return Ok(());
    }
    var role := GetByName(roles.entries, SuperAdmin);
    if role.None? {
      return Err(MissingRecord);
    }
    CreatedUserRole(userId, role.value.id, now);
    var created := userRoles.Create(NewUserRoleData(userId, role.value.id), now, oid);
    match created {
      case Ok(e) =>
        assert e in userRoles.entries;
        r := Ok(());
      case Err(err) =>
        r := Err(err);
    }
  }

  /** Each of `names` is among the active roles. */
  ghost predicate Present(t: Table, names: seq<string>)
  {
    names == [] || (GetByName(t, names[0]).Some? && Present(t, names[1..]))
  }

  /** The five default roles are among the active roles; the list is built
      the way `CreateDefaultRoles` extends it, newest first. */
  ghost predicate RolesPresent(t: Table)
  {
    Present(t, [SuperAdmin] + ([Admin] + ([AccountManager] + ([AccountAdmin] + ([Guest] + [])))))
  }

  /** Roles found by name stay found once more records are appended. */
  lemma {:induction false} PresentKept(before: Table, after: Table, names: seq<string>)
    requires Present(before, names) && before <= after
    ensures Present(after, names)
    decreases |names|
  {
    if names != [] {
      KeepsName(before, after, names[0]);
      PresentKept(before, after, names[1..]);
    }
  }

  lemma PresentHead(t: Table, name: string, rest: seq<string>)
    requires Present(t, [name] + rest)
    ensures GetByName(t, name).Some? && Present(t, rest)
  {
    assert ([name] + rest)[1..] == rest;
  }

  /** What the five default roles being present says of each. */
  lemma AllPresent(t: Table)
    requires RolesPresent(t)
    ensures GetByName(t, Guest).Some? && GetByName(t, AccountAdmin).Some? && GetByName(t, AccountManager).Some?
    ensures GetByName(t, Admin).Some? && GetByName(t, SuperAdmin).Some?
  {
    PresentHead(t, SuperAdmin, [Admin] + ([AccountManager] + ([AccountAdmin] + ([Guest] + []))));
    PresentHead(t, Admin, [AccountManager] + ([AccountAdmin] + ([Guest] + [])));
    PresentHead(t, AccountManager, [AccountAdmin] + ([Guest] + []));
    PresentHead(t, AccountAdmin, [Guest] + []);
    PresentHead(t, Guest, []);
  }

  /** What the `create_default_role` calls so far have left, starting from
      `start` with the roles `found` created or found: `start` is a prefix
      with at most one record more per call, every role in `found` is
      present, nothing changed when `start` already held all five, and a
      fresh store holds exactly one record per call, named after it. */
  ghost predicate Progress(start: Table, t: Table, found: seq<string>)
  {
    && start <= t && |t| <= |start| + |found|
    && Present(t, found)
    && (RolesPresent(start) ==> t == start)
    && (start == [] ==> OnlyNamed(t, found) && |t| == |found|)
  }

  /** Every record of `t` is named after one of `names`. */
  ghost predicate OnlyNamed(t: Table, names: seq<string>)
  {
    forall e :: e in t ==> "name" in e.fields && e.fields["name"].Str? && e.fields["name"].s in names
  }

  /** One `create_default_role` call of `init_db`, as a step that keeps
      `Progress`. */
  method DefaultRoleStep(roles: Collection, ghost start: Table, ghost found: seq<string>, name: string, description: string, now: Time, oid: Id)
    returns (r: Result<(), StoreError>)
    requires roles.Valid() && roles.kind == RoleKind
    requires Progress(start, roles.entries, found) && name !in found
    requires RolesPresent(start) ==> GetByName(start, name).Some?
    modifies roles
    ensures roles.Valid()
    ensures r.Ok? ==> Progress(start, roles.entries, [name] + found)
    ensures start <= roles.entries && |roles.entries| <= |start| + |found| + 1
    ensures RolesPresent(start) ==> r.Ok?
    ensures r != Err(MissingRecord)
  {
    ghost var before := roles.entries;
    r := CreateDefaultRole(roles, name, description, now, oid);
    ghost var data := InsertStamped(WithDefaults(RoleData(name, description)), now);
    assert roles.entries == before || roles.entries == before + [Entry(oid, data)];
    PrefixStep(start, before, roles.entries, |found|);
    if r.Ok? {
      assert data["name"] == Str(name);
      StepKeepsProgress(start, before, roles.entries, found, name, Entry(oid, data));
    }
  }

  /** A prefix of a prefix that grew by at most one record. */
  lemma PrefixStep(start: Table, before: Table, after: Table, k: nat)
    requires start <= before && |before| <= |start| + k
    requires before <= after && |after| <= |before| + 1
    ensures start <= after && |after| <= |start| + k + 1
  {
    assert after[..|start|] == before[..|start|];
  }

  /** A `create_default_role` call that succeeded, having found the role or
      appended `e`, which is named after it, keeps `Progress`. */
  lemma StepKeepsProgress(start: Table, before: Table, after: Table, found: seq<string>, name: string, e: Entry)
    requires Progress(start, before, found) && name !in found
    requires RolesPresent(start) ==> GetByName(start, name).Some?
    requires GetByName(before, name).Some? ==> after == before
    requires GetByName(before, name).None? ==> after == before + [e]
    requires "name" in e.fields && e.fields["name"] == Str(name)
    requires GetByName(after, name).Some?
    ensures Progress(start, after, [name] + found)
  {
    assert before <= after;
    PrefixStep(start, before, after, |found|);
    PresentKept(before, after, found);
    assert ([name] + found)[1..] == found;
    if start == [] {
      assert GetByName(before, name).None?;
      assert forall x :: x in after ==> x in before || x == e;
    }
  }

  /** The five `create_default_role` calls of `init_db`, in order. */
  method CreateDefaultRoles(roles: Collection, d: RoleDescriptions, now: Time, oids: seq<Id>) returns (r: Result<(), StoreError>)
    requires roles.Valid() && roles.kind == RoleKind && |oids| == 5
    modifies roles
    ensures roles.Valid()
    ensures r.Ok? ==> RolesPresent(roles.entries)
    ensures RolesPresent(old(roles.entries)) ==> r.Ok? && roles.entries == old(roles.entries)
    ensures r != Err(MissingRecord)
    ensures old(roles.entries) <= roles.entries && |roles.entries| <= |old(roles.entries)| + 5
    ensures r.Ok? && old(roles.entries) == [] ==> |roles.entries| == 5
  {
    ghost var t0 := roles.entries;
    var o0, o1, o2, o3, o4 := oids[0], oids[1], oids[2], oids[3], oids[4];
    if RolesPresent(t0) {
      AllPresent(t0);
    }
    DefaultNamesDistinct();
    ghost var n1 := [Guest] + [];
    ghost var n2 := [AccountAdmin] + n1;
    ghost var n3 := [AccountManager] + n2;
    ghost var n4 := [Admin] + n3;
    r := DefaultRoleStep(roles, t0, [], Guest, d.guest, now, o0);
    if r.Err? {
      return;
    }
    r := DefaultRoleStep(roles, t0, n1, AccountAdmin, d.accountAdmin, now, o1);
    if r.Err? {
      return;
    }
    r := DefaultRoleStep(roles, t0, n2, AccountManager, d.accountManager, now, o2);
    if r.Err? {
      return;
    }
    r := DefaultRoleStep(roles, t0, n3, Admin, d.admin, now, o3);
    if r.Err? {
      return;
    }
    r := DefaultRoleStep(roles, t0, n4, SuperAdmin, d.superAdmin, now, o4);
  }

  /** Each default role's name differs from those created before it. */
  lemma DefaultNamesDistinct()
    ensures AccountAdmin !in [Guest] + []
    ensures AccountManager !in [AccountAdmin] + ([Guest] + [])
    ensures Admin !in [AccountManager] + ([AccountAdmin] + ([Guest] + []))
    ensures SuperAdmin !in [Admin] + ([AccountManager] + ([AccountAdmin] + ([Guest] + [])))
  {
    assert |Guest| == 5 && |Admin| == 5 && |AccountAdmin| == 13 && |AccountManager| == 15 && |SuperAdmin| == 11;
    assert Guest[0] != Admin[0];
  }

  /** The first two calls of `init_db`: the superadmin account, then the
      superadmin user, whose `_id` is returned. */
  method CreateSuperadmin(accounts: Collection, users: Collection, settings: Settings, now: Time, accountOid: Id, userOid: Id)
    returns (r: Result<Id, StoreError>)
    requires accounts.Valid() && accounts.kind == AccountKind && users.Valid() && users.kind == UserKind
    modifies accounts, users
    ensures accounts.Valid() && users.Valid()
    ensures r.Ok? ==> SuperadminExists(accounts.entries, users.entries, settings) && UserIdByEmail(users.entries, settings.email) == Some(r.value)
    ensures SuperadminExists(old(accounts.entries), old(users.entries), settings) ==>
      && r == Ok(UserIdByEmail(old(users.entries), settings.email).value)
      && accounts.entries == old(accounts.entries) && users.entries == old(users.entries)
    ensures r != Err(MissingRecord)
  {
    var account := CreateSuperadminAccount(accounts, settings, now, accountOid);
    if account.Err? {
      return Err(account.error);
    }
    r := CreateSuperadminUser(users, accounts, settings, now, userOid);
  }

  /** The last six calls of `init_db`: the default roles, then the
      superadmin's role assignment. */
  method CreateRolesAndAssignment(roles: Collection, userRoles: Collection, userId: Id, d: RoleDescriptions, now: Time, oids: seq<Id>)
    returns (r: Result<(), StoreError>)
    requires roles.Valid() && roles.kind == RoleKind && userRoles.Valid() && userRoles.kind == UserRoleKind && |oids| == 6
    modifies roles, userRoles
    ensures roles.Valid() && userRoles.Valid()
    ensures r.Ok? ==> RolesAssigned(roles.entries, userRoles.entries, userId)
    ensures RolesAssigned(old(roles.entries), old(userRoles.entries), userId) ==>
      r.Ok? && roles.entries == old(roles.entries) && userRoles.entries == old(userRoles.entries)
    ensures r != Err(MissingRecord)
  {
    assert roles != userRoles;
    var roleOids, userRoleOid := oids[..5], oids[5];
    r := CreateDefaultRoles(roles, d, now, roleOids);
    if r.Err? {
      return;
    }
    AllPresent(roles.entries);
    r := CreateSuperadminUserRole(userRoles, roles, userId, now, userRoleOid);
  }

  /** What a completed bootstrap leaves: the account, the user, the five
      roles among the active records, and a role assignment for the user. */
  ghost predicate Initialized(accounts: Table, users: Table, roles: Table, userRoles: Table, settings: Settings)
  {
    && SuperadminExists(accounts, users, settings)
    && RolesAssigned(roles, userRoles, UserIdByEmail(users, settings.email).value)
  }

  /** The superadmin account and user exist. */
  ghost predicate SuperadminExists(accounts: Table, users: Table, settings: Settings)
  {
    GetByName(accounts, settings.accountName).Some? && UserIdByEmail(users, settings.email).Some?
  }

  /** The default roles exist and the user has a role assignment. */
  ghost predicate RolesAssigned(roles: Table, userRoles: Table, userId: Id)
  {
    RolesPresent(roles) && GetByUserId(userRoles, userId).Some?
  }

  /** `init_db`. `oids` are the ObjectIds the driver hands out, one per
      possible insert. Once initialized, running it again changes nothing. */
  method Init(db: Database, settings: Settings, now: Time, oids: seq<Id>) returns (r: Result<(), StoreError>)
    requires db.Valid() && |oids| == 8
    modifies db.accounts, db.users, db.roles, db.userRoles
    ensures db.Valid()
    ensures r.Ok? ==> Initialized(db.accounts.entries, db.users.entries, db.roles.entries, db.userRoles.entries, settings)
    ensures Initialized(old(db.accounts.entries), old(db.users.entries), old(db.roles.entries), old(db.userRoles.entries), settings) ==>
      && r.Ok?
      && db.accounts.entries == old(db.accounts.entries) && db.users.entries == old(db.users.entries)
      && db.roles.entries == old(db.roles.entries) && db.userRoles.entries == old(db.userRoles.entries)
    ensures r != Err(MissingRecord)
  {
    ghost var before := (db.accounts.entries, db.users.entries, db.roles.entries, db.userRoles.entries);
    assert db.roles != db.accounts && db.roles != db.users && db.userRoles != db.accounts && db.userRoles != db.users;
    var user := CreateSuperadmin(db.accounts, db.users, settings, now, oids[0], oids[1]);
    assert db.roles.entries == before.2 && db.userRoles.entries == before.3;
    if user.Err? {
      return Err(user.error);
    }
    r := CreateRolesAndAssignment(db.roles, db.userRoles, user.value, settings.descriptions, now, oids[2..]);
  }

  /** A role found by name before an insert-if-absent step is still found
      after it: the steps only append. */
  lemma KeepsName(before: Table, after: Table, name: string)
    requires GetByName(before, name).Some? && before <= after
    ensures GetByName(after, name).Some?
  {
    var x := GetByName(before, name).value;
    var i :| 0 <= i < |before| && before[i] == x;
    assert after[i] == x;
  }
}
