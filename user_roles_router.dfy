/** The `/user-roles` router: assigning a role to a user once, and changing
    the role later. */
module UserRolesRouter {
  import opened Wrappers
  import opened Documents
  import opened ModelBase
  import opened Models
  import opened Store
  import opened Security
  import opened UserRoleCrud
  import opened Deps

  /** Both endpoints. */
  const UserRoleScopes: seq<string> := [Admin, SuperAdmin, AccountAdmin]

  function AlreadyAssigned(userId: Id): string
  {
    "User with id <<" + IdString(userId) + ">> already has been assigned a role"
  }

  function NoRoleAssigned(userId: Id): string
  {
    "There is no role assigned to this user with id <<" + IdString(userId) + ">>"
  }

  /** `assign_user_role`: 409 when the user already has a record, soft-deleted
      or not; otherwise exactly one new active record with the two ids. */
  method AssignUserRole(db: Database, token: Token, key: string, now: Time, userId: Id, roleId: Id, oid: Id) returns (r: Result<Entry, HttpError>)
    requires db.Valid()
    modifies db.userRoles
    ensures db.Valid()
    ensures var auth := GetCurrentActiveUser(db.users.entries, token, key, now, UserRoleScopes);
      && (auth.Err? ==> r == Err(auth.error) && db.userRoles.entries == old(db.userRoles.entries))
      && (auth.Ok? && GetByUserId(old(db.userRoles.entries), userId).Some? ==>
            r == Err(HttpError(Conflict, AlreadyAssigned(userId), None)) && db.userRoles.entries == old(db.userRoles.entries))
      && (auth.Ok? && GetByUserId(old(db.userRoles.entries), userId).None? && oid in Ids(old(db.userRoles.entries)) ==>
            r == Err(InternalError) && db.userRoles.entries == old(db.userRoles.entries))
      && (auth.Ok? && GetByUserId(old(db.userRoles.entries), userId).None? && oid !in Ids(old(db.userRoles.entries)) ==>
            r == Ok(Entry(oid, InsertStamped(WithDefaults(NewUserRoleData(userId, roleId)), now)))
            && db.userRoles.entries == old(db.userRoles.entries) + [r.value])
    ensures r.Ok? ==>
      && r.value.id == oid && IsActive(r.value.fields)
      && BelongsTo(r.value, userId) && "role_id" in r.value.fields && r.value.fields["role_id"] == Oid(roleId)
      && db.userRoles.entries == old(db.userRoles.entries) + [r.value]
    ensures OnePerUser(old(db.userRoles.entries)) ==> OnePerUser(db.userRoles.entries)
  {
    var auth := GetCurrentActiveUser(db.users.entries, token, key, now, UserRoleScopes);
    if auth.Err? {
      return Err(auth.error);
    }
    var existing := GetByUserId(db.userRoles.entries, userId);
    if existing.Some? {
      return Err(HttpError(Conflict, AlreadyAssigned(userId), None));
    }
    var before := db.userRoles.entries;
    CreatedUserRole(userId, roleId, now);
    var created := db.userRoles.Create(NewUserRoleData(userId, roleId), now, oid);
    match created {
      case Ok(e) =>
        if OnePerUser(before) {
          AssignKeepsOnePerUser(before, e, userId);
        }
        r := Ok(e);
      case Err(_) =>
        r := Err(InternalError);
    }
  }

  /** How `update_user_role` ends once authorized: 404 when the user has no
      record; a soft-deleted record is found by `get_by_user_id` but missed
      by the `get` inside `_update`, which then fails with 500; an active
      record gets the new `role_id` and a fresh `updated_at`, in place. */
  ghost predicate ReassignedAs(before: Table, after: Table, userId: Id, roleId: Id, now: Time, r: Result<Entry, HttpError>)
  {
    match GetByUserId(before, userId)
    case None => r == Err(HttpError(NotFound, NoRoleAssigned(userId), None)) && after == before
    case Some(found) =>
      if IsActive(found.fields) then
        r == Ok(Entry(found.id, UpdateStamped(found.fields + map["role_id" := Oid(roleId)], now)))
        && after == Put(before, r.value)
      else r == Err(InternalError) && after == before
  }

  /** `update_user_role`: authorization, then `ReassignRole`. */
  method UpdateUserRole(db: Database, token: Token, key: string, now: Time, userId: Id, roleId: Id) returns (r: Result<Entry, HttpError>)
    requires db.Valid()
    modifies db.userRoles
    ensures db.Valid()
    ensures var auth := GetCurrentActiveUser(db.users.entries, token, key, now, UserRoleScopes);
      && (auth.Err? ==> r == Err(auth.error) && db.userRoles.entries == old(db.userRoles.entries))
      && (auth.Ok? ==> ReassignedAs(old(db.userRoles.entries), db.userRoles.entries, userId, roleId, now, r))
    ensures r.Ok? ==> BelongsTo(r.value, userId) && "role_id" in r.value.fields && r.value.fields["role_id"] == Oid(roleId)
    ensures OnePerUser(old(db.userRoles.entries)) ==> OnePerUser(db.userRoles.entries)
  {
    var auth := GetCurrentActiveUser(db.users.entries, token, key, now, UserRoleScopes);
    if auth.Err? {
      return Err(auth.error);
    }
    assert db.users != db.userRoles;
    r := ReassignRole(db.userRoles, userId, roleId, now);
  }

  /** The part of `update_user_role` after authorization: the user's
      user-role record gets the new `role_id`. */
  method ReassignRole(userRoles: Collection, userId: Id, roleId: Id, now: Time) returns (r: Result<Entry, HttpError>)
    requires userRoles.Valid() && userRoles.kind == UserRoleKind
    modifies userRoles
    ensures userRoles.Valid()
    ensures ReassignedAs(old(userRoles.entries), userRoles.entries, userId, roleId, now, r)
    ensures r.Ok? ==> BelongsTo(r.value, userId) && "role_id" in r.value.fields && r.value.fields["role_id"] == Oid(roleId)
    ensures OnePerUser(old(userRoles.entries)) ==> OnePerUser(userRoles.entries)
  {
    var userRole := GetByUserId(userRoles.entries, userId);
    if userRole.None? {
      return Err(HttpError(NotFound, NoRoleAssigned(userId), None));
    }
    var before := userRoles.entries;
    var ur := userRole.value;
    if !IsActive(ur.fields) {
      assert IsInactive(ur.fields) by { assert ur in before; }
      SoftDeletedSeenByUserId(before, ur, userId);
    } else {
      StoredIsGot(before, ur);
      RoleUpdateKeepsUser(ur.fields, roleId, now);
    }
    var updated := userRoles.Update(ur.id, map["role_id" := Oid(roleId)], now);
    match updated {
      case Ok(e) =>
        RoleUpdateKept(before, ur, userId, roleId, now);
        r := Ok(e);
      case Err(_) =>
        r := Err(InternalError);
    }
  }

  /** The record `update_user_role` writes back keeps the `user_id` of the
      record it replaces, which is the only one with its `_id`, so at most one
      record per user remains. */
  lemma RoleUpdateKept(t: Table, ur: Entry, userId: Id, roleId: Id, now: Time)
    requires UniqueIds(t) && ur in t && BelongsTo(ur, userId) && Get(t, ur.id).Some?
    ensures var e := Entry(ur.id, UpdateStamped(Get(t, ur.id).value.fields + map["role_id" := Oid(roleId)], now));
      && BelongsTo(e, userId) && "role_id" in e.fields && e.fields["role_id"] == Oid(roleId)
      && (OnePerUser(t) ==> OnePerUser(Put(t, e)))
  {
    var found := Get(t, ur.id).value;
    assert found == ur by {
      var i :| 0 <= i < |t| && t[i] == found;
      var j :| 0 <= j < |t| && t[j] == ur;
    }
    var e := Entry(ur.id, UpdateStamped(ur.fields + map["role_id" := Oid(roleId)], now));
    RoleUpdateKeepsUser(ur.fields, roleId, now);
    forall x | x in t && x.id == e.id
      ensures "user_id" in x.fields && "user_id" in e.fields && x.fields["user_id"] == e.fields["user_id"]
    {
      var i :| 0 <= i < |t| && t[i] == x;
      var j :| 0 <= j < |t| && t[j] == ur;
    }
    if OnePerUser(t) {
      UpdateKeepsOnePerUser(t, e);
    }
  }
}
