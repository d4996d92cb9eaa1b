/** `CRUDUserRole`: the generic CRUD operations on user-role records, plus a
    lookup by `user_id`. */
module UserRoleCrud {
  import opened Wrappers
  import opened Documents
  import opened Query
  import opened ModelBase
  import opened Models
  import opened Store

  predicate BelongsTo(e: Entry, userId: Id)
  {
    "user_id" in e.fields && e.fields["user_id"] == Oid(userId)
  }

  /** `get_by_user_id`: the first record of that user. Unlike `get` it does not
      look at `is_active`, so it also finds soft-deleted records. */
  function GetByUserId(t: Table, userId: Id): (r: Option<Entry>)
    ensures r.Some? <==> exists e :: e in t && BelongsTo(e, userId)
    ensures r.Some? ==> r.value in t && BelongsTo(r.value, userId)
  {
    FindFirst(t, ByField("user_id", Oid(userId)))
  }

  /** The two lookups disagree on a soft-deleted record: `get_by_user_id`
      still returns it while `get` by its `_id` answers none. */
  lemma {:induction false} SoftDeletedSeenByUserId(t: Table, e: Entry, userId: Id)
    requires UniqueIds(t) && e in t && BelongsTo(e, userId) && IsInactive(e.fields)
    ensures GetByUserId(t, userId).Some?
    ensures Get(t, e.id).None?
  {
    if Get(t, e.id).Some? {
      var x := Get(t, e.id).value;
      var i :| 0 <= i < |t| && t[i] == x;
      assert false;
    }
  }

  /** The fields of a user-role record created from `UserRoleCreate`. */
  function NewUserRoleData(userId: Id, roleId: Id): (r: Fields)
    ensures "user_id" in r && r["user_id"] == Oid(userId)
    ensures "role_id" in r && r["role_id"] == Oid(roleId)
    ensures r.Keys == {"user_id", "role_id"}
  {
    map["user_id" := Oid(userId), "role_id" := Oid(roleId)]
  }

  /** A created user-role is active, carries the given ids and passes the
      model's validation, so `create` writes it unless the `_id` is taken. */
  lemma CreatedUserRole(userId: Id, roleId: Id, now: Time)
    ensures var data := InsertStamped(WithDefaults(NewUserRoleData(userId, roleId)), now);
      && IsActive(data)
      && data["user_id"] == Oid(userId) && data["role_id"] == Oid(roleId)
      && Conforms(UserRoleKind, data)
  {
    var data := InsertStamped(WithDefaults(NewUserRoleData(userId, roleId)), now);
    assert data.Keys == {"user_id", "role_id", "is_active", "created_at", "updated_at"};
  }

  /** Updating with `UserRoleUpdate` changes `role_id`, keeps `user_id`, and
      keeps a valid record valid, so the write-back cannot fail. */
  lemma RoleUpdateKeepsUser(stored: Fields, roleId: Id, now: Time)
    requires "user_id" in stored
    ensures var data := UpdateStamped(stored + map["role_id" := Oid(roleId)], now);
      && data["user_id"] == stored["user_id"]
      && data["role_id"] == Oid(roleId)
      && (Conforms(UserRoleKind, stored) ==> Conforms(UserRoleKind, data))
  {
    var data := UpdateStamped(stored + map["role_id" := Oid(roleId)], now);
    if Conforms(UserRoleKind, stored) {
      assert data.Keys == stored.Keys + {"role_id", "updated_at"};
      assert forall k :: k in stored && k != "role_id" && k != "updated_at" ==> data[k] == stored[k];
    }
  }

  /** At most one record per `user_id`, soft-deleted ones included. */
  ghost predicate OnePerUser(t: Table)
  {
    forall i, j :: 0 <= i < j < |t| && "user_id" in t[i].fields && t[i].fields["user_id"].Oid? ==>
      "user_id" !in t[j].fields || t[j].fields["user_id"] != t[i].fields["user_id"]
  }

  /** Adding a record for a user `get_by_user_id` finds nothing for keeps at
      most one record per user. */
  lemma AssignKeepsOnePerUser(t: Table, e: Entry, userId: Id)
    requires OnePerUser(t) && GetByUserId(t, userId).None? && BelongsTo(e, userId)
    ensures OnePerUser(t + [e])
  {
    var r := t + [e];
    forall i, j | 0 <= i < j < |r| && "user_id" in r[i].fields && r[i].fields["user_id"].Oid?
      ensures "user_id" !in r[j].fields || r[j].fields["user_id"] != r[i].fields["user_id"]
    {
      if j == |t| {
        assert r[i] == t[i] && t[i] in t;
      }
    }
  }

  /** Replacing a record by one with the same `user_id` keeps at most one
      record per user. */
  lemma UpdateKeepsOnePerUser(t: Table, e: Entry)
    requires OnePerUser(t) && UniqueIds(t)
    requires forall x :: x in t && x.id == e.id ==> "user_id" in x.fields && "user_id" in e.fields && x.fields["user_id"] == e.fields["user_id"]
    ensures OnePerUser(Put(t, e))
  {
    var r := Put(t, e);
    forall i, j | 0 <= i < j < |r| && "user_id" in r[i].fields && r[i].fields["user_id"].Oid?
      ensures "user_id" !in r[j].fields || r[j].fields["user_id"] != r[i].fields["user_id"]
    {
      assert t[i] in t && t[j] in t;
    }
  }
}
