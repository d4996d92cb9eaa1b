/** The `User` model's aggregation: a user joined with its account, its
    user-role records and the roles those records point at. */
module UserModel {
  import opened Wrappers
  import opened Documents
  import opened Query
  import opened Store

  /** `{"$project": {key: 1}}` on a looked-up record: its `_id` and that key. */
  function Project(e: Entry, key: string): (r: Fields)
    ensures "_id" in r && r["_id"] == Oid(e.id)
    ensures r.Keys <= {"_id", key}
    ensures key != "_id" ==> (key in r <==> key in e.fields) && (key in e.fields ==> r[key] == e.fields[key])
  {
    var base: Fields := map["_id" := Oid(e.id)];
    if key in e.fields && key != "_id" then base[key := e.fields[key]] else base
  }

  function ProjectAll(es: seq<Entry>, key: string): (r: seq<Fields>)
    ensures |r| == |es|
    ensures forall i :: 0 <= i < |es| ==> r[i] == Project(es[i], key)
  {
    seq(|es|, i requires 0 <= i < |es| => Project(es[i], key))
  }

  /** The `_id` an `account_id` field points at; a missing or null field, like
      any value that is not an ObjectId, matches no account. */
  function AccountIdOf(u: Entry): Option<Id>
  {
    if "account_id" in u.fields && u.fields["account_id"].Oid? then Some(u.fields["account_id"].id) else None
  }

  /** The records whose `_id` equals one of the given values (`$lookup` with
      an array as its local field). */
  function WithIdIn(t: Table, ids: seq<Value>): Table
  {
    if t == [] then []
    else (if Oid(t[0].id) in ids then [t[0]] else []) + WithIdIn(t[1..], ids)
  }

  lemma {:induction false} WithIdInMembers(t: Table, ids: seq<Value>)
    ensures forall e :: e in WithIdIn(t, ids) <==> e in t && Oid(e.id) in ids
  {
    if t != [] {
      WithIdInMembers(t[1..], ids);
      assert forall e :: e in t <==> e == t[0] || e in t[1..];
    }
  }

  /** `"$user_role.role_id"`: the `role_id` of each looked-up user-role that
      has one. */
  function RoleIds(userRoles: seq<Entry>): seq<Value>
  {
    if userRoles == [] then []
    else (if "role_id" in userRoles[0].fields then [userRoles[0].fields["role_id"]] else []) + RoleIds(userRoles[1..])
  }

  lemma {:induction false} RoleIdsMembers(userRoles: seq<Entry>)
    ensures forall v :: v in RoleIds(userRoles) <==>
      exists ur :: ur in userRoles && "role_id" in ur.fields && ur.fields["role_id"] == v
  {
    if userRoles != [] {
      RoleIdsMembers(userRoles[1..]);
      assert forall ur :: ur in userRoles <==> ur == userRoles[0] || ur in userRoles[1..];
    }
  }

  /** The user-role records of a user. */
  function UserRolesOf(s: Snapshot, u: Entry): seq<Entry>
  {
    Select(s.userRoles, ByField("user_id", Oid(u.id)))
  }

  function AccountsOf(s: Snapshot, u: Entry): seq<Entry>
  {
    match AccountIdOf(u)
    case None => []
    case Some(a) => Select(s.accounts, Filter(Some(a), map[]))
  }

  function RolesOf(s: Snapshot, u: Entry): seq<Entry>
  {
    WithIdIn(s.roles, RoleIds(UserRolesOf(s, u)))
  }

  /** The user document with the three joined arrays added and the temporary
      `temp_role_id` dropped. */
  function Attach(u: Entry, account: Value, userRole: Value, role: Value): Fields
  {
    (Raw(u)["account" := account]["user_role" := userRole]["role" := role]) - {"temp_role_id"}
  }

  lemma AttachFields(u: Entry, account: Value, userRole: Value, role: Value)
    ensures var d := Attach(u, account, userRole, role);
      && d.Keys == (u.fields.Keys + {"_id", "account", "user_role", "role"}) - {"temp_role_id"}
      && d["_id"] == Oid(u.id)
      && d["account"] == account && d["user_role"] == userRole && d["role"] == role
      && (forall k :: k !in {"_id", "account", "user_role", "role", "temp_role_id"} ==>
            (k in d <==> k in u.fields) && (k in u.fields ==> d[k] == u.fields[k]))
  {
    var raw := Raw(u);
    var m := raw["account" := account]["user_role" := userRole]["role" := role];
    assert m.Keys == raw.Keys + {"account", "user_role", "role"};
    forall k | k !in {"_id", "account", "user_role", "role", "temp_role_id"}
      ensures var d := Attach(u, account, userRole, role);
        (k in d <==> k in u.fields) && (k in u.fields ==> d[k] == u.fields[k])
    {
      if k in u.fields {
        assert m[k] == raw[k];
      }
    }
  }

  /** One document out of the pipeline: the user joined with its account,
      user-roles and roles. */
  function Joined(s: Snapshot, u: Entry): (r: Fields)
  {
    Attach(u,
      Arr(ProjectAll(AccountsOf(s, u), "name")),
      Arr(ProjectAll(UserRolesOf(s, u), "role_id")),
      Arr(ProjectAll(RolesOf(s, u), "name")))
  }

  /** The aggregation with `stage` as its `$match`. */
  function Pipeline(s: Snapshot, stage: Filter): (r: seq<Fields>)
    ensures |r| == |Select(s.users, stage)|
    ensures forall i :: 0 <= i < |r| ==> r[i] == Joined(s, Select(s.users, stage)[i])
  {
    var users := Select(s.users, stage);
    seq(|users|, i requires 0 <= i < |users| => Joined(s, users[i]))
  }

  /** The joined document keeps the user's `_id` and own fields. */
  lemma JoinedUser(s: Snapshot, u: Entry)
    ensures "_id" in Joined(s, u) && Joined(s, u)["_id"] == Oid(u.id)
    ensures forall k :: k in u.fields && k != "_id" && k != "account" && k != "user_role" && k != "role" && k != "temp_role_id" ==>
      k in Joined(s, u) && Joined(s, u)[k] == u.fields[k]
    ensures "temp_role_id" !in Joined(s, u)
  {
    AttachKeepsOwn(u, Arr(ProjectAll(AccountsOf(s, u), "name")), Arr(ProjectAll(UserRolesOf(s, u), "role_id")), Arr(ProjectAll(RolesOf(s, u), "name")));
  }

  /** Attaching the three looked-up lists keeps the user's own fields. */
  lemma AttachKeepsOwn(u: Entry, account: Value, userRole: Value, role: Value)
    ensures "_id" in Attach(u, account, userRole, role) && Attach(u, account, userRole, role)["_id"] == Oid(u.id)
    ensures forall k :: k in u.fields && k != "_id" && k != "account" && k != "user_role" && k != "role" && k != "temp_role_id" ==>
      k in Attach(u, account, userRole, role) && Attach(u, account, userRole, role)[k] == u.fields[k]
    ensures "temp_role_id" !in Attach(u, account, userRole, role)
  {
    AttachFields(u, account, userRole, role);
    var d := Attach(u, account, userRole, role);
    forall k | k in u.fields && k != "_id" && k != "account" && k != "user_role" && k != "role" && k != "temp_role_id"
      ensures k in d && d[k] == u.fields[k]
    {
      assert k !in {"_id", "account", "user_role", "role", "temp_role_id"};
    }
  }

  /** A field of the user other than those the join adds or drops is in the
      joined document exactly when it is in the user, with the same value. */
  lemma JoinedField(s: Snapshot, u: Entry, k: string)
    requires k !in {"_id", "account", "user_role", "role", "temp_role_id"}
    ensures k in Joined(s, u) <==> k in u.fields
    ensures k in u.fields ==> Joined(s, u)[k] == u.fields[k]
  {
    AttachFields(u, Arr(ProjectAll(AccountsOf(s, u), "name")), Arr(ProjectAll(UserRolesOf(s, u), "role_id")), Arr(ProjectAll(RolesOf(s, u), "name")));
  }

  /** The joined document holds the user's keys, `_id` and the three joined
      arrays, and nothing else. */
  lemma JoinedKeys(s: Snapshot, u: Entry)
    ensures Joined(s, u).Keys == (u.fields.Keys + {"_id", "account", "user_role", "role"}) - {"temp_role_id"}
  {
    AttachFields(u, Arr(ProjectAll(AccountsOf(s, u), "name")), Arr(ProjectAll(UserRolesOf(s, u), "role_id")), Arr(ProjectAll(RolesOf(s, u), "name")));
  }

  /** `account` lists exactly the accounts, active or not, whose `_id` is the
      user's `account_id`, each projected to `_id` and `name`. */
  lemma JoinedAccounts(s: Snapshot, u: Entry)
    ensures "account" in Joined(s, u) && Joined(s, u)["account"].Arr?
    ensures forall x :: x in Joined(s, u)["account"].items <==>
      exists a :: a in s.accounts && AccountIdOf(u) == Some(a.id) && x == Project(a, "name")
  {
    var found := AccountsOf(s, u);
    AttachFields(u, Arr(ProjectAll(found, "name")), Arr(ProjectAll(UserRolesOf(s, u), "role_id")), Arr(ProjectAll(RolesOf(s, u), "name")));
    ProjectAllMembers(found, "name");
    forall a | a in s.accounts && AccountIdOf(u) == Some(a.id)
      ensures a in found
    {
      assert Matches(a, Filter(Some(a.id), map[]));
    }
  }

  /** A projection of `es` lists exactly the projections of its records. */
  lemma ProjectAllMembers(es: seq<Entry>, key: string)
    ensures forall x :: x in ProjectAll(es, key) <==> exists e :: e in es && x == Project(e, key)
  {
    var items := ProjectAll(es, key);
    forall x | x in items
      ensures exists e :: e in es && x == Project(e, key)
    {
      var i :| 0 <= i < |items| && items[i] == x;
      assert es[i] in es;
    }
    forall e | e in es
      ensures Project(e, key) in items
    {
      var i :| 0 <= i < |es| && es[i] == e;
      assert items[i] == Project(e, key);
    }
  }

  /** The roles looked up for a user are exactly those some user-role of the
      user points at. */
  lemma RolesOfMembers(s: Snapshot, u: Entry)
    ensures forall r :: r in RolesOf(s, u) <==>
      && r in s.roles
      && exists ur ::
        && ur in s.userRoles
        && "user_id" in ur.fields && ur.fields["user_id"] == Oid(u.id)
        && "role_id" in ur.fields && ur.fields["role_id"] == Oid(r.id)
  {
    var urs := UserRolesOf(s, u);
    WithIdInMembers(s.roles, RoleIds(urs));
    RoleIdsMembers(urs);
    forall ur | ur in s.userRoles && "user_id" in ur.fields && ur.fields["user_id"] == Oid(u.id)
      ensures ur in urs
    {
    }
  }

  /** `role` lists exactly the roles, active or not, that some user-role of
      the user points at, each projected to `_id` and `name`. */
  lemma JoinedRoles(s: Snapshot, u: Entry)
    ensures "role" in Joined(s, u) && Joined(s, u)["role"].Arr?
    ensures forall x :: x in Joined(s, u)["role"].items <==>
      exists r, ur ::
        && r in s.roles && ur in s.userRoles
        && "user_id" in ur.fields && ur.fields["user_id"] == Oid(u.id)
        && "role_id" in ur.fields && ur.fields["role_id"] == Oid(r.id)
        && x == Project(r, "name")
  {
    var found := RolesOf(s, u);
    AttachFields(u, Arr(ProjectAll(AccountsOf(s, u), "name")), Arr(ProjectAll(UserRolesOf(s, u), "role_id")), Arr(ProjectAll(found, "name")));
    ProjectAllMembers(found, "name");
    RolesOfMembers(s, u);
  }

  /** The last document of the pipeline is the join of the last matching
      user, and there is one exactly when some user matches. */
  lemma PipelineLast(s: Snapshot, stage: Filter)
    ensures Last(Pipeline(s, stage)).None? <==> Select(s.users, stage) == []
    ensures Last(Pipeline(s, stage)).Some? ==>
      var users := Select(s.users, stage);
      && Last(Pipeline(s, stage)).value == Joined(s, users[|users| - 1])
      && "_id" in Last(Pipeline(s, stage)).value
      && Last(Pipeline(s, stage)).value["_id"] == Oid(users[|users| - 1].id)
  {
    var users := Select(s.users, stage);
    var p := Pipeline(s, stage);
    if users != [] {
      var u := users[|users| - 1];
      assert Last(p) == Some(p[|p| - 1]);
      assert p[|p| - 1] == Joined(s, u);
      JoinedUser(s, u);
    }
  }

  /** `get_with_role_and_account`: the cursor's documents overwrite one local
      variable, so the last one wins; `{}` when no user has that `_id`. */
  method GetWithRoleAndAccount(s: Snapshot, userId: Id) returns (r: Fields)
    ensures r == match Last(Pipeline(s, Filter(Some(userId), map[]))) case Some(d) => d case None => map[]
    ensures r == map[] <==> userId !in Ids(s.users)
    ensures r != map[] ==> "_id" in r && r["_id"] == Oid(userId)
  {
    var stage := Filter(Some(userId), map[]);
    var cursor := Pipeline(s, stage);
    r := map[];
    var i := 0;
    while i < |cursor|
      invariant 0 <= i <= |cursor|
      invariant r == if i == 0 then map[] else cursor[i - 1]
    {
      r := cursor[i];
      i := i + 1;
    }
    PipelineLast(s, stage);
    var users := Select(s.users, stage);
    if users == [] {
      assert forall e :: e in s.users && e.id == userId ==> e in users;
    } else {
      assert users[|users| - 1] in users;
    }
  }
}
