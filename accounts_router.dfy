/** The `/accounts` router: creating an account under a name no active
    account has. The endpoint asks for no authentication. */
module AccountsRouter {
  import opened Wrappers
  import opened Documents
  import opened ModelBase
  import opened Models
  import opened Store
  import opened Deps

  const NameTaken: string := "An account with this name already exists"

  /** The `AccountCreate` schema. `isActive` is none when the request sent
      null for it (it defaults to true); `planId` is the schema's `ObjectId`,
      which its validator has already parsed. */
  datatype AccountCreate = AccountCreate(
    name: string, description: Option<string>, currentSubscriptionEnds: Option<Time>,
    planId: Option<Id>, isActive: Option<bool>)

  function TextOrNull(v: Option<string>): Value
  {
    match v
    case Some(s) => Str(s)
    case None => Null
  }

  /** `jsonable_encoder(obj_in)`: every schema field, unset ones as null.
      `AccountBase` declares no encoder for its `ObjectId`, so the encoder
      falls back to `vars()` of the id object, an empty dict. */
  function AccountData(input: AccountCreate): (r: Fields)
    ensures r.Keys == {"name", "description", "current_subscription_ends", "plan_id", "is_active"}
    ensures r["name"] == Str(input.name) && r["description"] == TextOrNull(input.description)
    ensures input.isActive.Some? ==> r["is_active"] == Bool(input.isActive.value)
    ensures r["plan_id"] == if input.planId.Some? then Rec(map[]) else Null
  {
    map[
      "name" := Str(input.name),
      "description" := TextOrNull(input.description),
      "current_subscription_ends" := (match input.currentSubscriptionEnds case Some(t) => Date(t) case None => Null),
      "plan_id" := (match input.planId case Some(_) => Rec(map[]) case None => Null),
      "is_active" := (match input.isActive case Some(b) => Bool(b) case None => Null)]
  }

  /** An account created with a plan never passes validation: the encoded
      `plan_id` is a dict, where the model's `StringField` wants text or null. */
  lemma PlanIdRejected(input: AccountCreate, now: Time)
    requires input.planId.Some?
    ensures !Conforms(AccountKind, InsertStamped(WithDefaults(AccountData(input)), now))
  {
    var doc := InsertStamped(WithDefaults(AccountData(input)), now);
    assert doc["plan_id"] == Rec(map[]);
  }

  /** No two active accounts share a name. */
  ghost predicate UniqueActiveNames(t: Table)
  {
    forall i, j :: 0 <= i < j < |t| && IsActive(t[i].fields) && IsActive(t[j].fields) && "name" in t[i].fields ==>
      "name" !in t[j].fields || t[j].fields["name"] != t[i].fields["name"]
  }

  /** Adding an account under a name `get_by_name` does not find keeps active
      names unique. */
  lemma CreateKeepsNamesUnique(t: Table, e: Entry, name: string)
    requires UniqueActiveNames(t) && GetByName(t, name).None?
    requires "name" in e.fields && e.fields["name"] == Str(name)
    ensures UniqueActiveNames(t + [e])
  {
    var r := t + [e];
    forall i, j | 0 <= i < j < |r| && IsActive(r[i].fields) && IsActive(r[j].fields) && "name" in r[i].fields
      ensures "name" !in r[j].fields || r[j].fields["name"] != r[i].fields["name"]
    {
      if j == |t| {
        assert r[i] == t[i] && t[i] in t;
      }
    }
  }

  /** `create_account`: 409 when an active account has the name; otherwise
      exactly one new account with the request's fields. */
  method CreateAccount(db: Database, input: AccountCreate, now: Time, oid: Id) returns (r: Result<Entry, HttpError>)
    requires db.Valid()
    modifies db.accounts
    ensures db.Valid()
    ensures GetByName(old(db.accounts.entries), input.name).Some? ==>
      r == Err(HttpError(Conflict, NameTaken, None)) && db.accounts.entries == old(db.accounts.entries)
    ensures GetByName(old(db.accounts.entries), input.name).None? ==>
      var data := InsertStamped(WithDefaults(AccountData(input)), now);
      if !Conforms(AccountKind, data) || oid in Ids(old(db.accounts.entries)) then
        r == Err(InternalError) && db.accounts.entries == old(db.accounts.entries)
      else
        r == Ok(Entry(oid, data)) && db.accounts.entries == old(db.accounts.entries) + [Entry(oid, data)]
    ensures GetByName(old(db.accounts.entries), input.name).None? && input.planId.Some? ==>
      r == Err(InternalError) && db.accounts.entries == old(db.accounts.entries)
    ensures r.Ok? ==> r.value.fields["name"] == Str(input.name) && r.value.fields["description"] == TextOrNull(input.description)
    ensures UniqueActiveNames(old(db.accounts.entries)) ==> UniqueActiveNames(db.accounts.entries)
  {
    var account := GetByName(db.accounts.entries, input.name);
    if account.Some? {
      return Err(HttpError(Conflict, NameTaken, None));
    }
    var before := db.accounts.entries;
    if input.planId.Some? {
      PlanIdRejected(input, now);
    }
    var created := db.accounts.Create(AccountData(input), now, oid);
    match created {
      case Ok(e) =>
        if UniqueActiveNames(before) {
          CreateKeepsNamesUnique(before, e, input.name);
        }
        r := Ok(e);
      case Err(_) =>
        r := Err(InternalError);
    }
  }
}
