/** The `UserInDB` schema that `_get_with_account_and_role` builds from each
    joined document: a pydantic model with the user's own attributes and two
    `Optional[Dict]` attributes, `account` and `role`, filled from the lists
    the join produced. */
module UserSchema {
  import opened Wrappers
  import opened Documents

  /** A `UserInDB` object. `accountId` holds null, text or an ObjectId, as
      `Optional[Union[str, ObjectId]]` allows; `account` and `role` hold null
      or a dict (`Rec`). */
  datatype UserInDb = UserInDb(
    id: Id, email: string, isActive: bool, fullName: string, phoneNumber: string,
    accountId: Value, createdAt: Time, updatedAt: Time, hashedPassword: string,
    account: Value, role: Value)

  /** `dict(items)` on a list the join built with `{"$project": {"name": 1}}`.
      Iterating a dict yields its keys, so an item `{_id, name}` is the pair
      `"_id"` → `"name"`, and every item gives that same pair; an item with
      only `_id` (a record without `name`) is no pair and fails. The join
      builds no other shape of item. */
  function LookupDict(items: seq<map<string, Value>>): (r: Option<Fields>)
  {
    if forall i :: 0 <= i < |items| ==> items[i].Keys == {"_id", "name"} then
      Some(if items == [] then map[] else map["_id" := Str("name")])
    else None
  }

  /** The dict built from a list never has a `name` key, whatever the items
      were named. */
  lemma LookupDictHasNoName(items: seq<map<string, Value>>)
    ensures LookupDict(items).Some? <==> forall i :: 0 <= i < |items| ==> items[i].Keys == {"_id", "name"}
    ensures LookupDict(items).Some? ==> "name" !in LookupDict(items).value
    ensures LookupDict(items).Some? ==> (LookupDict(items).value == map[] <==> items == [])
  {
    if LookupDict(items).Some? && items != [] {
      assert "_id" in LookupDict(items).value;
    }
  }

  /** An `Optional[Dict]` attribute: missing or null is `None`, a document is
      kept, a list goes through `dict()`; anything else fails. */
  function DictAttr(doc: Fields, key: string): Option<Value>
  {
    if key !in doc then Some(Null)
    else match doc[key]
      case Null => Some(Null)
      case Rec(m) => Some(Rec(m))
      case Arr(items) =>
        (match LookupDict(items)
         case Some(m) => Some(Rec(m))
         case None => None)
      case _ => None
  }

  /** A required `str` attribute. */
  predicate TextAttr(doc: Fields, key: string)
  {
    key in doc && doc[key].Str?
  }

  /** A required `datetime` attribute. */
  predicate DateAttr(doc: Fields, key: string)
  {
    key in doc && doc[key].Date?
  }

  /** `is_active: bool = True`. */
  predicate ActiveAttr(doc: Fields)
  {
    "is_active" !in doc || doc["is_active"].Bool?
  }

  /** `account_id: Optional[Union[str, ObjectId]]`: missing or null is
      `None`; text and ObjectIds are kept. */
  predicate AccountIdAttr(doc: Fields)
  {
    "account_id" !in doc || doc["account_id"].Null? || doc["account_id"].Str? || doc["account_id"].Oid?
  }

  /** The document passes `UserInDB`'s validation. */
  predicate InDbAccepts(doc: Fields)
  {
    && "_id" in doc && doc["_id"].Oid?
    && TextAttr(doc, "email") && TextAttr(doc, "full_name")
    && TextAttr(doc, "phone_number") && TextAttr(doc, "hashed_password")
    && DateAttr(doc, "created_at") && DateAttr(doc, "updated_at")
    && ActiveAttr(doc) && AccountIdAttr(doc)
    && DictAttr(doc, "account").Some? && DictAttr(doc, "role").Some?
  }

  /** `UserInDB(**doc)`: the attributes the schema declares, or `None` for the
      `ValidationError` it raises. Keys it does not declare, such as
      `user_role`, are dropped. */
  function InDb(doc: Fields): (r: Option<UserInDb>)
    ensures r.Some? <==> InDbAccepts(doc)
    ensures r.Some? ==> doc["_id"] == Oid(r.value.id) && doc["hashed_password"] == Str(r.value.hashedPassword)
    ensures r.Some? ==> r.value.accountId == if "account_id" in doc then doc["account_id"] else Null
    ensures r.Some? && "role" in doc && doc["role"].Arr? ==> r.value.role.Rec? && "name" !in r.value.role.entries
  {
    if InDbAccepts(doc) then
      LookupDictHasNoName(if "role" in doc && doc["role"].Arr? then doc["role"].items else []);
      Some(UserInDb(
        doc["_id"].id, doc["email"].s, if "is_active" in doc then doc["is_active"].b else true,
        doc["full_name"].s, doc["phone_number"].s,
        if "account_id" in doc then doc["account_id"] else Null,
        doc["created_at"].t, doc["updated_at"].t, doc["hashed_password"].s,
        DictAttr(doc, "account").value, DictAttr(doc, "role").value))
    else None
  }
}
