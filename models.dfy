/** The field declarations of the four models (`Account`, `User`, `Role`,
    `UserRole`) as the validation the ODM runs on every commit. */
module Models {
  import opened Documents

  datatype Kind = AccountKind | UserKind | RoleKind | UserRoleKind

  /** The fields a document of each model may hold, `_id` aside. */
  function KnownKeys(kind: Kind): set<string>
  {
    var base := {"is_active", "created_at", "updated_at"};
    match kind
    case AccountKind => base + {"name", "description", "plan_id", "current_subscription_ends"}
    case UserKind => base + {"full_name", "email", "phone_number", "hashed_password", "account_id"}
    case RoleKind => base + {"name", "description"}
    case UserRoleKind => base + {"user_id", "role_id"}
  }

  /** `StringField(validate=Length(max=…), required=True)`. */
  predicate RequiredText(doc: Fields, key: string, max: nat)
  {
    key in doc && doc[key].Str? && |doc[key].s| <= max
  }

  /** `StringField(validate=Length(min=…, max=…), allow_none=True)`. */
  predicate NullableText(doc: Fields, key: string, min: nat, max: nat)
  {
    key !in doc || doc[key] == Null || (doc[key].Str? && min <= |doc[key].s| <= max)
  }

  /** `ObjectIdField(allow_none=True, required=True)`: the key must be
      present, holding an ObjectId or null; the ODM rejects a missing one. */
  predicate NullableRef(doc: Fields, key: string)
  {
    key in doc && (doc[key] == Null || doc[key].Oid?)
  }

  /** A `DateTimeField`, null allowed or not. */
  predicate OptionalDate(doc: Fields, key: string, allowNull: bool)
  {
    key !in doc || doc[key].Date? || (allowNull && doc[key] == Null)
  }

  /** The `Base` fields: `is_active` is a boolean, the timestamps are dates. */
  predicate BaseConforms(doc: Fields)
  {
    && "is_active" in doc && doc["is_active"].Bool?
    && OptionalDate(doc, "created_at", false)
    && OptionalDate(doc, "updated_at", false)
  }

  /** Upper bound that stands for "no maximum" on a text field. */
  const Unbounded: nat := 0x1_0000_0000

  /** The document passes the ODM's validation for its model. */
  predicate Conforms(kind: Kind, doc: Fields)
  {
    && doc.Keys <= KnownKeys(kind)
    && BaseConforms(doc)
    && match kind
       case AccountKind =>
         && RequiredText(doc, "name", 255)
         && NullableText(doc, "description", 0, 255)
         && NullableText(doc, "plan_id", 5, Unbounded)
         && OptionalDate(doc, "current_subscription_ends", true)
       case UserKind =>
         && RequiredText(doc, "full_name", 255)
         && RequiredText(doc, "email", 255)
         && RequiredText(doc, "phone_number", 10)
         && RequiredText(doc, "hashed_password", 255)
         && NullableRef(doc, "account_id")
       case RoleKind =>
         && RequiredText(doc, "name", 255)
         && NullableText(doc, "description", 0, 255)
       case UserRoleKind =>
         && NullableRef(doc, "user_id")
         && NullableRef(doc, "role_id")
  }

  /** Every stored user has the four text fields within their declared lengths. */
  lemma UserFieldBounds(doc: Fields)
    requires Conforms(UserKind, doc)
    ensures "full_name" in doc && doc["full_name"].Str? && |doc["full_name"].s| <= 255
    ensures "email" in doc && doc["email"].Str? && |doc["email"].s| <= 255
    ensures "hashed_password" in doc && doc["hashed_password"].Str? && |doc["hashed_password"].s| <= 255
    ensures "phone_number" in doc && doc["phone_number"].Str? && |doc["phone_number"].s| <= 10
    ensures "account_id" in doc && (doc["account_id"] == Null || doc["account_id"].Oid?)
  {
  }
}
