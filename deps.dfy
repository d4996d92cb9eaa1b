/** The authorization dependency: from a bearer token and the scopes an
    endpoint asks for, either the current user or an HTTP error. */
module Deps {
  import opened Wrappers
  import opened Documents
  import opened Store
  import opened Security

  /** An `HTTPException`: status, detail and the `WWW-Authenticate` header. */
  datatype HttpError = HttpError(status: nat, detail: string, authenticate: Option<string>)

  /** The role names endpoints ask for as scopes (`app/constants/role.py`
      is not part of this model; these are the names it declares). */
  const Guest: string := "GUEST"
  const AccountAdmin: string := "ACCOUNT_ADMIN"
  const AccountManager: string := "ACCOUNT_MANAGER"
  const Admin: string := "ADMIN"
  const SuperAdmin: string := "SUPER_ADMIN"

  const BadRequest: nat := 400
  const Unauthorized: nat := 401
  const Forbidden: nat := 403
  const NotFound: nat := 404
  const Conflict: nat := 409

  /** What a write that raises inside a handler turns into. */
  const InternalError: HttpError := HttpError(500, "Internal Server Error", None)

  const CredentialsDetail: string := "Could not validate credentials"
  const PermissionsDetail: string := "Not enough permissions"
  const InactiveDetail: string := "Inactive user"

  /** `SecurityScopes.scope_str`: the scopes joined by single spaces. */
  function ScopeString(scopes: seq<string>): string
  {
    if scopes == [] then ""
    else if |scopes| == 1 then scopes[0]
    else scopes[0] + " " + ScopeString(scopes[1..])
  }

  /** The `WWW-Authenticate` value: the required scopes when there are any. */
  function AuthenticateValue(scopes: seq<string>): (v: string)
    ensures scopes == [] ==> v == "Bearer"
    ensures scopes != [] ==> v == "Bearer scope=\"" + ScopeString(scopes) + "\""
  {
    if scopes != [] then "Bearer scope=\"" + ScopeString(scopes) + "\"" else "Bearer"
  }

  /** The `TokenPayload` schema. */
  datatype TokenPayload = TokenPayload(id: Id, role: Option<string>, accountId: Option<Id>)

  /** The `ObjectId` schema type: an ObjectId, or its 24-digit text. */
  function ObjectIdClaim(v: Value): Option<Id>
  {
    match v
    case Oid(i) => Some(i)
    case Str(s) => ParseId(s)
    case _ => None
  }

  /** `role: str = None`: null or absent gives none; text is kept and a
      boolean is turned into its Python text; anything else fails. */
  function RoleField(claims: Fields): Option<Option<string>>
  {
    if "role" !in claims || claims["role"] == Null then Some(None)
    else match claims["role"]
      case Str(s) => Some(Some(s))
      case Bool(b) => Some(Some(if b then "True" else "False"))
      case _ => None
  }

  /** `account_id: ObjectId = None`. */
  function AccountField(claims: Fields): Option<Option<Id>>
  {
    if "account_id" !in claims || claims["account_id"] == Null then Some(None)
    else match ObjectIdClaim(claims["account_id"])
      case Some(a) => Some(Some(a))
      case None => None
  }

  /** `TokenPayload(**payload)`; `None` stands for the `ValidationError`. */
  function ParsePayload(claims: Fields): (r: Option<TokenPayload>)
    ensures r.Some? <==>
      && "id" in claims && ObjectIdClaim(claims["id"]).Some?
      && RoleField(claims).Some? && AccountField(claims).Some?
    ensures r.Some? ==> r.value.id == ObjectIdClaim(claims["id"]).value && r.value.role == RoleField(claims).value
  {
    if "id" !in claims then None
    else match (ObjectIdClaim(claims["id"]), RoleField(claims), AccountField(claims))
      case (Some(id), Some(role), Some(account)) => Some(TokenPayload(id, role, account))
      case _ => None
  }

  /** The token role passes the scope check: no scopes are asked for, or it is
      a non-empty role among them. */
  predicate RoleAllowed(role: Option<string>, scopes: seq<string>)
  {
    scopes == [] || (role.Some? && role.value != "" && role.value in scopes)
  }

  /** `get_current_user`. */
  function GetCurrentUser(users: Table, token: Token, key: string, now: Time, scopes: seq<string>): (r: Result<Entry, HttpError>)
    ensures r.Ok? <==>
      && Decode(token, key, now).Some?
      && ParsePayload(Decode(token, key, now).value).Some?
      && Get(users, ParsePayload(Decode(token, key, now).value).value.id).Some?
      && RoleAllowed(ParsePayload(Decode(token, key, now).value).value.role, scopes)
    ensures r.Ok? ==>
      && r.value in users && IsActive(r.value.fields)
      && r.value.id == ParsePayload(Decode(token, key, now).value).value.id
    ensures r.Err? ==> r.error.status == Unauthorized
    ensures r.Err? && r.error.detail == PermissionsDetail ==> r.error.authenticate == Some(AuthenticateValue(scopes))
    ensures Decode(token, key, now).None? ==> r == Err(HttpError(Unauthorized, CredentialsDetail, None))
    ensures Decode(token, key, now).Some? ==>
      var claims := Decode(token, key, now).value;
      && ("id" !in claims || claims["id"] == Null ==>
            r == Err(HttpError(Unauthorized, CredentialsDetail, Some(AuthenticateValue(scopes)))))
      && ("id" in claims && claims["id"] != Null && ParsePayload(claims).None? ==>
            r == Err(HttpError(Unauthorized, CredentialsDetail, None)))
      && (ParsePayload(claims).Some? && Get(users, ParsePayload(claims).value.id).None? ==>
            r == Err(HttpError(Unauthorized, CredentialsDetail, Some(AuthenticateValue(scopes)))))
      && (ParsePayload(claims).Some? && Get(users, ParsePayload(claims).value.id).Some?
          && !RoleAllowed(ParsePayload(claims).value.role, scopes) ==>
            r == Err(HttpError(Unauthorized, PermissionsDetail, Some(AuthenticateValue(scopes)))))
      && (ParsePayload(claims).Some? && Get(users, ParsePayload(claims).value.id).Some?
          && RoleAllowed(ParsePayload(claims).value.role, scopes) ==>
            r == Ok(Get(users, ParsePayload(claims).value.id).value))
  {
    var header := Some(AuthenticateValue(scopes));
    match Decode(token, key, now)
    case None => Err(HttpError(Unauthorized, CredentialsDetail, None))
    case Some(claims) =>
      if "id" !in claims || claims["id"] == Null then Err(HttpError(Unauthorized, CredentialsDetail, header))
      else match ParsePayload(claims)
        case None => Err(HttpError(Unauthorized, CredentialsDetail, None))
        case Some(payload) =>
          match Get(users, payload.id)
          case None => Err(HttpError(Unauthorized, CredentialsDetail, header))
          case Some(user) =>
            if scopes != [] && (payload.role.None? || payload.role.value == "") then
              Err(HttpError(Unauthorized, PermissionsDetail, header))
            else if scopes != [] && payload.role.value !in scopes then
              Err(HttpError(Unauthorized, PermissionsDetail, header))
            else Ok(user)
  }

  /** `get_current_active_user`. Its "Inactive user" answer can never be
      given: `get` only returns active users, so an inactive one has already
      been refused with 401. */
  function GetCurrentActiveUser(users: Table, token: Token, key: string, now: Time, scopes: seq<string>): (r: Result<Entry, HttpError>)
    ensures r == GetCurrentUser(users, token, key, now, scopes)
    ensures r.Err? ==> r.error.status != BadRequest
  {
    match GetCurrentUser(users, token, key, now, scopes)
    case Err(e) => Err(e)
    case Ok(user) =>
      if !IsActive(user.fields) then Err(HttpError(BadRequest, InactiveDetail, None)) else Ok(user)
  }

  /** A token with no usable `id` claim is refused as unauthenticated. */
  lemma MissingIdRefused(users: Table, token: Token, key: string, now: Time, scopes: seq<string>)
    requires Decode(token, key, now).Some?
    requires var claims := Decode(token, key, now).value; "id" !in claims || claims["id"] == Null
    ensures GetCurrentUser(users, token, key, now, scopes) ==
      Err(HttpError(Unauthorized, CredentialsDetail, Some(AuthenticateValue(scopes))))
  {
  }

  /** An endpoint without scopes accepts any valid token of an active user,
      whatever role the token carries. */
  lemma UnscopedAcceptsAnyRole(users: Table, token: Token, key: string, now: Time, payload: TokenPayload)
    requires Decode(token, key, now).Some? && ParsePayload(Decode(token, key, now).value) == Some(payload)
    requires Get(users, payload.id).Some?
    ensures GetCurrentActiveUser(users, token, key, now, []) == Ok(Get(users, payload.id).value)
  {
  }
}
