/** The `/auth` router: the password login that issues access tokens, and the
    password hashing endpoint. */
module AuthRouter {
  import opened Wrappers
  import opened Documents
  import opened Query
  import opened Models
  import opened Store
  import opened Security
  import opened UserModel
  import opened UserSchema
  import opened UserCrud
  import opened Deps

  const IncorrectCredentials: string := "Incorrect email or password"
  const BearerType: string := "bearer"

  /** The `Token` response schema. */
  datatype TokenResponse = TokenResponse(accessToken: Token, tokenType: string)

  /** The `role` claim as evidently intended: `"GUEST"` for a record without
      a `role` attribute, otherwise the `name` of the first role the join
      listed (null when it listed none). */
  function RoleClaim(user: Fields): Value
  {
    if "role" !in user then Str(Guest)
    else match user["role"]
      case Arr(items) => if items != [] && "name" in items[0] then items[0]["name"] else Null
      case _ => Null
  }

  /** `str()` of an optional ObjectId field of a record: its 24 hex digits, or
      the text `"None"`. Stored ids are ObjectIds or null, so those are the
      cases that arise. */
  function IdText(user: Fields, key: string): string
  {
    if key in user then
      match user[key]
      case Oid(i) => IdString(i)
      case Str(s) => s
      case _ => "None"
    else "None"
  }

  /** `str()` of the `account_id` attribute of a `UserInDB`: the 24 hex
      digits of an ObjectId, text as it is, and `"None"` for null, the only
      other value the attribute holds. */
  function AttrText(v: Value): string
  {
    match v
    case Oid(i) => IdString(i)
    case Str(s) => s
    case _ => "None"
  }

  /** The claims `login_access_token` puts in the token, as written.
      `hasattr(user, "role")` always holds for a `UserInDB`, so the role is
      `user.role.get("name")`, which raises (`None`) on a null `role`; the
      account id goes through `str()` even when the user has none. */
  function TokenClaimsAsWritten(user: UserInDb): (c: Option<Fields>)
    ensures c.Some? <==> user.role.Rec?
    ensures c.Some? ==> c.value.Keys == {"id", "role", "account_id"} && c.value["id"] == Str(IdString(user.id))
    ensures c.Some? && user.accountId == Null ==> c.value["account_id"] == Str("None")
    ensures c.Some? && "name" !in user.role.entries ==> c.value["role"] == Null
  {
    match user.role
    case Rec(role) =>
      var name := if "name" in role then role["name"] else Null;
      Some(map["id" := Str(IdString(user.id)), "role" := name, "account_id" := Str(AttrText(user.accountId))])
    case _ => None
  }

  /** The claims as evidently intended: a user without an account gets a
      null `account_id`, which the token payload schema accepts. */
  function TokenClaims(user: Fields): (c: Fields)
    ensures c.Keys == {"id", "role", "account_id"}
    ensures c["id"] == Str(IdText(user, "_id")) && c["role"] == RoleClaim(user)
    ensures "account_id" in user && user["account_id"].Oid? ==> c["account_id"] == Str(IdString(user["account_id"].id))
    ensures !("account_id" in user && user["account_id"].Oid?) ==> c["account_id"] == Null
  {
    var account := if "account_id" in user && user["account_id"].Oid? then Str(IdString(user["account_id"].id)) else Null;
    map["id" := Str(IdText(user, "_id")), "role" := RoleClaim(user), "account_id" := account]
  }

  /** The role claim of a joined user record is null or the `name` of a role
      that one of the user's user-role records points at. */
  lemma RoleClaimOfJoined(s: Snapshot, u: Entry)
    ensures var claim := RoleClaim(Joined(s, u));
      || claim == Null
      || exists r, ur ::
        && r in s.roles && ur in s.userRoles
        && "user_id" in ur.fields && ur.fields["user_id"] == Oid(u.id)
        && "role_id" in ur.fields && ur.fields["role_id"] == Oid(r.id)
        && "name" in r.fields && claim == r.fields["name"]
  {
    var j := Joined(s, u);
    JoinedRoles(s, u);
    var claim := RoleClaim(j);
    if claim != Null {
      var items := j["role"].items;
      assert items != [] && "name" in items[0] && claim == items[0]["name"];
      assert items[0] in items;
      var r, ur :|
        && r in s.roles && ur in s.userRoles
        && "user_id" in ur.fields && ur.fields["user_id"] == Oid(u.id)
        && "role_id" in ur.fields && ur.fields["role_id"] == Oid(r.id)
        && items[0] == Project(r, "name");
      assert "name" in r.fields && claim == r.fields["name"];
    }
  }

  /** When the roles passed validation, the role claim of a joined user record
      is null or text, as the token payload schema requires. */
  lemma RoleClaimIsText(s: Snapshot, u: Entry)
    requires TableValid(RoleKind, s.roles)
    ensures RoleClaim(Joined(s, u)) == Null || RoleClaim(Joined(s, u)).Str?
  {
    RoleClaimOfJoined(s, u);
    var claim := RoleClaim(Joined(s, u));
    if claim != Null {
      var r, ur :|
        && r in s.roles && ur in s.userRoles
        && "user_id" in ur.fields && ur.fields["user_id"] == Oid(u.id)
        && "role_id" in ur.fields && ur.fields["role_id"] == Oid(r.id)
        && "name" in r.fields && claim == r.fields["name"];
      assert Conforms(RoleKind, r.fields);
    }
  }

  /** `login_access_token`: 500 when `authenticate` raises, 400 when it finds
      no user or the password does not verify; otherwise a bearer token over
      the user's claims, as written, that lives for the configured minutes. */
  function LoginAccessToken(s: Snapshot, email: string, password: string, key: string, now: Time, expireMinutes: nat): (r: Result<TokenResponse, HttpError>)
    ensures Authenticated(s, email, password).Err? ==> r == Err(InternalError)
    ensures Authenticated(s, email, password) == Ok(None) ==> r == Err(HttpError(BadRequest, IncorrectCredentials, None))
    ensures r.Ok? ==>
      && Authenticated(s, email, password).Ok? && Authenticated(s, email, password).value.Some?
      && TokenClaimsAsWritten(Authenticated(s, email, password).value.value).Some?
      && r.value.tokenType == BearerType
      && r.value.accessToken.Signed? && r.value.accessToken.key == key
      && r.value.accessToken.expires == now + expireMinutes * 60
      && r.value.accessToken.claims == TokenClaimsAsWritten(Authenticated(s, email, password).value.value).value
  {
    match Authenticated(s, email, password)
    case Err(_) => Err(InternalError)
    case Ok(None) => Err(HttpError(BadRequest, IncorrectCredentials, None))
    case Ok(Some(user)) =>
      match TokenClaimsAsWritten(user)
      case None => Err(InternalError)
      case Some(claims) => Ok(TokenResponse(CreateAccessToken(claims, now, expireMinutes * 60, key), BearerType))
  }

  /** As written, a token issued to a user without an account can never be
      used: its `account_id` claim is the text "None", which is no ObjectId,
      so the payload fails validation and every request is refused with 401. */
  lemma OpenUserTokenRejected(s: Snapshot, email: string, password: string, key: string, issued: Time, expireMinutes: nat, now: Time, scopes: seq<string>)
    requires LoginAccessToken(s, email, password, key, issued, expireMinutes).Ok?
    requires Authenticated(s, email, password).value.value.accountId == Null
    ensures var token := LoginAccessToken(s, email, password, key, issued, expireMinutes).value.accessToken;
      && GetCurrentUser(s.users, token, key, now, scopes).Err?
      && GetCurrentUser(s.users, token, key, now, scopes).error.status == Unauthorized
    ensures var token := LoginAccessToken(s, email, password, key, issued, expireMinutes).value.accessToken;
      now <= issued + expireMinutes * 60 ==>
        GetCurrentUser(s.users, token, key, now, scopes) == Err(HttpError(Unauthorized, CredentialsDetail, None))
  {
    var user := Authenticated(s, email, password).value.value;
    AccountlessClaimsRejected(s.users, user, key, issued, expireMinutes * 60, now, scopes);
  }

  /** The claims of a `UserInDB` without an account fail the payload schema. */
  lemma AccountlessClaimsRejected(users: Table, user: UserInDb, key: string, issued: Time, lifetime: nat, now: Time, scopes: seq<string>)
    requires TokenClaimsAsWritten(user).Some? && user.accountId == Null
    ensures var token := CreateAccessToken(TokenClaimsAsWritten(user).value, issued, lifetime, key);
      && GetCurrentUser(users, token, key, now, scopes).Err?
      && GetCurrentUser(users, token, key, now, scopes).error.status == Unauthorized
      && (now <= issued + lifetime ==> GetCurrentUser(users, token, key, now, scopes) == Err(HttpError(Unauthorized, CredentialsDetail, None)))
  {
    var claims := TokenClaimsAsWritten(user).value;
    assert ObjectIdClaim(claims["account_id"]) == ParseId("None");
    assert AccountField(claims).None?;
  }

  /** As written, no token the login issues passes an endpoint that asks for
      scopes: `UserInDB` turns the joined `role` list into a dict without a
      `name` key, so the `role` claim is null and the request is refused with
      401. */
  lemma ScopedLoginRejected(s: Snapshot, email: string, password: string, key: string, issued: Time, expireMinutes: nat, now: Time, scopes: seq<string>)
    requires scopes != []
    requires LoginAccessToken(s, email, password, key, issued, expireMinutes).Ok?
    ensures var token := LoginAccessToken(s, email, password, key, issued, expireMinutes).value.accessToken;
      && GetCurrentUser(s.users, token, key, now, scopes).Err?
      && GetCurrentUser(s.users, token, key, now, scopes).error.status == Unauthorized
  {
    ConvertedRoleHasNoName(s, email);
    var user := Authenticated(s, email, password).value.value;
    NamelessRoleRejected(s.users, user, key, issued, expireMinutes * 60, now, scopes);
  }

  /** The claims of a `UserInDB` whose `role` dict has no `name` carry a null
      role, which no endpoint with scopes accepts. */
  lemma NamelessRoleRejected(users: Table, user: UserInDb, key: string, issued: Time, lifetime: nat, now: Time, scopes: seq<string>)
    requires scopes != [] && user.role.Rec? && "name" !in user.role.entries
    ensures var token := CreateAccessToken(TokenClaimsAsWritten(user).value, issued, lifetime, key);
      && GetCurrentUser(users, token, key, now, scopes).Err?
      && GetCurrentUser(users, token, key, now, scopes).error.status == Unauthorized
  {
    var claims := TokenClaimsAsWritten(user).value;
    assert RoleField(claims) == Some(None);
  }

  /** The intended claims of a user record with an ObjectId `_id`, a valid
      `account_id` and a text or null role pass the token payload schema. */
  lemma IntendedClaimsParse(user: Fields, id: Id)
    requires "_id" in user && user["_id"] == Oid(id)
    requires NullableRef(user, "account_id")
    requires RoleClaim(user) == Null || RoleClaim(user).Str?
    ensures ParsePayload(TokenClaims(user)).Some?
    ensures ParsePayload(TokenClaims(user)).value.id == id
  {
    var claims := TokenClaims(user);
    ParseIdString(id);
    assert ObjectIdClaim(claims["id"]) == Some(id);
    if "account_id" in user && user["account_id"].Oid? {
      ParseIdString(user["account_id"].id);
      assert ObjectIdClaim(claims["account_id"]).Some?;
    }
    assert AccountField(claims).Some?;
    assert RoleField(claims).Some?;
  }

  /** A token whose claims pass the payload schema, on an endpoint without
      scopes, yields the user it names exactly when that user is active. */
  lemma UnscopedTokenAccepted(users: Table, token: Token, key: string, now: Time, claims: Fields, id: Id)
    requires Decode(token, key, now) == Some(claims)
    requires ParsePayload(claims).Some? && ParsePayload(claims).value.id == id
    ensures GetCurrentUser(users, token, key, now, []).Ok? <==> Get(users, id).Some?
    ensures GetCurrentUser(users, token, key, now, []).Ok? ==> GetCurrentUser(users, token, key, now, []).value.id == id
  {
  }

  /** The record the login evidently means to authenticate: the joined
      document itself, whose `role` still lists the looked-up roles. */
  function JoinedLogin(s: Snapshot, email: string, password: string): Option<Fields>
  {
    match Last(Pipeline(s, ByEmail(email)))
    case None => None
    case Some(j) => if VerifyPassword(password, HashedPassword(j)) then Some(j) else None
  }

  /** `login_access_token` as evidently intended: the claims of the joined
      record, with the first role's name and a null `account_id` for a user
      without an account. */
  function LoginAccessTokenIntended(s: Snapshot, email: string, password: string, key: string, now: Time, expireMinutes: nat): (r: Result<TokenResponse, HttpError>)
    ensures r.Err? <==> JoinedLogin(s, email, password).None?
    ensures r.Err? ==> r.error == HttpError(BadRequest, IncorrectCredentials, None)
    ensures r.Ok? ==>
      && r.value.tokenType == BearerType
      && r.value.accessToken.Signed? && r.value.accessToken.key == key
      && r.value.accessToken.expires == now + expireMinutes * 60
      && r.value.accessToken.claims == TokenClaims(JoinedLogin(s, email, password).value)
  {
    match JoinedLogin(s, email, password)
    case None => Err(HttpError(BadRequest, IncorrectCredentials, None))
    case Some(user) =>
      Ok(TokenResponse(CreateAccessToken(TokenClaims(user), now, expireMinutes * 60, key), BearerType))
  }

  /** The record the intended login authenticates is the join of the last
      user with that e-mail. */
  lemma JoinedLoginUser(s: Snapshot, email: string, password: string) returns (u: Entry)
    requires JoinedLogin(s, email, password).Some?
    ensures u in s.users && UserIdByEmail(s.users, email) == Some(u.id)
    ensures JoinedLogin(s, email, password) == Some(Joined(s, u))
  {
    var found := Select(s.users, ByEmail(email));
    PipelineLast(s, ByEmail(email));
    u := found[|found| - 1];
    assert u in found;
  }

  /** The intended claims of a stored user's joined record pass the token
      payload schema and name that user. */
  lemma JoinedClaimsParse(s: Snapshot, u: Entry)
    requires TableValid(UserKind, s.users) && TableValid(RoleKind, s.roles) && u in s.users
    ensures ParsePayload(TokenClaims(Joined(s, u))).Some?
    ensures ParsePayload(TokenClaims(Joined(s, u))).value.id == u.id
  {
    var j := Joined(s, u);
    JoinedUser(s, u);
    JoinedField(s, u, "account_id");
    RoleClaimIsText(s, u);
    UserFieldBounds(u.fields);
    IntendedClaimsParse(j, u.id);
  }

  /** The role a claim value gives `TokenPayload`: its text, or none. */
  function ClaimRole(v: Value): Option<string>
  {
    if v.Str? then Some(v.s) else None
  }

  /** With the intended login, a token used before it expires yields the user
      that logged in exactly when that user is still active and its role
      (the first one the join listed) passes the endpoint's scopes. */
  lemma LoginTokenAccepted(s: Snapshot, email: string, password: string, key: string, issued: Time, expireMinutes: nat, now: Time, scopes: seq<string>)
    requires TableValid(UserKind, s.users) && TableValid(RoleKind, s.roles)
    requires LoginAccessTokenIntended(s, email, password, key, issued, expireMinutes).Ok?
    requires now <= issued + expireMinutes * 60
    ensures UserIdByEmail(s.users, email).Some?
    ensures var token := LoginAccessTokenIntended(s, email, password, key, issued, expireMinutes).value.accessToken;
      var id := UserIdByEmail(s.users, email).value;
      var role := ClaimRole(RoleClaim(JoinedLogin(s, email, password).value));
      && (GetCurrentUser(s.users, token, key, now, scopes).Ok? <==> Get(s.users, id).Some? && RoleAllowed(role, scopes))
      && (GetCurrentUser(s.users, token, key, now, scopes).Ok? ==> GetCurrentUser(s.users, token, key, now, scopes).value.id == id)
  {
    var u := JoinedLoginUser(s, email, password);
    JoinedClaimsParse(s, u);
    RoleClaimIsText(s, u);
    var claims := TokenClaims(Joined(s, u));
    var token := LoginAccessTokenIntended(s, email, password, key, issued, expireMinutes).value.accessToken;
    assert Decode(token, key, now) == Some(claims);
    assert ParsePayload(claims).value.role == ClaimRole(RoleClaim(Joined(s, u)));
  }

  /** Under valid, stamped collections `authenticate` never raises, finds a
      user exactly when the intended login does, and that user is the
      `UserInDB` of the joined record the intended login reads. */
  lemma AuthenticatedIsJoined(s: Snapshot, email: string, password: string)
    requires TableValid(UserKind, s.users) && Stamped(s.users)
    requires TableValid(AccountKind, s.accounts) && TableValid(RoleKind, s.roles)
    ensures Authenticated(s, email, password).Ok?
    ensures Authenticated(s, email, password).value.Some? <==> JoinedLogin(s, email, password).Some?
    ensures JoinedLogin(s, email, password).Some? ==>
      var j := JoinedLogin(s, email, password).value;
      InDb(j).Some? && Authenticated(s, email, password).value.value == InDb(j).value
  {
    UserByEmailConverts(s, email);
    if UserIdByEmail(s.users, email).Some? {
      var u :| u in s.users && HasEmail(u, email) && u.id == UserIdByEmail(s.users, email).value;
      LastByEmail(s, email, u);
      JoinedConverts(s, u);
      JoinedField(s, u, "hashed_password");
    } else {
      PipelineLast(s, ByEmail(email));
    }
  }

  /** Under valid, stamped collections the two logins succeed and fail
      together, and fail with the same 400. */
  lemma LoginsAgree(s: Snapshot, email: string, password: string, key: string, now: Time, expireMinutes: nat)
    requires TableValid(UserKind, s.users) && Stamped(s.users)
    requires TableValid(AccountKind, s.accounts) && TableValid(RoleKind, s.roles)
    ensures LoginAccessToken(s, email, password, key, now, expireMinutes).Ok? <==>
      LoginAccessTokenIntended(s, email, password, key, now, expireMinutes).Ok?
    ensures LoginAccessToken(s, email, password, key, now, expireMinutes).Err? ==>
      LoginAccessToken(s, email, password, key, now, expireMinutes) == LoginAccessTokenIntended(s, email, password, key, now, expireMinutes)
  {
    AuthenticatedIsJoined(s, email, password);
    ConvertedRoleHasNoName(s, email);
  }

  /** Under valid, stamped collections the tokens of the two logins name the
      same user, and the written one carries a null role. */
  lemma LoginClaimsAgree(s: Snapshot, email: string, password: string, key: string, now: Time, expireMinutes: nat)
    requires TableValid(UserKind, s.users) && Stamped(s.users)
    requires TableValid(AccountKind, s.accounts) && TableValid(RoleKind, s.roles)
    requires LoginAccessToken(s, email, password, key, now, expireMinutes).Ok?
    ensures LoginAccessTokenIntended(s, email, password, key, now, expireMinutes).Ok?
    ensures var written := LoginAccessToken(s, email, password, key, now, expireMinutes).value.accessToken.claims;
      var intended := LoginAccessTokenIntended(s, email, password, key, now, expireMinutes).value.accessToken.claims;
      written["id"] == intended["id"] && written["role"] == Null
  {
    AuthenticatedIsJoined(s, email, password);
    ConvertedRoleHasNoName(s, email);
    var j := JoinedLogin(s, email, password).value;
    ConvertedClaims(j, InDb(j).value);
  }

  /** The written claims of a converted record whose `role` dict has no
      `name` name the same user as the intended claims of the record, with a
      null role. */
  lemma ConvertedClaims(j: Fields, user: UserInDb)
    requires InDb(j) == Some(user) && user.role.Rec? && "name" !in user.role.entries
    ensures TokenClaimsAsWritten(user).Some?
    ensures TokenClaimsAsWritten(user).value["id"] == TokenClaims(j)["id"]
    ensures TokenClaimsAsWritten(user).value["role"] == Null
  {
    assert IdText(j, "_id") == IdString(user.id);
  }

  /** `hash_password`: a hash that verifies against the password it was
      made from and fits the `hashed_password` field. */
  function HashPassword(password: string, salt: Salt): (h: string)
    ensures VerifyPassword(password, h)
    ensures |h| <= 255
  {
    VerifyHash(password, salt);
    GetPasswordHash(password, salt)
  }
}
