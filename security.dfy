/** Stand-ins for the password hashing and JSON Web Token helpers the service
    calls (`app/core/security` is not part of this model). The hash is a
    function of the password and a random salt that is passed in, laid out
    like a bcrypt string; what the rest of the service relies on is proved
    about it: the result fits the `hashed_password` field and it verifies
    against the password it was made from. */
module Security {
  import opened Wrappers
  import opened Documents

  /** bcrypt strings start with the scheme and cost, then salt and digest. */
  const HashPrefix: string := "$2b$12$"
  const SaltDigits: nat := 22
  const DigestDigits: nat := 31

  type Salt = n: nat | n < Pow16(SaltDigits)

  /** A digest of the password; any function of the password would do. */
  function Digest(password: string): (d: nat)
    ensures d < Pow16(DigestDigits)
  {
    if password == [] then 0
    else (Digest(password[..|password| - 1]) * 31 + password[|password| - 1] as nat) % Pow16(DigestDigits)
  }

  /** `get_password_hash`. */
  function GetPasswordHash(password: string, salt: Salt): (h: string)
    ensures |h| == |HashPrefix| + SaltDigits + DigestDigits
  {
    HashPrefix + ToHex(salt, SaltDigits) + ToHex(Digest(password), DigestDigits)
  }

  /** `verify_password`: re-hash with the salt read back from the stored hash. */
  predicate VerifyPassword(password: string, hashed: string)
  {
    && |hashed| == |HashPrefix| + SaltDigits + DigestDigits
    && hashed[..|HashPrefix|] == HashPrefix
    && match FromHex(hashed[|HashPrefix|..|HashPrefix| + SaltDigits])
       case Some(salt) =>
         salt < Pow16(SaltDigits) && hashed == GetPasswordHash(password, salt)
       case None => false
  }

  /** A hash always verifies against the password it was made from. */
  lemma VerifyHash(password: string, salt: Salt)
    ensures VerifyPassword(password, GetPasswordHash(password, salt))
    ensures |GetPasswordHash(password, salt)| <= 255
  {
    var h := GetPasswordHash(password, salt);
    assert h[..|HashPrefix|] == HashPrefix;
    assert h[|HashPrefix|..|HashPrefix| + SaltDigits] == ToHex(salt, SaltDigits);
    FromHexToHex(salt, SaltDigits);
  }

  // ---------------------------------------------------------------------
  // JSON Web Tokens
  // ---------------------------------------------------------------------

  /** A token as the service sees it: one it signed with some key, carrying
      claims and an expiry time, or any other text. */
  datatype Token =
    | Signed(claims: Fields, expires: Time, key: string)
    | Other(text: string)

  /** `create_access_token(data, expires_delta)`. */
  function CreateAccessToken(claims: Fields, now: Time, lifetime: nat, key: string): (t: Token)
    ensures t.Signed? && t.claims == claims && t.expires == now + lifetime && t.key == key
  {
    Signed(claims, now + lifetime, key)
  }

  /** `jwt.decode(token, key)`: the claims of a token signed with this key that
      has not expired; `None` stands for the `JWTError` it raises otherwise. */
  function Decode(t: Token, key: string, now: Time): Option<Fields>
  {
    if t.Signed? && t.key == key && now <= t.expires then Some(t.claims) else None
  }

  /** A token decodes to the claims it was created with, with the same key,
      until it expires, and never afterwards or under another key. */
  lemma DecodeCreated(claims: Fields, issued: Time, lifetime: nat, key: string, key': string, now: Time)
    ensures Decode(CreateAccessToken(claims, issued, lifetime, key), key', now) ==
      if key' == key && now <= issued + lifetime then Some(claims) else None
  {
  }
}
