/**
 * The two cryptographic libraries the account code calls, seen only through
 * their interfaces: bcrypt (`hash`, `compare`) and jsonwebtoken (`sign`,
 * `verify`). Their internals are not modelled; what the rest of the model may
 * assume about them is stated by `IdealBcrypt` and `SoundJwt`.
 */
module Libraries {
  import opened Wrappers
  import opened JsString

  /** The salt bcrypt draws at random for each `hash` call. */
  type Salt = nat

  /** An account's `_id`. */
  type Id = nat

  /** `bcrypt.hash(plain, 10)` with its salt made explicit, and `bcrypt.compare(plain, digest)`. */
  datatype Bcrypt = Bcrypt(hash: (string, Salt) -> string, compare: (string, string) -> bool)

  /**
   * An ideal one-way hash: a digest matches the plaintext it was made from and
   * no other, and it never equals that plaintext.
   */
  ghost predicate IdealBcrypt(b: Bcrypt) {
    && (forall p, s :: b.compare(p, b.hash(p, s)))
    && (forall p, q, s :: b.compare(q, b.hash(p, s)) ==> q == p)
    && (forall p, s :: b.hash(p, s) != p)
  }

  /** The payload of a token, apart from `iat` and `exp`. */
  datatype Claims =
    | AccessClaims(id: Id, email: string, username: string, fullname: string)
    | RefreshClaims(id: Id)

  /** What a token string carries: its claims, the secret it was signed with, `iat` and `exp` in seconds. */
  datatype Jwt = Jwt(claims: Claims, secret: string, iat: nat, exp: nat)

  /**
   * jsonwebtoken as a pair of functions: `sign` serialises and signs, `decode`
   * parses a string and recovers what was signed and under which secret (None
   * for a string that is not a well-formed token).
   */
  datatype JwtLib = JwtLib(sign: Jwt -> string, decode: string -> Option<Jwt>)

  /**
   * Signing is faithful: a signed token decodes to exactly what was signed, and
   * it is three dot-separated parts (a header, a payload and a signature).
   */
  ghost predicate SoundJwt(lib: JwtLib) {
    && (forall j :: lib.decode(lib.sign(j)) == Some(j))
    && (forall j :: CountChar(lib.sign(j), '.') == 2)
  }

  /**
   * The errors `jwt.verify` throws, in the order it checks for them: not three
   * dot-separated parts, parts that do not decode, no secret, a signature made
   * with another secret, an `exp` that has passed.
   */
  datatype JwtError = Malformed | InvalidToken | SecretMissing | InvalidSignature | Expired

  /** The `message` of each error, which the handlers pass on to the client. */
  function JwtMessage(e: JwtError): (m: string)
    ensures m != ""
  {
    match e
    case Malformed => "jwt malformed"
    case InvalidToken => "invalid token"
    case SecretMissing => "secret or public key must be provided"
    case InvalidSignature => "invalid signature"
    case Expired => "jwt expired"
  }

  /**
   * `jwt.sign(claims, secret, {expiresIn})` at time `now`: sets `iat` to `now`
   * and `exp` to `now + expiresIn`; throws (None) when the secret is empty.
   */
  function Sign(lib: JwtLib, claims: Claims, secret: string, expiresIn: nat, now: nat): (r: Option<string>)
    ensures r.None? <==> secret == ""
    ensures SoundJwt(lib) && r.Some? ==> lib.decode(r.value) == Some(Jwt(claims, secret, now, now + expiresIn))
  {
    if secret == "" then None else Some(lib.sign(Jwt(claims, secret, now, now + expiresIn)))
  }

  /**
   * `jwt.verify(token, secret)` at time `now`: the claims of a well-formed token
   * signed with `secret` whose `exp` lies after `now`. A string that `split(".")`
   * does not cut into three parts is "jwt malformed" before anything is
   * decoded; three parts that do not decode are an "invalid token".
   */
  function Verify(lib: JwtLib, token: string, secret: string, now: nat): (r: Result<Claims, JwtError>)
    ensures r.Ok? ==> CountChar(token, '.') == 2 && secret != "" && lib.decode(token).Some?
    ensures r.Ok? ==> var j := lib.decode(token).value; j.secret == secret && now < j.exp && r.value == j.claims
    ensures CountChar(token, '.') != 2 ==> r == Err(Malformed)
    ensures CountChar(token, '.') == 2 && lib.decode(token).None? ==> r == Err(InvalidToken)
  {
    if CountChar(token, '.') != 2 then Err(Malformed)
    else match lib.decode(token)
    case None => Err(InvalidToken)
    case Some(j) =>
      if secret == "" then Err(SecretMissing)
      else if j.secret != secret then Err(InvalidSignature)
      else if now >= j.exp then Err(Expired)
      else Ok(j.claims)
  }

  /** A token issued with `secret` verifies under that secret until it expires, and then fails as expired. */
  lemma VerifyIssued(lib: JwtLib, claims: Claims, secret: string, expiresIn: nat, issuedAt: nat, now: nat)
    requires SoundJwt(lib)
    requires secret != ""
    ensures var t := Sign(lib, claims, secret, expiresIn, issuedAt).value;
            Verify(lib, t, secret, now) == if now < issuedAt + expiresIn then Ok(claims) else Err(Expired)
  {
  }

  /** A token never verifies under a secret other than the one that signed it. */
  lemma VerifyOtherSecret(lib: JwtLib, claims: Claims, secret: string, other: string, expiresIn: nat, issuedAt: nat, now: nat)
    requires SoundJwt(lib)
    requires secret != "" && other != "" && other != secret
    ensures Verify(lib, Sign(lib, claims, secret, expiresIn, issuedAt).value, other, now) == Err(InvalidSignature)
  {
  }

  /** Two token strings are equal only if they were signed from the same claims, secret and issue time. */
  lemma SignInjective(lib: JwtLib, c1: Claims, s1: string, e1: nat, t1: nat, c2: Claims, s2: string, e2: nat, t2: nat)
    requires SoundJwt(lib)
    requires Sign(lib, c1, s1, e1, t1).Some? && Sign(lib, c2, s2, e2, t2).Some?
    requires Sign(lib, c1, s1, e1, t1) == Sign(lib, c2, s2, e2, t2)
    ensures c1 == c2 && s1 == s2 && t1 == t2 && e1 == e2
  {
    var j1 := Jwt(c1, s1, t1, t1 + e1);
    var j2 := Jwt(c2, s2, t2, t2 + e2);
    assert lib.decode(lib.sign(j1)) == Some(j1);
    assert lib.decode(lib.sign(j2)) == Some(j2);
  }

  /** Under an ideal bcrypt a digest matches exactly the password it was made from. */
  lemma CompareExactly(b: Bcrypt, p: string, q: string, s: Salt)
    requires IdealBcrypt(b)
    ensures b.compare(q, b.hash(p, s)) <==> q == p
  {
  }
}
