/**
 * `verifyJWT`, the gate in front of every protected route: it takes the access
 * token from the `accessToken` cookie or from an `Authorization: Bearer` header,
 * verifies it with the access secret, loads the account it names and hands a
 * view of it (without password and refresh token) to the next handler. Every
 * failure, whatever its origin, is answered with 401.
 */
module AuthMiddleware {
  import opened Wrappers
  import opened JsString
  import opened Libraries
  import opened ApiErrors
  import opened UserModel

  const BearerPrefix: string := "Bearer "
  const UnauthorizedRequest: string := "Unauthorized Request"
  const InvalidAccessToken: string := "Invalid AccessToken"

  /**
   * `req.cookies?.accessToken || req.header("Authorization")?.replace("Bearer ", "")`,
   * with a falsy result (absent or empty) as None. The header rewrite removes the
   * first "Bearer " wherever it occurs, not only at the front.
   */
  function ExtractToken(cookie: Option<string>, authorization: Option<string>): (r: Option<string>)
    ensures r.Some? ==> r.value != ""
    ensures cookie.Some? && cookie.value != "" ==> r == cookie
    ensures (cookie.None? || cookie.value == "") && authorization.None? ==> r.None?
  {
    if cookie.Some? && cookie.value != "" then cookie
    else if authorization.None? then None
    else
      var t := ReplaceFirst(authorization.value, BearerPrefix, "");
      if t == "" then None else Some(t)
  }

  /** A header `Bearer <token>` yields the token when no cookie is sent. */
  lemma BearerHeaderStripped(token: string)
    requires token != ""
    ensures ExtractToken(None, Some(BearerPrefix + token)) == Some(token)
  {
    var h := BearerPrefix + token;
    assert h[..|BearerPrefix|] == BearerPrefix;
    assert OccursAt(h, BearerPrefix, 0);
    assert h[|BearerPrefix|..] == token;
    assert ReplaceFirst(h, BearerPrefix, "") == "" + token;
    assert "" + token == token;
  }

  /** A header without "Bearer " anywhere is taken as the token itself. */
  lemma BareHeaderKept(h: string)
    requires h != "" && forall k :: !OccursAt(h, BearerPrefix, k)
    ensures ExtractToken(None, Some(h)) == Some(h)
  {
  }

  /**
   * "Bearer " is removed where it first occurs, wherever that is: the token is
   * the header with that one occurrence cut out, or none when nothing is left.
   */
  lemma BearerRemovedAnywhere(h: string, i: nat)
    requires OccursAt(h, BearerPrefix, i)
    requires forall k :: 0 <= k < i ==> !OccursAt(h, BearerPrefix, k)
    ensures var t := h[..i] + h[i + |BearerPrefix|..];
            ExtractToken(None, Some(h)) == if t == "" then None else Some(t)
  {
    ReplaceFirstAt(h, BearerPrefix, "", i);
    assert h[..i] + "" + h[i + |BearerPrefix|..] == h[..i] + h[i + |BearerPrefix|..];
  }

  /** For example, a header `xBearer abc` yields the token `xabc`. */
  lemma BearerRemovedMidHeader()
    ensures ExtractToken(None, Some("xBearer abc")) == Some("xabc")
  {
    var h := "xBearer abc";
    assert !OccursAt(h, BearerPrefix, 0) by { assert h[0] != BearerPrefix[0]; }
    assert h[1..8] == BearerPrefix;
    BearerRemovedAnywhere(h, 1);
    assert h[..1] + h[8..] == "xabc";
  }

  /** The result of the gate: the request goes on with the account's public view, or is refused. */
  datatype GateResult = Admit(user: AccountView) | Reject(error: ApiError)

  /**
   * `verifyJWT` against the accounts in the store at time `now`. The lookup uses
   * the `_id` claim, which access and refresh tokens both carry.
   */
  function VerifyJWT(accounts: map<Id, Account>, lib: JwtLib, cfg: TokenConfig, now: nat,
                     cookie: Option<string>, authorization: Option<string>): (r: GateResult)
    ensures r.Reject? ==> r.error.statusCode == 401 && !r.error.success && r.error.message != ""
    ensures ExtractToken(cookie, authorization).None? ==> r == Reject(Raise(401, UnauthorizedRequest))
    ensures r.Admit? <==>
      && ExtractToken(cookie, authorization).Some?
      && Verify(lib, ExtractToken(cookie, authorization).value, cfg.accessSecret, now).Ok?
      && Verify(lib, ExtractToken(cookie, authorization).value, cfg.accessSecret, now).value.id in accounts
    ensures r.Admit? ==>
      r.user == View(accounts[Verify(lib, ExtractToken(cookie, authorization).value, cfg.accessSecret, now).value.id])
  {
    match ExtractToken(cookie, authorization)
    case None => Reject(Raise(401, UnauthorizedRequest))
    case Some(token) =>
      match Verify(lib, token, cfg.accessSecret, now)
      case Err(e) => Reject(Raise(401, JwtMessage(e)))
      case Ok(claims) =>
        if claims.id in accounts then Admit(View(accounts[claims.id]))
        else Reject(Raise(401, InvalidAccessToken))
  }

  /** An unexpired access token of a stored account, sent as a cookie, admits that account. */
  lemma FreshAccessTokenAdmitted(accounts: map<Id, Account>, lib: JwtLib, cfg: TokenConfig, a: Account,
                                 issuedAt: nat, now: nat, authorization: Option<string>)
    requires SoundJwt(lib) && cfg.accessSecret != ""
    requires a.id in accounts && accounts[a.id] == a
    requires now < issuedAt + cfg.accessExpiry
    ensures var token := GenerateAccessToken(lib, cfg, a, issuedAt).value;
            VerifyJWT(accounts, lib, cfg, now, Some(token), authorization) == Admit(View(a))
  {
    var token := GenerateAccessToken(lib, cfg, a, issuedAt).value;
    assert lib.decode(token).Some?;
  }

  /** The same token is refused as expired from its `exp` second on. */
  lemma ExpiredAccessTokenRejected(accounts: map<Id, Account>, lib: JwtLib, cfg: TokenConfig, a: Account,
                                   issuedAt: nat, now: nat, authorization: Option<string>)
    requires SoundJwt(lib) && cfg.accessSecret != ""
    requires now >= issuedAt + cfg.accessExpiry
    ensures var token := GenerateAccessToken(lib, cfg, a, issuedAt).value;
            VerifyJWT(accounts, lib, cfg, now, Some(token), authorization) == Reject(Raise(401, JwtMessage(Expired)))
  {
    var token := GenerateAccessToken(lib, cfg, a, issuedAt).value;
    assert lib.decode(token).Some?;
  }

  /**
   * A refresh token presented at the gate is refused with "invalid signature"
   * as long as the two secrets differ.
   */
  lemma RefreshTokenRejectedAtGate(accounts: map<Id, Account>, lib: JwtLib, cfg: TokenConfig, a: Account,
                                   issuedAt: nat, now: nat, authorization: Option<string>)
    requires SoundJwt(lib) && cfg.accessSecret != "" && cfg.refreshSecret != ""
    requires cfg.accessSecret != cfg.refreshSecret
    ensures var token := GenerateRefreshToken(lib, cfg, a, issuedAt).value;
            VerifyJWT(accounts, lib, cfg, now, Some(token), authorization) == Reject(Raise(401, JwtMessage(InvalidSignature)))
  {
    var token := GenerateRefreshToken(lib, cfg, a, issuedAt).value;
    assert lib.decode(token).Some?;
  }

  /** A valid token whose account is gone is refused with "Invalid AccessToken". */
  lemma UnknownAccountRejected(accounts: map<Id, Account>, lib: JwtLib, cfg: TokenConfig, a: Account,
                               issuedAt: nat, now: nat, authorization: Option<string>)
    requires SoundJwt(lib) && cfg.accessSecret != ""
    requires a.id !in accounts
    requires now < issuedAt + cfg.accessExpiry
    ensures var token := GenerateAccessToken(lib, cfg, a, issuedAt).value;
            VerifyJWT(accounts, lib, cfg, now, Some(token), authorization) == Reject(Raise(401, InvalidAccessToken))
  {
    var token := GenerateAccessToken(lib, cfg, a, issuedAt).value;
    assert lib.decode(token).Some?;
  }

  /**
   * The gate never reads the stored refresh token nor the password: two stores
   * that agree on every account's public view decide every request alike. In
   * particular logging out, which only clears the refresh token, does not
   * revoke an access token that is already out.
   */
  lemma GateIgnoresSecrets(accounts: map<Id, Account>, other: map<Id, Account>, lib: JwtLib, cfg: TokenConfig,
                           now: nat, cookie: Option<string>, authorization: Option<string>)
    requires accounts.Keys == other.Keys
    requires forall id :: id in accounts ==> View(accounts[id]) == View(other[id])
    ensures VerifyJWT(accounts, lib, cfg, now, cookie, authorization) == VerifyJWT(other, lib, cfg, now, cookie, authorization)
  {
  }
}
