/**
 * The account handlers of the user controller as state transitions over the
 * store: each takes the store and the request and gives the outcome the client
 * sees together with the store afterwards. The `Directory` class in the
 * `UserController` module performs the same transitions in place; the
 * properties of the session life cycle (refresh-token rotation, logout
 * revocation, nothing changes on error) are proved here.
 */
module Sessions {
  import opened Wrappers
  import opened JsString
  import opened Libraries
  import opened ApiResponses
  import opened ApiErrors
  import opened Outcomes
  import opened UserModel
  import opened UserValidation

  /** The `users` collection and the id the next created document gets. */
  datatype Store = Store(accounts: map<Id, Account>, nextId: Id)

  /** Ids come from a counter: every stored id lies below `nextId`. */
  predicate Bounded(s: Store) {
    forall id :: id in s.accounts ==> id < s.nextId
  }

  /** What the store guarantees of its documents: ids, setter-normalised keys, unique indexes. */
  ghost predicate Valid(s: Store) {
    && Bounded(s)
    && (forall id :: id in s.accounts ==> s.accounts[id].id == id && InStoredForm(s.accounts[id]))
    && UniqueKeys(s.accounts)
  }

  /**
   * Everything a handler reaches outside the request: bcrypt, jsonwebtoken, the
   * secrets and expiries, the Cloudinary upload (a local path to the URL of the
   * uploaded file, None when the upload fails) and whether the store drops a
   * `$set` of `undefined` instead of writing `null`, and whether it drops a
   * filter key whose value is `undefined` (leaving a clause that matches every
   * document) instead of sending `null`.
   */
  datatype Env = Env(
    bcrypt: Bcrypt, jwt: JwtLib, cfg: TokenConfig, upload: string -> Option<string>, stripsUndefined: bool,
    filterDropsUndefined: bool)

  /** The `data` of the success envelopes. */
  datatype Payload =
    | UserData(user: AccountView)
    | LoginData(user: AccountView, accessToken: string, refreshToken: string)
    | TokenData(accessToken: string, newRefreshToken: Option<string>) // None: the key is absent from the JSON
    | NoData                                                          // `{}`
    | DetailsData(details: Option<DetailsView>)                       // None: `null`

  /** A handler run: what the client sees and the store afterwards. */
  datatype Step = Step(outcome: Outcome<Payload>, store: Store)

  const TokensNotGenerated: string := "Internal Server error, Tokens not generated"
  const UserExists: string := "User already exists, change username or email."
  const AvatarRequiredDot: string := "Avatar is required."
  const AvatarRequired: string := "Avatar is required"
  const RegistrationComplete: string := "User Registration Complete."
  const NameOrEmailRequired: string := "Username and email is required"
  const UserMissing: string := "User does not exist!"
  const PasswordInvalid: string := "Password Invalid"
  const LoggedIn: string := "User logged in succesfully!"
  const LoggedOut: string := "User Logged Out successfully"
  const UnauthorizedRequestLower: string := "Unauthorized request"
  const InvalidRefreshToken: string := "Invalid Refresh Token"
  const RefreshTokenRejected: string := "Refresh Token expired/invalid"
  const AccessTokenRefreshed: string := "Access token refreshed!"
  const WrongOldPassword: string := "Invalid Password"
  const PasswordChanged: string := "Password changed successfully"
  const DetailsRequired: string := "All fields are required"
  const DetailsUpdated: string := "User details upadted"

  /**
   * The envelope rules every reply keeps: a sent body is consistent and says
   * success, a thrown `ApiError` is a 4xx or 5xx that says failure.
   */
  predicate Answered(o: Outcome<Payload>) {
    && (o.Sent? ==> Consistent(o.body) && o.body.success)
    && (o.Threw? && o.failure.Api? ==> o.failure.error.statusCode >= 400 && !o.failure.error.success)
  }

  /** JavaScript truthiness of a request field: present and not the empty string. */
  predicate Truthy(v: Option<string>) {
    v.Some? && v.value != ""
  }

  /** `res.status(200).json(new ApiResponse(200, data, message))` after the given cookie operations. */
  function Ok200(cookies: seq<CookieOp>, data: Payload, message: string): (o: Outcome<Payload>)
    ensures o.Sent? && o.status == 200 && o.cookies == cookies
    ensures o.body.statusCode == 200 && o.body.success && o.body.data == data && o.body.message == message
  {
    Sent(200, cookies, NewApiResponse(200, data, Some(message)))
  }

  // ---------------------------------------------------------------------------
  // generateAccessAndRefreshTokens

  /** The two tokens handed out and the store with the refresh token saved. */
  datatype Issued = Issued(accessToken: string, refreshToken: string, store: Store)

  /**
   * `generateAccessAndRefreshTokens(userId)`: load the document, sign both
   * tokens, save the refresh token on it. Any exception on the way (no such
   * document, a signing error) becomes a 500 and nothing is saved.
   */
  function IssueTokens(env: Env, s: Store, id: Id, now: nat): (r: Result<Issued, ApiError>)
    ensures r.Ok? <==> id in s.accounts && env.cfg.accessSecret != "" && env.cfg.refreshSecret != ""
    ensures r.Err? ==> r.error == Raise(500, TokensNotGenerated)
    ensures r.Ok? ==>
      && Some(r.value.accessToken) == GenerateAccessToken(env.jwt, env.cfg, s.accounts[id], now)
      && Some(r.value.refreshToken) == GenerateRefreshToken(env.jwt, env.cfg, s.accounts[id], now)
      && r.value.store.nextId == s.nextId
      && r.value.store.accounts == s.accounts[id := s.accounts[id].(refreshToken := Some(r.value.refreshToken))]
  {
    if id !in s.accounts then Err(Raise(500, TokensNotGenerated))
    else
      var a := s.accounts[id];
      match (GenerateAccessToken(env.jwt, env.cfg, a, now), GenerateRefreshToken(env.jwt, env.cfg, a, now))
      case (Some(access), Some(refresh)) =>
        // the pre-save hook leaves the digest alone: the password path is unmodified
        PreSaveKeepsDigest(env.bcrypt, a, Some(refresh), 0);
        Ok(Issued(access, refresh, s.(accounts := s.accounts[id := a.(refreshToken := Some(refresh))])))
      case _ => Err(Raise(500, TokensNotGenerated))
  }

  /**
   * After tokens are issued the account holds exactly one refresh token, the
   * one just signed, which verifies under the refresh secret until it expires;
   * every other account is as it was.
   */
  lemma IssuedTokenIsTheStoredOne(env: Env, s: Store, id: Id, now: nat, later: nat)
    requires SoundJwt(env.jwt)
    requires IssueTokens(env, s, id, now).Ok? && s.accounts[id].id == id
    requires later < now + env.cfg.refreshExpiry
    ensures var t := IssueTokens(env, s, id, now).value;
      && t.store.accounts[id].refreshToken == Some(t.refreshToken)
      && Verify(env.jwt, t.refreshToken, env.cfg.refreshSecret, later) == Ok(RefreshClaims(id))
      && Verify(env.jwt, t.accessToken, env.cfg.accessSecret, later).Ok? == (later < now + env.cfg.accessExpiry)
      && forall j :: j in s.accounts && j != id ==> t.store.accounts[j] == s.accounts[j]
  {
    var t := IssueTokens(env, s, id, now).value;
    var a := s.accounts[id];
    assert env.jwt.decode(t.refreshToken) == Some(Jwt(RefreshClaims(a.id), env.cfg.refreshSecret, now, now + env.cfg.refreshExpiry));
    assert env.jwt.decode(t.accessToken).Some?;
  }

  // ---------------------------------------------------------------------------
  // registerUser

  /** What multer put in `req.files`: the local paths of the files sent under each field name. */
  datatype Files = Files(avatar: Option<seq<string>>, coverImg: Option<seq<string>>)

  /** `req.files?.avatar[0]?.path`: throws when files were sent but none under `avatar`. */
  function AvatarPath(files: Option<Files>): Result<Option<string>, Fault> {
    match files
    case None => Ok(None)
    case Some(f) =>
      match f.avatar
      case None => Err(TypeError("avatar[0]"))
      case Some(paths) => if paths == [] then Ok(None) else Ok(Some(paths[0]))
  }

  /** The guarded read of `req.files.coverImg[0].path`. */
  function CoverPath(files: Option<Files>): Option<string> {
    if files.Some? && files.value.coverImg.Some? && |files.value.coverImg.value| > 0
    then Some(files.value.coverImg.value[0])
    else None
  }

  /**
   * `uploadOnCloudinary(path)`: `null` for a falsy path, else the upload's URL.
   * A failed upload does not give `null`: the upload helper's failure branch
   * calls `fs.unlinkSync` on the caught error instead of the path, which throws.
   */
  function Upload(env: Env, path: Option<string>): (r: Result<Option<string>, Fault>)
    ensures !Truthy(path) ==> r == Ok(None)
    ensures Truthy(path) ==> (r.Ok? <==> env.upload(path.value).Some?)
    ensures Truthy(path) && r.Ok? ==> r.value == env.upload(path.value)
  {
    if !Truthy(path) then Ok(None)
    else match env.upload(path.value)
      case None => Err(TypeError("unlinkSync"))
      case Some(url) => Ok(Some(url))
  }

  /**
   * The file stage of `registerUser`: read the two paths, upload both files,
   * check the avatar and read the cover's URL. Gives the avatar URL, or the
   * outcome the handler ends with.
   */
  function ResolveUploads(env: Env, files: Option<Files>): (r: Result<string, Outcome<Payload>>)
    ensures r.Err? ==> r.error.Threw? && Answered(r.error)
    ensures r.Err? ==> r.error != Throw(400, AvatarRequired)
    ensures r.Ok? ==>
      && AvatarPath(files).Ok? && Truthy(AvatarPath(files).value)
      && env.upload(AvatarPath(files).value.value) == Some(r.value)
      && Truthy(CoverPath(files)) && env.upload(CoverPath(files).value).Some?
  {
    match AvatarPath(files)
    case Err(f) => Err(Threw(Crash(f)))
    case Ok(avatarPath) =>
      if !Truthy(avatarPath) then Err(Throw(400, AvatarRequiredDot))
      else match Upload(env, avatarPath)
      case Err(f) => Err(Threw(Crash(f)))
      case Ok(avatar) =>
        match Upload(env, CoverPath(files))
        case Err(f) => Err(Threw(Crash(f)))
        case Ok(cover) =>
          if avatar.None? then Err(Throw(400, AvatarRequired))
          else if cover.None? then Err(Threw(Crash(TypeError("coverImg.url"))))
          else Ok(avatar.value)
  }

  /**
   * The checks at the head of `registerUser`: the validation chain, then the
   * conflict check against both keys. None lets the request go on.
   */
  function RegisterChecks(env: Env, s: Store, form: RegisterForm): (r: Option<Outcome<Payload>>)
    requires Bounded(s)
    ensures r.Some? ==> r.value.Threw? && Answered(r.value)
    ensures r.None? <==> CheckRegistration(form).Accepted? && FindOne(s.accounts, s.nextId, form.username, form.email, env.filterDropsUndefined).None?
    ensures r.None? ==> form.username.Some? && form.email.Some? && form.password.Some?
    ensures CheckRegistration(form).Rejected? ==> r == Some(Throw(400, CheckRegistration(form).message))
    ensures CheckRegistration(form).Accepted? && FindOne(s.accounts, s.nextId, form.username, form.email, env.filterDropsUndefined).Some? ==>
      r == Some(Throw(409, UserExists))
  {
    match CheckRegistration(form)
    case Rejected(m) => Some(Throw(400, m))
    case Crashed(f) => Some(Threw(Crash(f)))
    case Accepted =>
      if FindOne(s.accounts, s.nextId, form.username, form.email, env.filterDropsUndefined).Some? then Some(Throw(409, UserExists))
      else None
  }

  /**
   * `User.create` with the submitted fields and the avatar URL, then the reply
   * with the new document's public view.
   */
  function Persist(env: Env, s: Store, form: RegisterForm, avatarUrl: string, salt: Salt): (r: Step)
    requires form.username.Some? && form.email.Some? && form.password.Some?
    ensures Answered(r.outcome)
    ensures r.outcome.Threw? ==> r.store == s && r.outcome.failure.Crash?
    ensures r.outcome.Sent? ==>
      && r.outcome.status == 201 && r.outcome.cookies == []
      && r.outcome.body.statusCode == 200 && r.outcome.body.success && r.outcome.body.message == RegistrationComplete
      && r.store.nextId == s.nextId + 1 && s.nextId in r.store.accounts
      && r.store.accounts == s.accounts[s.nextId := r.store.accounts[s.nextId]]
      && r.outcome.body.data == UserData(View(r.store.accounts[s.nextId]))
      && CreateDocument(env.bcrypt, s.nextId,
           NewUser(form.fullname, avatarUrl, form.email.value, form.password.value, form.username.value), salt)
         == Ok(r.store.accounts[s.nextId])
  {
    var fields := NewUser(form.fullname, avatarUrl, form.email.value, form.password.value, form.username.value);
    match CreateDocument(env.bcrypt, s.nextId, fields, salt)
    case Err(f) => Step(Threw(Crash(f)), s)
    case Ok(a) =>
      Step(Sent(201, [], NewApiResponse(200, UserData(View(a)), Some(RegistrationComplete))),
           Store(s.accounts[s.nextId := a], s.nextId + 1))
  }

  /** `registerUser`: the head checks, the file stage, then `User.create`. */
  function Register(env: Env, s: Store, form: RegisterForm, files: Option<Files>, salt: Salt): (r: Step)
    requires Bounded(s)
    ensures Answered(r.outcome)
    ensures r.outcome.Threw? ==> r.store == s
    ensures RegisterChecks(env, s, form).Some? ==> r.outcome == RegisterChecks(env, s, form).value
    ensures RegisterChecks(env, s, form).None? && ResolveUploads(env, files).Err? ==> r.outcome == ResolveUploads(env, files).error
    ensures RegisterChecks(env, s, form).None? && ResolveUploads(env, files).Ok? ==>
      r == Persist(env, s, form, ResolveUploads(env, files).value, salt)
    ensures r.outcome.Sent? ==>
      && RegisterChecks(env, s, form).None? && ResolveUploads(env, files).Ok?
      && r == Persist(env, s, form, ResolveUploads(env, files).value, salt)
  {
    match RegisterChecks(env, s, form)
    case Some(o) => Step(o, s)
    case None =>
      match ResolveUploads(env, files)
      case Err(o) => Step(o, s)
      case Ok(avatarUrl) => Persist(env, s, form, avatarUrl, salt)
  }

  /**
   * The document a successful registration creates: setter-normalised keys,
   * the digest of the submitted password, no refresh token, and no cover image
   * even though one was uploaded.
   */
  lemma RegisteredAccount(env: Env, s: Store, form: RegisterForm, files: Option<Files>, salt: Salt)
    requires Bounded(s)
    requires Register(env, s, form, files, salt).outcome.Sent?
    ensures var a := Register(env, s, form, files, salt).store.accounts[s.nextId];
      && a.id == s.nextId && InStoredForm(a)
      && form.username.Some? && a.username == Normalize(form.username.value)
      && form.email.Some? && a.email == Normalize(form.email.value)
      && form.password.Some? && a.password == env.bcrypt.hash(form.password.value, salt)
      && a.refreshToken.None? && a.coverImage.None?
      && (IdealBcrypt(env.bcrypt) ==> forall q :: IsPassCorrect(env.bcrypt, a, q) <==> q == form.password.value)
  {
    var a := Register(env, s, form, files, salt).store.accounts[s.nextId];
    if IdealBcrypt(env.bcrypt) {
      forall q ensures IsPassCorrect(env.bcrypt, a, q) <==> q == form.password.value {
        IsPassCorrectExactly(env.bcrypt, a, form.password.value, salt, q);
      }
    }
  }

  /** Without a cover image a registration that passes every check still ends in a TypeError. */
  lemma RegisterWithoutCoverCrashes(env: Env, s: Store, form: RegisterForm, files: Option<Files>, salt: Salt)
    requires Bounded(s)
    requires CheckRegistration(form).Accepted? && FindOne(s.accounts, s.nextId, form.username, form.email, env.filterDropsUndefined).None?
    requires AvatarPath(files).Ok? && Truthy(AvatarPath(files).value) && env.upload(AvatarPath(files).value.value).Some?
    requires !Truthy(CoverPath(files))
    ensures Register(env, s, form, files, salt) == Step(Threw(Crash(TypeError("coverImg.url"))), s)
  {
    assert ResolveUploads(env, files) == Err(Threw(Crash(TypeError("coverImg.url"))));
  }

  /** A registration is never answered with "Avatar is required": an avatar upload gives a URL or throws. */
  lemma AvatarCheckUnreachable(env: Env, s: Store, form: RegisterForm, files: Option<Files>, salt: Salt)
    requires Bounded(s)
    ensures Register(env, s, form, files, salt).outcome != Throw(400, AvatarRequired)
  {
    var r := Register(env, s, form, files, salt);
    var checks := RegisterChecks(env, s, form);
    if checks.Some? {
      assert r.outcome == checks.value;
      if CheckRegistration(form).Rejected? {
        var m := CheckRegistration(form).message;
        assert |m| > |AvatarRequired|;
        assert r.outcome.failure.error.message == m;
      }
    } else if ResolveUploads(env, files).Err? {
      assert r.outcome == ResolveUploads(env, files).error;
    } else {
      assert r.outcome.Sent? || r.outcome.failure.Crash?;
    }
  }

  // ---------------------------------------------------------------------------
  // loginUser

  /**
   * `loginUser`: at least one of username and email, a matching document, the
   * right password; then both tokens are issued, the refresh token is saved,
   * and both are sent as cookies and in the body.
   */
  function Login(env: Env, s: Store, username: Option<string>, email: Option<string>, password: Option<string>, now: nat)
    : (r: Step)
    requires Bounded(s)
    ensures Answered(r.outcome)
    ensures r.outcome.Threw? ==> r.store == s
    ensures !Truthy(username) && !Truthy(email) ==> r.outcome == Throw(400, NameOrEmailRequired)
    ensures (Truthy(username) || Truthy(email)) && FindOne(s.accounts, s.nextId, username, email, env.filterDropsUndefined).None? ==>
      r.outcome == Throw(404, UserMissing)
    ensures (Truthy(username) || Truthy(email)) && FindOne(s.accounts, s.nextId, username, email, env.filterDropsUndefined).Some? ==>
      var a := s.accounts[FindOne(s.accounts, s.nextId, username, email, env.filterDropsUndefined).value];
      && (password.None? ==> r.outcome == Threw(Crash(BcryptArgument)))
      && (password.Some? && !IsPassCorrect(env.bcrypt, a, password.value) ==> r.outcome == Throw(401, PasswordInvalid))
    ensures r.outcome.Sent? ==>
      && (Truthy(username) || Truthy(email)) && FindOne(s.accounts, s.nextId, username, email, env.filterDropsUndefined).Some?
      && var id := FindOne(s.accounts, s.nextId, username, email, env.filterDropsUndefined).value;
      && password.Some? && IsPassCorrect(env.bcrypt, s.accounts[id], password.value)
      && IssueTokens(env, s, id, now).Ok?
      && var t := IssueTokens(env, s, id, now).value;
      && r.store == t.store
      && r.outcome == Ok200([SetCookie("accessToken", t.accessToken), SetCookie("refreshToken", t.refreshToken)],
                            LoginData(View(s.accounts[id]), t.accessToken, t.refreshToken), LoggedIn)
  {
    if !Truthy(username) && !Truthy(email) then Step(Throw(400, NameOrEmailRequired), s)
    else match FindOne(s.accounts, s.nextId, username, email, env.filterDropsUndefined)
    case None => Step(Throw(404, UserMissing), s)
    case Some(id) =>
      if password.None? then Step(Threw(Crash(BcryptArgument)), s)
      else if !IsPassCorrect(env.bcrypt, s.accounts[id], password.value) then Step(Throw(401, PasswordInvalid), s)
      else match IssueTokens(env, s, id, now)
      case Err(e) => Step(Threw(Api(e)), s)
      case Ok(t) =>
        // the reply reloads the document without password and refresh token
        Step(Ok200([SetCookie("accessToken", t.accessToken), SetCookie("refreshToken", t.refreshToken)],
                   LoginData(View(t.store.accounts[id]), t.accessToken, t.refreshToken), LoggedIn),
             t.store)
  }

  // ---------------------------------------------------------------------------
  // logoutUser

  /**
   * `logoutUser` for the account the gate admitted: `$set` the refresh token to
   * `undefined` and clear both cookies. The store writes `null` (None) unless
   * it strips `undefined` from updates, in which case nothing changes.
   */
  function Logout(env: Env, s: Store, id: Id): (r: Step)
    ensures Answered(r.outcome)
    ensures r.outcome == Ok200([ClearCookie("accessToken"), ClearCookie("refreshToken")], NoData, LoggedOut)
    ensures !env.stripsUndefined && id in s.accounts ==>
      r.store == s.(accounts := s.accounts[id := s.accounts[id].(refreshToken := None)])
    ensures env.stripsUndefined || id !in s.accounts ==> r.store == s
  {
    var store :=
      if env.stripsUndefined || id !in s.accounts then s
      else s.(accounts := s.accounts[id := s.accounts[id].(refreshToken := None)]);
    Step(Ok200([ClearCookie("accessToken"), ClearCookie("refreshToken")], NoData, LoggedOut), store)
  }

  // ---------------------------------------------------------------------------
  // refreshAccessToken

  /** `req.cookies.refreshToken || req.body.refreshToken`, None when falsy. */
  function IncomingRefreshToken(cookie: Option<string>, body: Option<string>): Option<string> {
    if Truthy(cookie) then cookie else if Truthy(body) then body else None
  }

  /** The `_id` of the incoming refresh token when it verifies under the refresh secret. */
  function RefreshSubject(env: Env, cookie: Option<string>, body: Option<string>, now: nat): Option<Id> {
    match IncomingRefreshToken(cookie, body)
    case None => None
    case Some(token) =>
      match Verify(env.jwt, token, env.cfg.refreshSecret, now)
      case Err(_) => None
      case Ok(claims) => Some(claims.id)
  }

  /**
   * `refreshAccessToken`: the incoming token must verify under the refresh
   * secret, name a stored account and equal the token stored on it; then a new
   * pair is issued and the new refresh token saved. Every failure is a 401.
   * The reply reads a `newRefreshToken` key the token helper does not return,
   * so the refresh-token cookie is set to the text "undefined" and the body
   * carries no refresh token.
   */
  function Refresh(env: Env, s: Store, cookie: Option<string>, body: Option<string>, now: nat): (r: Step)
    ensures Answered(r.outcome)
    ensures r.outcome.Threw? ==>
      r.store == s && r.outcome.failure.Api? && r.outcome.failure.error.statusCode == 401
    ensures IncomingRefreshToken(cookie, body).None? ==> r.outcome == Throw(401, UnauthorizedRequestLower)
    ensures IncomingRefreshToken(cookie, body).Some? ==>
      var v := Verify(env.jwt, IncomingRefreshToken(cookie, body).value, env.cfg.refreshSecret, now);
      v.Err? ==> r.outcome == Throw(401, JwtMessage(v.error))
    ensures RefreshSubject(env, cookie, body, now).Some? ==>
      var id := RefreshSubject(env, cookie, body, now).value;
      && (id !in s.accounts ==> r.outcome == Throw(401, InvalidRefreshToken))
      && (id in s.accounts && s.accounts[id].refreshToken != IncomingRefreshToken(cookie, body) ==>
            r.outcome == Throw(401, RefreshTokenRejected))
    ensures r.outcome.Sent? ==>
      && RefreshSubject(env, cookie, body, now).Some?
      && var id := RefreshSubject(env, cookie, body, now).value;
      && id in s.accounts && s.accounts[id].refreshToken == IncomingRefreshToken(cookie, body)
      && IssueTokens(env, s, id, now).Ok?
      && var t := IssueTokens(env, s, id, now).value;
      && r.store == t.store
      && r.outcome == Ok200([SetCookie("accessToken", t.accessToken), SetCookie("refreshToken", "undefined")],
                            TokenData(t.accessToken, None), AccessTokenRefreshed)
  {
    match IncomingRefreshToken(cookie, body)
    case None => Step(Throw(401, UnauthorizedRequestLower), s)
    case Some(token) =>
      match Verify(env.jwt, token, env.cfg.refreshSecret, now)
      case Err(e) => Step(Throw(401, JwtMessage(e)), s)
      case Ok(claims) =>
        if claims.id !in s.accounts then Step(Throw(401, InvalidRefreshToken), s)
        else if s.accounts[claims.id].refreshToken != Some(token) then Step(Throw(401, RefreshTokenRejected), s)
        else match IssueTokens(env, s, claims.id, now)
        // the catch re-raises every error as a 401 with its message
        case Err(e) => Step(Throw(401, e.message), s)
        case Ok(t) =>
          Step(Ok200([SetCookie("accessToken", t.accessToken), SetCookie("refreshToken", "undefined")],
                     TokenData(t.accessToken, None), AccessTokenRefreshed),
               t.store)
  }

  // ---------------------------------------------------------------------------
  // changeCurrentUserPassword

  /**
   * `changeCurrentUserPassword` for the account the gate admitted: the old
   * password must match (400 otherwise); the new one is assigned and saved, and
   * the pre-save hook hashes it unless it equals the stored digest. A missing
   * old or new password makes bcrypt throw.
   */
  function ChangePassword(env: Env, s: Store, id: Id, oldPassword: Option<string>, newPassword: Option<string>, salt: Salt)
    : (r: Step)
    ensures Answered(r.outcome)
    ensures r.outcome.Threw? ==> r.store == s
    ensures id !in s.accounts ==> r.outcome == Threw(Crash(TypeError("isPassCorrect")))
    ensures id in s.accounts && oldPassword.None? ==> r.outcome == Threw(Crash(BcryptArgument))
    ensures id in s.accounts && oldPassword.Some? && !IsPassCorrect(env.bcrypt, s.accounts[id], oldPassword.value) ==>
      r.outcome == Throw(400, WrongOldPassword)
    ensures id in s.accounts && oldPassword.Some? && IsPassCorrect(env.bcrypt, s.accounts[id], oldPassword.value) ==>
      (newPassword.None? <==> r.outcome == Threw(Crash(BcryptArgument)))
    ensures id in s.accounts && oldPassword.Some? && IsPassCorrect(env.bcrypt, s.accounts[id], oldPassword.value) ==>
      (newPassword.Some? ==> r.outcome.Sent?)
    ensures r.outcome.Sent? ==>
      && id in s.accounts && oldPassword.Some? && IsPassCorrect(env.bcrypt, s.accounts[id], oldPassword.value)
      && newPassword.Some?
      && r.outcome == Ok200([], NoData, PasswordChanged)
      && r.store == s.(accounts := s.accounts[id :=
           s.accounts[id].(password := PreSave(env.bcrypt, Some(s.accounts[id].password), newPassword.value, salt))])
  {
    if id !in s.accounts then Step(Threw(Crash(TypeError("isPassCorrect"))), s)
    else
      var a := s.accounts[id];
      if oldPassword.None? then Step(Threw(Crash(BcryptArgument)), s)
      else if !IsPassCorrect(env.bcrypt, a, oldPassword.value) then Step(Throw(400, WrongOldPassword), s)
      else if newPassword.None? then Step(Threw(Crash(BcryptArgument)), s)
      else
        var saved := a.(password := PreSave(env.bcrypt, Some(a.password), newPassword.value, salt));
        Step(Ok200([], NoData, PasswordChanged), s.(accounts := s.accounts[id := saved]))
  }

  // ---------------------------------------------------------------------------
  // updateAccountDetails

  /** Another document already holds this e-mail, so the unique index refuses it. */
  predicate EmailTaken(accounts: map<Id, Account>, id: Id, email: string) {
    exists j :: j in accounts && j != id && accounts[j].email == email
  }

  /**
   * `updateAccountDetails` for the account the gate admitted: both fields must
   * be truthy; the `$set` goes through the setters (fullname trimmed, e-mail
   * trimmed and lower-cased) but not through the validators, and the reply
   * carries the updated document with its refresh token (only the password is
   * deselected), or `null` when there is no such document.
   */
  function UpdateDetails(env: Env, s: Store, id: Id, fullname: Option<string>, email: Option<string>): (r: Step)
    ensures Answered(r.outcome)
    ensures r.outcome.Threw? ==> r.store == s
    ensures !Truthy(fullname) || !Truthy(email) ==> r.outcome == Throw(400, DetailsRequired)
    ensures Truthy(fullname) && Truthy(email) && id !in s.accounts ==>
      r == Step(Ok200([], DetailsData(None), DetailsUpdated), s)
    ensures Truthy(fullname) && Truthy(email) && id in s.accounts && EmailTaken(s.accounts, id, Normalize(email.value)) ==>
      r.outcome == Threw(Crash(DuplicateKey("email")))
    ensures Truthy(fullname) && Truthy(email) && id in s.accounts && !EmailTaken(s.accounts, id, Normalize(email.value)) ==>
      r.outcome.Sent?
    ensures r.outcome.Sent? && id in s.accounts ==>
      && Truthy(fullname) && Truthy(email) && !EmailTaken(s.accounts, id, Normalize(email.value))
      && var a := s.accounts[id].(fullname := Trim(fullname.value), email := Normalize(email.value));
      && r.store == s.(accounts := s.accounts[id := a])
      && r.outcome == Ok200([], DetailsData(Some(DetailsView(View(a), a.refreshToken))), DetailsUpdated)
  {
    if !Truthy(fullname) || !Truthy(email) then Step(Throw(400, DetailsRequired), s)
    else if id !in s.accounts then Step(Ok200([], DetailsData(None), DetailsUpdated), s)
    else
      var e := Normalize(email.value);
      if EmailTaken(s.accounts, id, e) then Step(Threw(Crash(DuplicateKey("email"))), s)
      else
        var a := s.accounts[id].(fullname := Trim(fullname.value), email := e);
        Step(Ok200([], DetailsData(Some(DetailsView(View(a), a.refreshToken))), DetailsUpdated),
             s.(accounts := s.accounts[id := a]))
  }
}
