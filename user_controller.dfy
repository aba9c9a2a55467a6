/**
 * The account handlers of the user controller as they run against the
 * directory of stored documents: each request reads the documents it needs,
 * decides, and writes back at most one document. Every method is proved to do
 * exactly what the matching function of `Sessions` says, and to keep the
 * store invariants and the link between each stored digest and the password
 * it was made from.
 */
module UserController {
  import opened Wrappers
  import opened Libraries
  import opened Outcomes
  import opened ApiResponses
  import opened ApiErrors
  import opened UserModel
  import opened UserValidation
  import opened Sessions
  import opened SessionLifecycle

  /** The `users` collection together with the libraries and settings the handlers use. */
  class Directory {
    const env: Env
    var accounts: map<Id, Account>
    var nextId: Id
    /** The plaintext password and salt each stored digest was made from. */
    ghost var passwords: map<Id, (string, Salt)>

    ghost predicate Valid()
      reads this
    {
      && Sessions.Valid(Store(accounts, nextId))
      && forall id :: id in accounts ==>
           id in passwords && accounts[id].password == env.bcrypt.hash(passwords[id].0, passwords[id].1)
    }

    /** An empty collection. */
    constructor (env: Env)
      ensures Valid()
      ensures this.env == env && accounts == map[] && nextId == 0 && passwords == map[]
    {
      this.env := env;
      accounts := map[];
      nextId := 0;
      passwords := map[];
    }

    /**
     * `generateAccessAndRefreshTokens`: sign both tokens for document `id` and
     * save the refresh token on it; a missing document or a token that cannot
     * be signed becomes the 500 error.
     */
    method GenerateAccessAndRefreshTokens(id: Id, now: nat) returns (r: Result<(string, string), ApiError>)
      requires Valid()
      modifies this
      ensures Valid() && passwords == old(passwords)
      ensures var i := IssueTokens(env, old(Store(accounts, nextId)), id, now);
        && (i.Err? ==> r == Err(i.error) && Store(accounts, nextId) == old(Store(accounts, nextId)))
        && (i.Ok? ==> r == Ok((i.value.accessToken, i.value.refreshToken)) && Store(accounts, nextId) == i.value.store)
    {
      if id !in accounts {
        return Err(Raise(500, TokensNotGenerated));
      }
      var a := accounts[id];
      var access := GenerateAccessToken(env.jwt, env.cfg, a, now);
      var refresh := GenerateRefreshToken(env.jwt, env.cfg, a, now);
      if access.None? || refresh.None? {
        return Err(Raise(500, TokensNotGenerated));
      }
      IssueTokensKeepsValid(env, Store(accounts, nextId), id, now);
      accounts := accounts[id := a.(refreshToken := refresh)];
      r := Ok((access.value, refresh.value));
    }

    /**
     * `registerUser`: the validation chain and the conflict check, the file
     * uploads, then `User.create`.
     */
    method Register(form: RegisterForm, files: Option<Files>, salt: Salt) returns (o: Outcome<Payload>)
      requires Valid()
      modifies this
      ensures Valid()
      ensures var r := Sessions.Register(env, old(Store(accounts, nextId)), form, files, salt);
        o == r.outcome && Store(accounts, nextId) == r.store
      ensures o.Sent? ==> passwords == old(passwords)[old(nextId) := (form.password.value, salt)]
      ensures !o.Sent? ==> passwords == old(passwords)
    {
      var checks := RegisterChecks(env, Store(accounts, nextId), form);
      if checks.Some? {
        return checks.value;
      }
      var upload := ResolveUploads(env, files);
      if upload.Err? {
        return upload.error;
      }
      o := Create(form, upload.value, salt);
    }

    /**
     * `User.create` once the checks and uploads passed: the new document is
     * stored under the next id, and the password its digest was made from is
     * remembered.
     */
    method Create(form: RegisterForm, avatarUrl: string, salt: Salt) returns (o: Outcome<Payload>)
      requires Valid()
      requires form.username.Some? && form.email.Some? && form.password.Some?
      requires FindOne(accounts, nextId, form.username, form.email, env.filterDropsUndefined).None?
      modifies this
      ensures Valid()
      ensures var r := Persist(env, old(Store(accounts, nextId)), form, avatarUrl, salt);
        o == r.outcome && Store(accounts, nextId) == r.store
      ensures o.Sent? ==> passwords == old(passwords)[old(nextId) := (form.password.value, salt)]
      ensures !o.Sent? ==> passwords == old(passwords)
    {
      PersistCreated(env, Store(accounts, nextId), form, avatarUrl, salt);
      var fields := NewUser(form.fullname, avatarUrl, form.email.value, form.password.value, form.username.value);
      var created := CreateDocument(env.bcrypt, nextId, fields, salt);
      if created.Err? {
        return Threw(Crash(created.error));
      }
      var a := created.value;
      accounts := accounts[nextId := a];
      passwords := passwords[nextId := (form.password.value, salt)];
      nextId := nextId + 1;
      o := Sent(201, [], NewApiResponse(200, UserData(View(a)), Some(RegistrationComplete)));
    }

    /**
     * `loginUser`: find the document by username or e-mail, check the password,
     * issue both tokens. With an ideal bcrypt a login succeeds only with the
     * password the account was registered (or last changed) with, and with
     * that password it fails only when the tokens cannot be signed.
     */
    method Login(username: Option<string>, email: Option<string>, password: Option<string>, now: nat)
      returns (o: Outcome<Payload>)
      requires Valid()
      modifies this
      ensures Valid() && passwords == old(passwords)
      ensures var r := Sessions.Login(env, old(Store(accounts, nextId)), username, email, password, now);
        o == r.outcome && Store(accounts, nextId) == r.store
      ensures IdealBcrypt(env.bcrypt) && (Truthy(username) || Truthy(email)) ==>
        var found := FindOne(old(accounts), old(nextId), username, email, env.filterDropsUndefined);
        && (o.Sent? ==> found.Some? && password == Some(passwords[found.value].0))
        && ((found.Some? && password == Some(passwords[found.value].0)
             && env.cfg.accessSecret != "" && env.cfg.refreshSecret != "") ==> o.Sent?)
    {
      if !Truthy(username) && !Truthy(email) {
        return Throw(400, NameOrEmailRequired);
      }
      var found := FindOne(accounts, nextId, username, email, env.filterDropsUndefined);
      if found.None? {
        return Throw(404, UserMissing);
      }
      var id := found.value;
      if IdealBcrypt(env.bcrypt) && password.Some? {
        IsPassCorrectExactly(env.bcrypt, accounts[id], passwords[id].0, passwords[id].1, password.value);
      }
      if password.None? {
        return Threw(Crash(BcryptArgument));
      }
      if !IsPassCorrect(env.bcrypt, accounts[id], password.value) {
        return Throw(401, PasswordInvalid);
      }
      var a := accounts[id];
      var tokens := GenerateAccessAndRefreshTokens(id, now);
      if tokens.Err? {
        return Threw(Api(tokens.error));
      }
      var (access, refresh) := tokens.value;
      o := Ok200([SetCookie("accessToken", access), SetCookie("refreshToken", refresh)],
                 LoginData(View(a), access, refresh), LoggedIn);
    }

    /** `logoutUser`: unset the refresh token of the admitted account and clear both cookies. */
    method Logout(id: Id) returns (o: Outcome<Payload>)
      requires Valid()
      modifies this
      ensures Valid() && passwords == old(passwords)
      ensures var r := Sessions.Logout(env, old(Store(accounts, nextId)), id);
        o == r.outcome && Store(accounts, nextId) == r.store
    {
      LogoutKeepsValid(env, Store(accounts, nextId), id);
      if !env.stripsUndefined && id in accounts {
        accounts := accounts[id := accounts[id].(refreshToken := None)];
      }
      o := Ok200([ClearCookie("accessToken"), ClearCookie("refreshToken")], NoData, LoggedOut);
    }

    /**
     * `refreshAccessToken`: the incoming token must verify and be the one stored
     * on the account it names; a new pair is then issued and saved. A refresh
     * that succeeds leaves the consumed token stored nowhere but where the new
     * one was written.
     */
    method Refresh(cookie: Option<string>, body: Option<string>, now: nat) returns (o: Outcome<Payload>)
      requires Valid()
      modifies this
      ensures Valid() && passwords == old(passwords)
      ensures var r := Sessions.Refresh(env, old(Store(accounts, nextId)), cookie, body, now);
        o == r.outcome && Store(accounts, nextId) == r.store
    {
      var incoming := IncomingRefreshToken(cookie, body);
      if incoming.None? {
        return Throw(401, UnauthorizedRequestLower);
      }
      var verified := Verify(env.jwt, incoming.value, env.cfg.refreshSecret, now);
      if verified.Err? {
        return Throw(401, JwtMessage(verified.error));
      }
      var id := verified.value.id;
      if id !in accounts {
        return Throw(401, InvalidRefreshToken);
      }
      if accounts[id].refreshToken != incoming {
        return Throw(401, RefreshTokenRejected);
      }
      var tokens := GenerateAccessAndRefreshTokens(id, now);
      if tokens.Err? {
        return Throw(401, tokens.error.message);
      }
      var (access, _) := tokens.value;
      o := Ok200([SetCookie("accessToken", access), SetCookie("refreshToken", "undefined")],
                 TokenData(access, None), AccessTokenRefreshed);
    }

    /**
     * `changeCurrentUserPassword`: with an ideal bcrypt only the current
     * password is accepted as the old one; afterwards the account's digest is
     * made from the new password, unless the new password equals the stored
     * digest, which the pre-save hook keeps as it is.
     */
    method ChangePassword(id: Id, oldPassword: Option<string>, newPassword: Option<string>, salt: Salt)
      returns (o: Outcome<Payload>)
      requires Valid()
      modifies this
      ensures Valid()
      ensures var r := Sessions.ChangePassword(env, old(Store(accounts, nextId)), id, oldPassword, newPassword, salt);
        o == r.outcome && Store(accounts, nextId) == r.store
      ensures IdealBcrypt(env.bcrypt) && o.Sent? ==> oldPassword == Some(old(passwords)[id].0)
      ensures IdealBcrypt(env.bcrypt) && id in old(accounts) && oldPassword == Some(old(passwords)[id].0) ==>
        (newPassword.Some? ==> o.Sent?)
      ensures o.Sent? && newPassword.value != old(accounts)[id].password ==>
        passwords == old(passwords)[id := (newPassword.value, salt)]
      ensures !(o.Sent? && newPassword.value != old(accounts)[id].password) ==> passwords == old(passwords)
    {
      if id !in accounts {
        return Threw(Crash(TypeError("isPassCorrect")));
      }
      var a := accounts[id];
      if IdealBcrypt(env.bcrypt) && oldPassword.Some? {
        IsPassCorrectExactly(env.bcrypt, a, passwords[id].0, passwords[id].1, oldPassword.value);
      }
      if oldPassword.None? {
        return Threw(Crash(BcryptArgument));
      }
      if !IsPassCorrect(env.bcrypt, a, oldPassword.value) {
        return Throw(400, WrongOldPassword);
      }
      if newPassword.None? {
        return Threw(Crash(BcryptArgument));
      }
      ChangePasswordKeepsValid(env, Store(accounts, nextId), id, oldPassword, newPassword, salt);
      var digest := PreSave(env.bcrypt, Some(a.password), newPassword.value, salt);
      if newPassword.value != a.password {
        passwords := passwords[id := (newPassword.value, salt)];
      }
      accounts := accounts[id := a.(password := digest)];
      o := Ok200([], NoData, PasswordChanged);
    }

    /**
     * `updateAccountDetails`: trim the fullname and normalise the e-mail, then
     * `$set` both on the admitted account unless another account holds that
     * e-mail.
     */
    method UpdateDetails(id: Id, fullname: Option<string>, email: Option<string>) returns (o: Outcome<Payload>)
      requires Valid()
      modifies this
      ensures Valid() && passwords == old(passwords)
      ensures var r := Sessions.UpdateDetails(env, old(Store(accounts, nextId)), id, fullname, email);
        o == r.outcome && Store(accounts, nextId) == r.store
    {
      UpdateDetailsKeepsValid(env, Store(accounts, nextId), id, fullname, email);
      if !Truthy(fullname) || !Truthy(email) {
        return Throw(400, DetailsRequired);
      }
      if id !in accounts {
        return Ok200([], DetailsData(None), DetailsUpdated);
      }
      var e := Normalize(email.value);
      if EmailTaken(accounts, id, e) {
        return Threw(Crash(DuplicateKey("email")));
      }
      var a := accounts[id].(fullname := JsString.Trim(fullname.value), email := e);
      accounts := accounts[id := a];
      o := Ok200([], DetailsData(Some(DetailsView(View(a), a.refreshToken))), DetailsUpdated);
    }
  }
}
