/**
 * Properties of the session life cycle that relate several handler runs: the
 * store invariants every handler keeps, refresh-token rotation, revocation at
 * logout, and what the gate still admits after it.
 */
module SessionLifecycle {
  import opened Wrappers
  import opened JsString
  import opened Libraries
  import opened Outcomes
  import opened ApiResponses
  import opened UserModel
  import opened UserValidation
  import opened AuthMiddleware
  import opened Sessions

  // ---------------------------------------------------------------------------
  // Store invariants

  /** Two documents agree on their id and on every path a setter or an index applies to. */
  predicate SameKeys(a: Account, b: Account) {
    a.id == b.id && a.username == b.username && a.email == b.email && a.fullname == b.fullname
  }

  /** `s1` holds the same documents as `s`, changed at most outside the key paths. */
  predicate KeysKept(s: Store, s1: Store) {
    && s1.nextId == s.nextId && s1.accounts.Keys == s.accounts.Keys
    && forall j :: j in s.accounts ==> SameKeys(s1.accounts[j], s.accounts[j])
  }

  /** An update that touches no key path (a token, a password) keeps the store valid. */
  lemma KeysKeptKeepValid(s: Store, s1: Store)
    requires Valid(s) && KeysKept(s, s1)
    ensures Valid(s1)
  {
    forall j | j in s1.accounts
      ensures s1.accounts[j].id == j && InStoredForm(s1.accounts[j])
    {
      assert SameKeys(s1.accounts[j], s.accounts[j]);
      assert InStoredForm(s.accounts[j]);
    }
  }

  /** Adding a document under the next id, in stored form and with keys no document holds, keeps the store valid. */
  lemma InsertKeepsValid(s: Store, s1: Store)
    requires Valid(s)
    requires s1.nextId == s.nextId + 1 && s.nextId in s1.accounts
    requires s1.accounts == s.accounts[s.nextId := s1.accounts[s.nextId]]
    requires s1.accounts[s.nextId].id == s.nextId && InStoredForm(s1.accounts[s.nextId])
    requires forall j :: j in s.accounts ==>
      s.accounts[j].username != s1.accounts[s.nextId].username && s.accounts[j].email != s1.accounts[s.nextId].email
    ensures Valid(s1)
  {
    assert s.nextId !in s.accounts;
  }

  /**
   * Replacing document `id` by one with the same id and username, an e-mail and
   * a fullname in stored form, and an e-mail no other document holds, keeps the
   * store valid.
   */
  lemma ReplaceKeepsValid(s: Store, s1: Store, id: Id)
    requires Valid(s) && id in s.accounts
    requires s1.nextId == s.nextId && id in s1.accounts && s1.accounts == s.accounts[id := s1.accounts[id]]
    requires s1.accounts[id].id == id && s1.accounts[id].username == s.accounts[id].username
    requires Normalized(s1.accounts[id].email) && Trimmed(s1.accounts[id].fullname)
    requires forall j :: j in s.accounts && j != id ==> s.accounts[j].email != s1.accounts[id].email
    ensures Valid(s1)
  {
    assert InStoredForm(s.accounts[id]);
  }

  /** Issuing tokens writes only the refresh token. */
  lemma IssueTokensKeepsKeys(env: Env, s: Store, id: Id, now: nat)
    requires IssueTokens(env, s, id, now).Ok?
    ensures KeysKept(s, IssueTokens(env, s, id, now).value.store)
  {
  }

  /** Saving a refresh token keeps ids, stored forms and the unique keys. */
  lemma IssueTokensKeepsValid(env: Env, s: Store, id: Id, now: nat)
    requires Valid(s)
    requires IssueTokens(env, s, id, now).Ok?
    ensures Valid(IssueTokens(env, s, id, now).value.store)
  {
    IssueTokensKeepsKeys(env, s, id, now);
    KeysKeptKeepValid(s, IssueTokens(env, s, id, now).value.store);
  }

  /**
   * A registration adds one document under the next id, in stored form, with
   * keys no other document holds: the conflict check compared both keys after
   * the same normalisation the setters apply.
   */
  lemma RegisterAddsOne(env: Env, s: Store, form: RegisterForm, files: Option<Files>, salt: Salt)
    requires Bounded(s)
    requires Register(env, s, form, files, salt).outcome.Sent?
    ensures var s1 := Register(env, s, form, files, salt).store;
      && s1.nextId == s.nextId + 1 && s.nextId in s1.accounts
      && s1.accounts == s.accounts[s.nextId := s1.accounts[s.nextId]]
      && s1.accounts[s.nextId].id == s.nextId && InStoredForm(s1.accounts[s.nextId])
      && forall j :: j in s.accounts ==>
           s.accounts[j].username != s1.accounts[s.nextId].username && s.accounts[j].email != s1.accounts[s.nextId].email
  {
    RegisteredAccount(env, s, form, files, salt);
    assert forall j :: j in s.accounts ==> !MatchesEither(s.accounts[j], form.username, form.email, env.filterDropsUndefined);
  }

  /**
   * `User.create` after a conflict check that found nothing: a refused document
   * leaves the store as it was; a created one is stored under the next id, keeps
   * the store valid, and the reply is 201 with its view.
   */
  lemma PersistCreated(env: Env, s: Store, form: RegisterForm, avatarUrl: string, salt: Salt)
    requires Valid(s)
    requires form.username.Some? && form.email.Some? && form.password.Some?
    requires FindOne(s.accounts, s.nextId, form.username, form.email, env.filterDropsUndefined).None?
    ensures var c := CreateDocument(env.bcrypt, s.nextId,
              NewUser(form.fullname, avatarUrl, form.email.value, form.password.value, form.username.value), salt);
      && (c.Err? ==> Persist(env, s, form, avatarUrl, salt) == Step(Threw(Crash(c.error)), s))
      && (c.Ok? ==>
            var s1 := Store(s.accounts[s.nextId := c.value], s.nextId + 1);
            && c.value.password == env.bcrypt.hash(form.password.value, salt)
            && Valid(s1)
            && Persist(env, s, form, avatarUrl, salt)
               == Step(Sent(201, [], NewApiResponse(200, UserData(View(c.value)), Some(RegistrationComplete))), s1))
  {
    CreateKeepsValid(env, s, form, avatarUrl, salt);
  }

  /**
   * A registration that passes the checks, whose uploads give a non-empty avatar
   * URL and which carries a fullname is created: the reply is 201, the new
   * document sits under the next id, and it stores the digest of the submitted
   * password, which under an ideal bcrypt is never the plaintext itself.
   */
  lemma ValidRegistrationSucceeds(env: Env, s: Store, form: RegisterForm, files: Option<Files>, salt: Salt)
    requires Valid(s)
    requires RegisterChecks(env, s, form).None?
    requires ResolveUploads(env, files).Ok? && ResolveUploads(env, files).value != ""
    requires form.fullname.Some?
    ensures var r := Register(env, s, form, files, salt);
      && r.outcome.Sent? && r.outcome.status == 201
      && r.store.nextId == s.nextId + 1 && s.nextId in r.store.accounts
      && r.store.accounts[s.nextId].password == env.bcrypt.hash(form.password.value, salt)
      && (IdealBcrypt(env.bcrypt) ==> r.store.accounts[s.nextId].password != form.password.value)
  {
    RegistrationVerdicts(form);
    var url := ResolveUploads(env, files).value;
    var u := NewUser(form.fullname, url, form.email.value, form.password.value, form.username.value);
    assert u.password != [] by {
      assert Utf16Length(u.password) >= 5;
    }
    assert Complete(u);
    PersistCreated(env, s, form, url, salt);
  }

  /** `User.create` after a conflict check that found nothing keeps the store valid. */
  lemma CreateKeepsValid(env: Env, s: Store, form: RegisterForm, avatarUrl: string, salt: Salt)
    requires Valid(s)
    requires form.username.Some? && form.email.Some? && form.password.Some?
    requires FindOne(s.accounts, s.nextId, form.username, form.email, env.filterDropsUndefined).None?
    ensures Valid(Persist(env, s, form, avatarUrl, salt).store)
  {
    var s1 := Persist(env, s, form, avatarUrl, salt).store;
    if Persist(env, s, form, avatarUrl, salt).outcome.Sent? {
      assert forall j :: j in s.accounts ==> !MatchesEither(s.accounts[j], form.username, form.email, env.filterDropsUndefined);
      InsertKeepsValid(s, s1);
    }
  }

  lemma RegisterKeepsValid(env: Env, s: Store, form: RegisterForm, files: Option<Files>, salt: Salt)
    requires Valid(s)
    ensures Valid(Register(env, s, form, files, salt).store)
  {
    if Register(env, s, form, files, salt).outcome.Sent? {
      RegisterAddsOne(env, s, form, files, salt);
      InsertKeepsValid(s, Register(env, s, form, files, salt).store);
    }
  }

  lemma LoginKeepsValid(env: Env, s: Store, username: Option<string>, email: Option<string>, password: Option<string>, now: nat)
    requires Valid(s)
    ensures Valid(Login(env, s, username, email, password, now).store)
  {
    if Login(env, s, username, email, password, now).outcome.Sent? {
      IssueTokensKeepsValid(env, s, FindOne(s.accounts, s.nextId, username, email, env.filterDropsUndefined).value, now);
    }
  }

  /** Logging out writes only the refresh token. */
  lemma LogoutKeepsKeys(env: Env, s: Store, id: Id)
    ensures KeysKept(s, Logout(env, s, id).store)
  {
  }

  lemma LogoutKeepsValid(env: Env, s: Store, id: Id)
    requires Valid(s)
    ensures Valid(Logout(env, s, id).store)
  {
    LogoutKeepsKeys(env, s, id);
    KeysKeptKeepValid(s, Logout(env, s, id).store);
  }

  lemma RefreshKeepsValid(env: Env, s: Store, cookie: Option<string>, body: Option<string>, now: nat)
    requires Valid(s)
    ensures Valid(Refresh(env, s, cookie, body, now).store)
  {
    if Refresh(env, s, cookie, body, now).outcome.Sent? {
      IssueTokensKeepsValid(env, s, RefreshSubject(env, cookie, body, now).value, now);
    }
  }

  /** Changing the password writes only the password digest. */
  lemma ChangePasswordKeepsKeys(env: Env, s: Store, id: Id, oldPassword: Option<string>, newPassword: Option<string>, salt: Salt)
    ensures KeysKept(s, ChangePassword(env, s, id, oldPassword, newPassword, salt).store)
  {
  }

  lemma ChangePasswordKeepsValid(env: Env, s: Store, id: Id, oldPassword: Option<string>, newPassword: Option<string>, salt: Salt)
    requires Valid(s)
    ensures Valid(ChangePassword(env, s, id, oldPassword, newPassword, salt).store)
  {
    ChangePasswordKeepsKeys(env, s, id, oldPassword, newPassword, salt);
    KeysKeptKeepValid(s, ChangePassword(env, s, id, oldPassword, newPassword, salt).store);
  }

  /**
   * An update of the details replaces one document by one with the same id and
   * username, the e-mail and fullname in setter form, and an e-mail the unique
   * index let through.
   */
  lemma UpdateDetailsReplacesOne(env: Env, s: Store, id: Id, fullname: Option<string>, email: Option<string>)
    requires UpdateDetails(env, s, id, fullname, email).outcome.Sent? && id in s.accounts
    ensures var s1 := UpdateDetails(env, s, id, fullname, email).store;
      && s1.nextId == s.nextId && id in s1.accounts && s1.accounts == s.accounts[id := s1.accounts[id]]
      && s1.accounts[id].id == s.accounts[id].id && s1.accounts[id].username == s.accounts[id].username
      && Normalized(s1.accounts[id].email) && Trimmed(s1.accounts[id].fullname)
      && forall j :: j in s.accounts && j != id ==> s.accounts[j].email != s1.accounts[id].email
  {
    NormalizeIdempotent(email.value);
  }

  lemma UpdateDetailsKeepsValid(env: Env, s: Store, id: Id, fullname: Option<string>, email: Option<string>)
    requires Valid(s)
    ensures Valid(UpdateDetails(env, s, id, fullname, email).store)
  {
    if UpdateDetails(env, s, id, fullname, email).outcome.Sent? && id in s.accounts {
      UpdateDetailsReplacesOne(env, s, id, fullname, email);
      ReplaceKeepsValid(s, UpdateDetails(env, s, id, fullname, email).store, id);
    }
  }

  // ---------------------------------------------------------------------------
  // Refresh tokens

  /** The refresh token stored on an account, while unexpired, refreshes the session. */
  lemma StoredTokenRefreshes(env: Env, s: Store, id: Id, issuedAt: nat, now: nat, body: Option<string>)
    requires SoundJwt(env.jwt) && env.cfg.accessSecret != "" && env.cfg.refreshSecret != ""
    requires id in s.accounts && s.accounts[id].id == id
    requires s.accounts[id].refreshToken == GenerateRefreshToken(env.jwt, env.cfg, s.accounts[id], issuedAt)
    requires now < issuedAt + env.cfg.refreshExpiry
    ensures var token := s.accounts[id].refreshToken.value;
            Refresh(env, s, Some(token), body, now).outcome.Sent?
  {
    var token := s.accounts[id].refreshToken.value;
    assert env.jwt.decode(token) == Some(Jwt(RefreshClaims(id), env.cfg.refreshSecret, issuedAt, issuedAt + env.cfg.refreshExpiry));
    assert RefreshSubject(env, Some(token), body, now) == Some(id);
  }

  /** A session opened by a login can be refreshed with the refresh token it handed out, until that expires. */
  lemma LoginThenRefresh(env: Env, s: Store, username: Option<string>, email: Option<string>, password: Option<string>,
                         now: nat, later: nat)
    requires SoundJwt(env.jwt) && Valid(s)
    requires Login(env, s, username, email, password, now).outcome.Sent?
    requires later < now + env.cfg.refreshExpiry
    ensures var r := Login(env, s, username, email, password, now);
            Refresh(env, r.store, Some(r.outcome.body.data.refreshToken), None, later).outcome.Sent?
  {
    var r := Login(env, s, username, email, password, now);
    var id := FindOne(s.accounts, s.nextId, username, email, env.filterDropsUndefined).value;
    var t := IssueTokens(env, s, id, now).value;
    assert r.store.accounts[id].id == id;
    StoredTokenRefreshes(env, r.store, id, now, later, None);
  }

  /**
   * A login that sends only a username builds the filter `{ $or: [{ username },
   * { email: undefined }] }`. When the query layer drops the `undefined` key,
   * the second clause is `{}` and matches every document, so the password is
   * checked against the account created first, whatever the username; when it
   * sends `null` instead, a username nobody has is answered with 404.
   */
  lemma LoginWithUsernameOnly(env: Env, s: Store, username: string, password: Option<string>, now: nat, first: Id)
    requires Bounded(s) && username != ""
    requires first in s.accounts && forall j :: j in s.accounts ==> first <= j
    ensures env.filterDropsUndefined ==>
      var r := Login(env, s, Some(username), None, password, now);
      && (password.Some? && !IsPassCorrect(env.bcrypt, s.accounts[first], password.value) ==>
            r.outcome == Throw(401, PasswordInvalid))
      && (r.outcome.Sent? ==>
            password.Some? && IsPassCorrect(env.bcrypt, s.accounts[first], password.value)
            && r.outcome.body.data.user == View(s.accounts[first]))
    ensures !env.filterDropsUndefined && (forall j :: j in s.accounts ==> s.accounts[j].username != Normalize(username)) ==>
      Login(env, s, Some(username), None, password, now).outcome == Throw(404, UserMissing)
  {
    if env.filterDropsUndefined {
      DroppedKeyMatchesAll(s.accounts, s.nextId, Some(username), first);
    } else if forall j :: j in s.accounts ==> s.accounts[j].username != Normalize(username) {
      assert forall j :: j in s.accounts ==> !MatchesEither(s.accounts[j], Some(username), None, false);
    }
  }

  /**
   * Rotation: once a refresh succeeds, the token it consumed no longer works
   * (as long as it was not issued in that very second, when the new token
   * would be the same string); the next attempt is refused with 401 and
   * changes nothing.
   */
  lemma RotationRevokesConsumedToken(env: Env, s: Store, token: string, now: nat, later: nat, body: Option<string>)
    requires SoundJwt(env.jwt)
    requires Refresh(env, s, Some(token), None, now).outcome.Sent?
    requires env.jwt.decode(token).Some? && env.jwt.decode(token).value.iat != now
    ensures var s1 := Refresh(env, s, Some(token), None, now).store;
            var r2 := Refresh(env, s1, Some(token), body, later);
            r2.outcome.Threw? && r2.store == s1 && HttpStatus(r2.outcome) == 401
  {
    var s1 := Refresh(env, s, Some(token), None, now).store;
    var id := RefreshSubject(env, Some(token), None, now).value;
    var t := IssueTokens(env, s, id, now).value;
    var rotated := t.refreshToken;
    assert env.jwt.decode(rotated).value.iat == now;
    assert s1.accounts[id].refreshToken == Some(rotated) && rotated != token;
    assert RefreshSubject(env, Some(token), body, later).Some? ==> RefreshSubject(env, Some(token), body, later) == Some(id);
  }

  /** Only the token stored on the account it names refreshes a session, so an account has at most one live refresh token. */
  lemma OnlyStoredTokenRefreshes(env: Env, s: Store, token: string, body: Option<string>, now: nat)
    requires token != ""
    requires Refresh(env, s, Some(token), body, now).outcome.Sent?
    ensures var id := RefreshSubject(env, Some(token), body, now).value;
            id in s.accounts && s.accounts[id].refreshToken == Some(token)
  {
  }

  /**
   * Logout revokes the refresh token when the store writes `null`: a refresh
   * naming that account is refused as expired/invalid. When the store strips
   * `undefined` from the update, logout changes nothing and every refresh
   * decides exactly as before it.
   */
  lemma LogoutRevokesRefresh(env: Env, s: Store, id: Id, cookie: Option<string>, body: Option<string>, now: nat)
    requires id in s.accounts
    ensures !env.stripsUndefined && RefreshSubject(env, cookie, body, now) == Some(id) ==>
      Refresh(env, Logout(env, s, id).store, cookie, body, now).outcome == Throw(401, RefreshTokenRejected)
    ensures env.stripsUndefined ==>
      Refresh(env, Logout(env, s, id).store, cookie, body, now) == Refresh(env, s, cookie, body, now)
  {
    if !env.stripsUndefined && RefreshSubject(env, cookie, body, now) == Some(id) {
      var s1 := Logout(env, s, id).store;
      assert s1.accounts[id].refreshToken.None?;
      assert IncomingRefreshToken(cookie, body).Some?;
    }
  }

  /**
   * The refresh reply sets the refresh-token cookie to the text "undefined", so
   * a client that keeps sending its cookies fails its next refresh with "jwt
   * malformed" (the text has no dots), whatever the body carries.
   */
  lemma RefreshCookieBreaksNextRefresh(env: Env, s: Store, body: Option<string>, now: nat, later: nat,
                                       cookie: Option<string>, prior: Option<string>)
    requires Refresh(env, s, cookie, prior, now).outcome.Sent?
    ensures Refresh(env, s, cookie, prior, now).outcome.cookies[1] == SetCookie("refreshToken", "undefined")
    ensures var s1 := Refresh(env, s, cookie, prior, now).store;
            Refresh(env, s1, Some("undefined"), body, later) == Step(Throw(401, JwtMessage(Malformed)), s1)
  {
    var s1 := Refresh(env, s, cookie, prior, now).store;
    assert IncomingRefreshToken(Some("undefined"), body) == Some("undefined");
    assert '.' !in "undefined";
  }

  // ---------------------------------------------------------------------------
  // Access tokens

  /**
   * Logout does not revoke access tokens: the gate decides every request after
   * a logout exactly as it did before.
   */
  lemma AccessSurvivesLogout(env: Env, s: Store, id: Id, now: nat, cookie: Option<string>, authorization: Option<string>)
    ensures VerifyJWT(Logout(env, s, id).store.accounts, env.jwt, env.cfg, now, cookie, authorization)
         == VerifyJWT(s.accounts, env.jwt, env.cfg, now, cookie, authorization)
  {
    var s1 := Logout(env, s, id).store;
    GateIgnoresSecrets(s1.accounts, s.accounts, env.jwt, env.cfg, now, cookie, authorization);
  }

  // ---------------------------------------------------------------------------
  // Passwords

  /**
   * After a password change the stored digest accepts the new password and no
   * other, and the refresh token is untouched. The exception: a new password
   * equal to the stored digest is not re-hashed, so the digest, and with it the
   * old password, stays.
   */
  lemma ChangePasswordEffect(env: Env, s: Store, id: Id, oldPassword: Option<string>, newPassword: Option<string>, salt: Salt)
    requires IdealBcrypt(env.bcrypt)
    requires ChangePassword(env, s, id, oldPassword, newPassword, salt).outcome.Sent?
    ensures var a := s.accounts[id];
            var a1 := ChangePassword(env, s, id, oldPassword, newPassword, salt).store.accounts[id];
      && a1.refreshToken == a.refreshToken && View(a1) == View(a)
      && (newPassword.value != a.password ==> forall q :: IsPassCorrect(env.bcrypt, a1, q) <==> q == newPassword.value)
      && (newPassword.value == a.password ==> a1 == a)
  {
    var a := s.accounts[id];
    var a1 := ChangePassword(env, s, id, oldPassword, newPassword, salt).store.accounts[id];
    if newPassword.value != a.password {
      assert a1.password == env.bcrypt.hash(newPassword.value, salt);
      forall q ensures IsPassCorrect(env.bcrypt, a1, q) <==> q == newPassword.value {
        IsPassCorrectExactly(env.bcrypt, a1, newPassword.value, salt, q);
      }
    }
  }
}
