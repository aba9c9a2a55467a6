/**
 * The `User` document: its schema (setters, required and unique paths), the
 * store queries the handlers use, the pre-save hook that hashes the password,
 * and the document methods `isPassCorrect`, `generateAccessToken` and
 * `generateRefreshToken`.
 */
module UserModel {
  import opened Wrappers
  import opened JsString
  import opened Libraries
  import opened Outcomes

  /** A stored user document (`watchHistory` and the timestamps are not modelled). */
  datatype Account = Account(
    id: Id,
    username: string,
    email: string,
    fullname: string,
    avatar: string,
    coverImage: Option<string>,
    password: string,             // a bcrypt digest once saved
    refreshToken: Option<string>)

  /** The document as `select("-password -refreshToken")` returns it. */
  datatype AccountView = AccountView(
    id: Id, username: string, email: string, fullname: string, avatar: string, coverImage: Option<string>)

  /** The document as `select("-password")` returns it: the refresh token is still there. */
  datatype DetailsView = DetailsView(view: AccountView, refreshToken: Option<string>)

  function View(a: Account): AccountView {
    AccountView(a.id, a.username, a.email, a.fullname, a.avatar, a.coverImage)
  }

  /** The `lowercase: true, trim: true` setters of `username` and `email`. */
  function Normalize(s: string): (r: string)
    ensures r == [] <==> Trim(s) == []
  {
    ToLowerCase(Trim(s))
  }

  /**
   * A normalised value is trimmed and has no upper-case letter, so normalising
   * it again changes nothing.
   */
  lemma NormalizeIdempotent(s: string)
    ensures var r := Normalize(s);
      && Normalize(r) == r
      && Normalized(r)
  {
    var t := Trim(s);
    var r := ToLowerCase(t);
    calc {
      Normalize(r);
      ToLowerCase(Trim(ToLowerCase(t)));
      { TrimLower(t); }
      ToLowerCase(ToLowerCase(Trim(t)));
      { TrimIdempotent(s); }
      ToLowerCase(ToLowerCase(t));
      { LowerIdempotent(t); }
      r;
    }
    LowerKeepsEnds(t);
  }

  /** Lower-casing a trimmed string leaves it trimmed and free of upper-case letters. */
  lemma LowerKeepsEnds(t: string)
    requires Trimmed(t)
    ensures Normalized(ToLowerCase(t))
  {
    var r := ToLowerCase(t);
    LowerPointwise(t);
    forall k | 0 <= k < |r| ensures !IsAsciiUpper(r[k]) {
      assert r[k] == LowerChar(t[k]);
    }
  }

  /** Trimmed and free of upper-case letters: what the `lowercase` and `trim` setters produce. */
  predicate Normalized(s: string) {
    Trimmed(s) && forall k :: 0 <= k < |s| ==> !IsAsciiUpper(s[k])
  }

  /** The normalised strings are exactly the fixed points of the setters. */
  lemma NormalizedIsFixedPoint(s: string)
    ensures Normalized(s) <==> Normalize(s) == s
  {
    if Normalized(s) {
      TrimUnchanged(s);
      LowerFixedPoint(s);
    }
    if Normalize(s) == s {
      NormalizeIdempotent(s);
    }
  }

  /** What the setters guarantee of every stored document. */
  predicate InStoredForm(a: Account) {
    Normalized(a.username) && Normalized(a.email) && Trimmed(a.fullname)
  }

  /** A document is in stored form exactly when running the setters on it again changes nothing. */
  lemma StoredFormIsFixedPoint(a: Account)
    ensures InStoredForm(a) <==>
      Normalize(a.username) == a.username && Normalize(a.email) == a.email && Trim(a.fullname) == a.fullname
  {
    NormalizedIsFixedPoint(a.username);
    NormalizedIsFixedPoint(a.email);
    TrimmedIsFixedPoint(a.fullname);
  }

  /** The `unique: true` indexes on `username` and `email`. */
  ghost predicate UniqueKeys(accounts: map<Id, Account>) {
    forall i, j :: i in accounts && j in accounts && i != j ==>
      accounts[i].username != accounts[j].username && accounts[i].email != accounts[j].email
  }

  /**
   * One clause `{ path: value }` of a filter, after the setters have cast its
   * value. An `undefined` value is either sent as `null`, which matches no
   * document because the path is required, or dropped by the query layer,
   * which leaves `{}`, and that matches every document.
   */
  predicate ClauseMatches(stored: string, value: Option<string>, dropsUndefined: bool) {
    match value
    case None => dropsUndefined
    case Some(v) => stored == Normalize(v)
  }

  /** The filter `{ $or: [{ username }, { email }] }`. */
  predicate MatchesEither(a: Account, username: Option<string>, email: Option<string>, dropsUndefined: bool) {
    ClauseMatches(a.username, username, dropsUndefined) || ClauseMatches(a.email, email, dropsUndefined)
  }

  /** `findOne` over the ids in `[from, bound)`: the matching document created first. */
  function FindOneFrom(accounts: map<Id, Account>, bound: nat, username: Option<string>, email: Option<string>,
                       dropsUndefined: bool, from: nat)
    : (r: Option<Id>)
    ensures r.Some? ==> from <= r.value < bound && r.value in accounts
    ensures r.Some? ==> MatchesEither(accounts[r.value], username, email, dropsUndefined)
    ensures r.Some? ==>
      forall j :: from <= j < r.value && j in accounts ==> !MatchesEither(accounts[j], username, email, dropsUndefined)
    ensures r.None? ==>
      forall j :: from <= j < bound && j in accounts ==> !MatchesEither(accounts[j], username, email, dropsUndefined)
    decreases bound - from
  {
    if bound <= from then None
    else if from in accounts && MatchesEither(accounts[from], username, email, dropsUndefined) then Some(from)
    else FindOneFrom(accounts, bound, username, email, dropsUndefined, from + 1)
  }

  /**
   * `User.findOne({ $or: [{ username }, { email }] })` over a store whose ids are
   * all below `bound`. The store does not say which of several matches it
   * returns; the model returns the one created first.
   */
  function FindOne(accounts: map<Id, Account>, bound: nat, username: Option<string>, email: Option<string>,
                   dropsUndefined: bool): (r: Option<Id>)
    requires forall id :: id in accounts ==> id < bound
    ensures r.Some? ==> r.value in accounts && MatchesEither(accounts[r.value], username, email, dropsUndefined)
    ensures r.Some? ==>
      forall j :: j in accounts && j < r.value ==> !MatchesEither(accounts[j], username, email, dropsUndefined)
    ensures r.None? <==> forall j :: j in accounts ==> !MatchesEither(accounts[j], username, email, dropsUndefined)
  {
    FindOneFrom(accounts, bound, username, email, dropsUndefined, 0)
  }

  /**
   * With both keys sent, how the query layer treats `undefined` makes no
   * difference: registration looks for the same document either way.
   */
  lemma {:induction false} FindOneFromBothKeys(accounts: map<Id, Account>, bound: nat, username: string, email: string,
                                                 from: nat)
    ensures FindOneFrom(accounts, bound, Some(username), Some(email), true, from)
         == FindOneFrom(accounts, bound, Some(username), Some(email), false, from)
    decreases bound - from
  {
    if bound > from {
      FindOneFromBothKeys(accounts, bound, username, email, from + 1);
    }
  }

  /** An absent key that the query layer drops makes every document match. */
  lemma DroppedKeyMatchesAll(accounts: map<Id, Account>, bound: nat, username: Option<string>, first: Id)
    requires forall id :: id in accounts ==> id < bound
    requires first in accounts && forall j :: j in accounts ==> first <= j
    ensures FindOne(accounts, bound, username, None, true) == Some(first)
  {
    assert MatchesEither(accounts[first], username, None, true);
  }

  /**
   * The `pre("save")` hook: `password` is re-hashed only when the value being
   * saved differs from the stored one (`isModified("password")`); `stored` is
   * None for a new document.
   */
  function PreSave(b: Bcrypt, stored: Option<string>, incoming: string, salt: Salt): (p: string)
    ensures stored == Some(incoming) ==> p == incoming
    ensures IdealBcrypt(b) && stored != Some(incoming) ==> b.compare(incoming, p) && p != incoming
  {
    if stored == Some(incoming) then incoming else b.hash(incoming, salt)
  }

  /** A save that does not touch the password (a refresh-token update) leaves the digest as it was. */
  lemma PreSaveKeepsDigest(b: Bcrypt, a: Account, token: Option<string>, salt: Salt)
    ensures var saved := a.(refreshToken := token);
            saved.(password := PreSave(b, Some(a.password), saved.password, salt)) == saved
  {
  }

  /** `isPassCorrect(password)`: `bcrypt.compare(password, this.password)`. */
  function IsPassCorrect(b: Bcrypt, a: Account, password: string): bool {
    b.compare(password, a.password)
  }

  /** Against a digest made from `p`, `isPassCorrect` accepts `p` and nothing else. */
  lemma IsPassCorrectExactly(b: Bcrypt, a: Account, p: string, salt: Salt, q: string)
    requires IdealBcrypt(b)
    requires a.password == b.hash(p, salt)
    ensures IsPassCorrect(b, a, q) <==> q == p
  {
    CompareExactly(b, p, q, salt);
  }

  /** The secrets and expiries (seconds) read from the environment at start-up. */
  datatype TokenConfig = TokenConfig(accessSecret: string, accessExpiry: nat, refreshSecret: string, refreshExpiry: nat)

  /**
   * `generateAccessToken()`: claims `{_id, email, username, fullname}`, signed
   * with the access secret, expiring `accessExpiry` seconds after `now`.
   */
  function GenerateAccessToken(lib: JwtLib, cfg: TokenConfig, a: Account, now: nat): (r: Option<string>)
    ensures r.None? <==> cfg.accessSecret == ""
    ensures SoundJwt(lib) && r.Some? ==>
      lib.decode(r.value) == Some(Jwt(AccessClaims(a.id, a.email, a.username, a.fullname),
                                      cfg.accessSecret, now, now + cfg.accessExpiry))
  {
    Sign(lib, AccessClaims(a.id, a.email, a.username, a.fullname), cfg.accessSecret, cfg.accessExpiry, now)
  }

  /**
   * `generateRefreshToken()`: claims `{_id}` only, signed with the refresh
   * secret, expiring `refreshExpiry` seconds after `now`.
   */
  function GenerateRefreshToken(lib: JwtLib, cfg: TokenConfig, a: Account, now: nat): (r: Option<string>)
    ensures r.None? <==> cfg.refreshSecret == ""
    ensures SoundJwt(lib) && r.Some? ==>
      lib.decode(r.value) == Some(Jwt(RefreshClaims(a.id), cfg.refreshSecret, now, now + cfg.refreshExpiry))
  {
    Sign(lib, RefreshClaims(a.id), cfg.refreshSecret, cfg.refreshExpiry, now)
  }

  /** A refresh token issued at a different second is a different string. */
  lemma RefreshTokensDifferByIssueTime(lib: JwtLib, cfg: TokenConfig, a: Account, b: Account, t1: nat, t2: nat)
    requires SoundJwt(lib) && cfg.refreshSecret != ""
    requires t1 != t2
    ensures GenerateRefreshToken(lib, cfg, a, t1) != GenerateRefreshToken(lib, cfg, b, t2)
  {
    var r1 := GenerateRefreshToken(lib, cfg, a, t1).value;
    var r2 := GenerateRefreshToken(lib, cfg, b, t2).value;
    assert lib.decode(r1).value.iat == t1;
    assert lib.decode(r2).value.iat == t2;
  }

  /** The fields handed to `User.create`; the schema has no `coverImg` path, so the cover URL is dropped. */
  datatype NewUser = NewUser(fullname: Option<string>, avatar: string, email: string, password: string, username: string)

  /** Every `required` path of the schema gets a non-empty value once the setters ran. */
  predicate Complete(u: NewUser) {
    && Normalize(u.username) != [] && Normalize(u.email) != [] && u.fullname.Some? && Trim(u.fullname.value) != []
    && u.avatar != [] && u.password != []
  }

  /** Whether the `required` path `path` gets a missing or empty value once the setters ran. */
  predicate PathEmpty(u: NewUser, path: string) {
    match path
    case "username" => Normalize(u.username) == []
    case "email" => Normalize(u.email) == []
    case "fullname" => u.fullname.None? || Trim(u.fullname.value) == []
    case "avatar" => u.avatar == []
    case "password" => u.password == []
    case _ => false
  }

  /** The first `required` path, in schema order, whose value is missing or empty. */
  function RequiredViolation(u: NewUser): (r: Option<string>)
    ensures r.None? <==> Complete(u)
    ensures r.Some? ==> r.value in ["username", "email", "fullname", "avatar", "password"] && PathEmpty(u, r.value)
  {
    if Normalize(u.username) == [] then Some("username")
    else if Normalize(u.email) == [] then Some("email")
    else if u.fullname.None? || Trim(u.fullname.value) == [] then Some("fullname")
    else if u.avatar == [] then Some("avatar")
    else if u.password == [] then Some("password")
    else None
  }

  /**
   * `User.create(fields)`: the setters normalise username and email and trim
   * fullname, the `required` rules refuse an empty or missing value, and the
   * pre-save hook replaces the plaintext password by its digest.
   */
  function CreateDocument(b: Bcrypt, id: Id, u: NewUser, salt: Salt): (r: Result<Account, Fault>)
    ensures r.Ok? <==> Complete(u)
    ensures r.Err? ==> r.error == SchemaViolation(RequiredViolation(u).value)
    ensures r.Ok? ==> var a := r.value;
      && a.id == id && InStoredForm(a)
      && a.username == Normalize(u.username) && a.email == Normalize(u.email)
      && a.fullname == Trim(u.fullname.value) && a.avatar == u.avatar
      && a.coverImage.None? && a.refreshToken.None?
      && a.password == b.hash(u.password, salt)
  {
    match RequiredViolation(u)
    case Some(path) => Err(SchemaViolation(path))
    case None =>
      var a := Account(id, Normalize(u.username), Normalize(u.email), Trim(u.fullname.value), u.avatar, None,
                       PreSave(b, None, u.password, salt), None);
      NormalizedIsStored(a, u.username, u.email, u.fullname.value);
      Ok(a)
  }

  /** An account whose keys went through the setters is in stored form. */
  lemma NormalizedIsStored(a: Account, username: string, email: string, fullname: string)
    requires a.username == Normalize(username) && a.email == Normalize(email) && a.fullname == Trim(fullname)
    ensures InStoredForm(a)
  {
    NormalizeIdempotent(username);
    NormalizeIdempotent(email);
  }
}
