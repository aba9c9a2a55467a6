# Video_viewer accounts and sessions, modelled in Dafny

This project models the account and session life cycle of the Video_viewer
back end, an Express and Mongoose service. It covers:

- **Registration.** The password policy, the ordered chain of 400 checks, the
  conflict check on username or e-mail, the avatar and cover uploads, and
  `User.create`.
- **Login.** Both tokens are issued and the refresh token is saved on the account.
- **Logout.** The stored refresh token is unset when the store writes `null`
  for `undefined`; a store that strips `undefined` keeps the token, and logout
  then revokes nothing.
- **Refresh.** A token is accepted only if it is exactly the stored one; then the
  pair is rotated.
- **Password change and update of account details.**
- **The `User` schema.** The setters, the `required` and `unique` paths, the
  pre-save hook that hashes the password, and the two token kinds.
- **The `verifyJWT` gate.** It admits a request or answers 401.
- **The two envelopes.** `ApiResponse` and `ApiError`.

Module layout (one file each):

| module | models |
|---|---|
| `Wrappers` | `Option` and `Result` |
| `JsString` | `trim`, `toLowerCase`, `String.prototype.replace` with a string pattern, and UTF-16 `length` |
| `ApiResponses`, `ApiErrors` | the two envelope classes |
| `Outcomes` | what a request ends with: a sent reply with its cookie operations, or a thrown `ApiError` or runtime fault, which the error handler turns into a status |
| `Libraries` | bcrypt and jsonwebtoken as records of functions, each with a soundness predicate |
| `UserValidation` | `isValidPassword` and the registration checks |
| `UserModel` | the `User` document, its schema rules, `findOne`, the pre-save hook, `isPassCorrect`, `generateAccessToken` and `generateRefreshToken` |
| `AuthMiddleware` | `verifyJWT` |
| `Sessions` | every handler as a function from the store and the request to the outcome and the new store |
| `SessionLifecycle` | the properties that span several requests: the store invariants every handler keeps, refresh-token rotation, revocation at logout, and access tokens surviving logout |
| `UserController` | the class `Directory`, whose methods perform the same handlers in place on a map of documents. Each method is proved equal to its `Sessions` function. Each also keeps the store invariants and the link between every stored digest and the plaintext it was made from. |

Inputs the handlers receive from outside become parameters of type `Env`:

- bcrypt's `hash` and `compare`;
- jsonwebtoken's `sign` and `decode`;
- the secrets and expiries;
- the Cloudinary upload, as a function from a local path to an optional URL;
- whether the store drops a `$set` of `undefined` or writes `null` instead;
- whether the query layer drops a filter key whose value is `undefined`
  (leaving `{}`, which matches every document) or sends `null` instead.

The clock (`now`, in seconds) and the bcrypt salt are explicit arguments.

The following behaviours of the code are modelled as written, not corrected:

- **A field that was not sent.** Registration checks a field with
  `field?.trim() === ""`, so it does not reject a missing field. A missing
  email, username or password throws a TypeError later, which becomes a 500,
  not a 400.
- **Registration without a cover image.** It reads `coverImg.url` on `null` and
  throws after the uploads. Even with a cover, the URL is passed under
  `coverImg`, which the schema (`coverImage`) ignores, so the stored document
  never has a cover image.
- **The "Avatar is required" check is unreachable.** A failed upload does not
  return `null`: the upload helper's `catch` calls `fs.unlinkSync` on the error
  object and throws.
- **Registration status.** The reply is HTTP 201 with an envelope whose
  `statusCode` is 200.
- **The refresh reply.** It destructures `newRefreshToken` from an object that
  has no such key. The refresh-token cookie is set to the text "undefined" and
  the body has no refresh token. The store still holds the rotated token, so a
  client that keeps sending its cookies fails its next refresh with "jwt
  malformed". Every failure inside the refresh handler, including the 500 from
  token generation, is re-raised as a 401.
- **Password change.**
  - A wrong old password gives 400, not 401.
  - If the new password equals the stored digest, the pre-save hook does not
    re-hash it.
  - A missing old or new password makes bcrypt throw.
- **Update of account details.** It goes through the setters but not the
  validators. Its reply carries the refresh token, since only the password is
  deselected. If no account is found it replies 200 with `null`.
- **The gate's header rewrite.** It removes the first "Bearer " wherever it
  occurs, not only at the front.
- **Logout.** When the store writes `null` for `undefined`, it unsets the
  refresh token, which revokes it for refresh but not the access tokens: the
  gate never reads the stored refresh token. A store that strips `undefined`
  from updates (Mongoose 6 and later) keeps the token, and logout then revokes
  nothing.

## Model

| member | source | states |
|---|---|---|
| JsString.TrimStart | src/controllers/user.controller.js:86 | the result is no longer than the input and does not start with white space |
| JsString.TrimStartSuffix | src/controllers/user.controller.js:86 | `trimStart` keeps a suffix and drops only white space |
| JsString.TrimEnd | src/controllers/user.controller.js:86 | the result is no longer than the input and does not end with white space |
| JsString.TrimEndPrefix | src/controllers/user.controller.js:86 | `trimEnd` keeps a prefix and drops only white space |
| JsString.Trim | src/controllers/user.controller.js:86 | `trim` yields a string with no white space at either end, no longer than the input |
| JsString.TrimEmpty | src/controllers/user.controller.js:86 | `field.trim() === ""` holds exactly when the field is all white space |
| JsString.TrimIdempotent | src/models/user.models.js:12 | trimming twice is trimming once |
| JsString.TrimUnchanged | src/models/user.models.js:24 | a value without white space at either end is stored as sent |
| JsString.TrimmedIsFixedPoint | src/models/user.models.js:24 | the values `trim` leaves alone are exactly those without white space at either end |
| JsString.LowerChar | src/controllers/user.controller.js:95 | ASCII capitals map to the small letter 32 code points up; every other character is kept |
| JsString.ToLowerCase | src/controllers/user.controller.js:95 | `toLowerCase` keeps the length |
| JsString.LowerPointwise | src/controllers/user.controller.js:95 | each character is lowered on its own |
| JsString.LowerFixedPoint | src/controllers/user.controller.js:95 | `username === username.toLowerCase()` holds exactly when the username has no upper-case letter |
| JsString.LowerIdempotent | src/models/user.models.js:11 | lowering twice is lowering once |
| JsString.TrimStartLower | src/models/user.models.js:11-12 | lower-casing commutes with `trimStart` |
| JsString.TrimEndLower | src/models/user.models.js:11-12 | lower-casing commutes with `trimEnd` |
| JsString.TrimLower | src/models/user.models.js:11-12 | the `lowercase` and `trim` setters commute |
| JsString.Utf16Length | src/controllers/user.controller.js:46 | `length` counts between one and two units per character, and equals the character count exactly when no character is above U+FFFF |
| JsString.IndexOfFrom | src/middlewares/auth.middleware.js:12 | gives the first occurrence of the pattern at or after the start, or none exists |
| JsString.ReplaceFirst | src/middlewares/auth.middleware.js:12 | without an occurrence the string is unchanged; with one at the front, the pattern is replaced there |
| JsString.ReplaceFirstAt | src/middlewares/auth.middleware.js:12 | for every string whose first occurrence of the pattern is at `i`, the result is the text before `i`, the replacement, and the text after the occurrence |
| JsString.CountChar | src/middlewares/auth.middleware.js:18 | the number of occurrences of a character is at most the length, and zero exactly when the character does not occur (the dot count decides the three-part check) |
| Libraries.JwtMessage | src/middlewares/auth.middleware.js:31-33 | every verification error, including "jwt malformed" and "invalid token", has a non-empty message, so the `\|\|` fallback is never used |
| Libraries.Sign | src/models/user.models.js:60-84 | signing fails exactly when the secret is empty; a sound library decodes the token to its claims, secret, `iat` and `exp = iat + expiresIn` |
| Libraries.Verify | src/middlewares/auth.middleware.js:18 | verification succeeds only for a token of three dot-separated parts that decodes, was signed with this non-empty secret and is unexpired at `now`, and returns its claims; a token not in three parts is "jwt malformed", three parts that do not decode are "invalid token" |
| Libraries.VerifyIssued | src/middlewares/auth.middleware.js:18 | a token signed with a non-empty secret verifies under that secret exactly until its expiry |
| Libraries.VerifyOtherSecret | src/controllers/user.controller.js:263-266 | a token signed with one secret fails with "invalid signature" under another |
| Libraries.SignInjective | src/models/user.models.js:60-84 | equal tokens carry equal claims, secret, issue time and expiry |
| Libraries.CompareExactly | src/models/user.models.js:57-59 | under an ideal bcrypt (no 72-byte truncation), `compare` accepts exactly the plaintext the digest was made from |
| ApiResponses.NewApiResponse | src/utils/ApiResponse.js:3-10 | status code and data are stored unchanged, `success` holds iff the status is below 400, and the message defaults to "Success" |
| ApiErrors.NewApiError | src/utils/ApiError.js:3-22 | the status is stored unchanged, `data` is null, `success` is false, and message and error list take their defaults when omitted |
| ApiErrors.Raise | src/utils/ApiError.js:3-22 | the two-argument form keeps status and message, with an empty error list and `success` false |
| Outcomes.HttpStatus | src/utils/asyncHandler.js:3-7 | a sent reply has its own status, a thrown `ApiError` its status code, and any other exception 500 |
| Outcomes.Throw | src/utils/ApiError.js:3-22 | `new ApiError(status, message)` is an error object carrying that status and message with `success` false; `HttpStatus` reports that status for it |
| UserValidation.HasLetter | src/controllers/user.controller.js:44 | `/[a-zA-Z]/` matches exactly when some character is an ASCII letter |
| UserValidation.HasDigit | src/controllers/user.controller.js:45 | `/\d/` matches exactly when some character is a decimal digit |
| UserValidation.IsValidPassword | src/controllers/user.controller.js:43-48 | a password is valid iff it has at least 5 UTF-16 code units, an ASCII letter and a decimal digit |
| UserValidation.PasswordPolicyBoundaries | src/controllers/user.controller.js:43-48 | "ab1" and "abcde" are refused and "abcd1" is accepted |
| UserValidation.PasswordLengthInCodeUnits | src/controllers/user.controller.js:46 | a code point above U+FFFF counts twice towards the minimum length |
| UserValidation.CheckRegistration | src/controllers/user.controller.js:85-110 | acceptance implies email, username and password were sent; a throw is a TypeError; a refusal carries one of the five messages |
| UserValidation.CheckAfterBlank | src/controllers/user.controller.js:91-110 | the same guarantees for checks 2 to 5, whose messages exclude "All fields are required." |
| UserValidation.RegistrationVerdicts | src/controllers/user.controller.js:85-110 | "All fields are required." iff a sent field is blank; acceptance iff every rule holds; a throw only past the blank check |
| UserValidation.UppercaseUsernameRejected | src/controllers/user.controller.js:95-97 | once the first two checks pass, any upper-case letter in the username gives "lowercase characters only" |
| UserValidation.SolidField | src/controllers/user.controller.js:85-103 | a non-empty field without white space passes both the blank and the inner-space checks |
| UserValidation.FilledField | src/controllers/user.controller.js:86 | a field with non-space characters at both ends is not blank |
| UserValidation.FirstFailureWins | src/controllers/user.controller.js:91-97 | for example, a form that fails both the '@' check and the lowercase check is refused by the earlier one |
| UserValidation.LowercaseBeforePasswordStrength | src/controllers/user.controller.js:95-110 | for example, a form with an upper-case username and a weak password is refused by the lowercase check |
| UserValidation.RegistrationRejections | src/controllers/user.controller.js:85-110 | for every form: refused with the '@' message, the lowercase message, the spaces message or the weak-password message exactly when every earlier check passed and this check fails |
| UserValidation.SomeFormAccepted | src/controllers/user.controller.js:85-110 | the chain accepts some form |
| UserValidation.AbsentFullnameUnchecked | src/controllers/user.controller.js:85-110 | an absent fullname is treated like a filled one |
| UserValidation.AbsentEmailCrashes | src/controllers/user.controller.js:91 | an absent email throws a TypeError instead of answering 400 |
| UserValidation.AbsentPasswordCrashes | src/controllers/user.controller.js:105-110 | an absent password that reaches the policy check throws a TypeError |
| UserModel.Normalize | src/models/user.models.js:11-12 | the `lowercase`/`trim` setters give the empty string exactly when the value is all white space |
| UserModel.NormalizeIdempotent | src/models/user.models.js:11-12 | a normalised value is trimmed, has no upper-case letter, and normalising it again changes nothing |
| UserModel.LowerKeepsEnds | src/models/user.models.js:11-12 | lower-casing a trimmed value gives a normalised one |
| UserModel.NormalizedIsFixedPoint | src/models/user.models.js:11-12 | the normalised values are exactly the fixed points of the setters |
| UserModel.StoredFormIsFixedPoint | src/models/user.models.js:6-26 | a document is in stored form exactly when re-running the setters on username, email and fullname changes nothing |
| UserModel.FindOneFrom | src/controllers/user.controller.js:112-114 | the scan returns the first id in range whose document matches either key, or reports that none matches |
| UserModel.FindOne | src/controllers/user.controller.js:181 | `findOne({$or: [{username}, {email}]})` finds a document exactly when some stored document matches either clause, and returns the one created first; an absent key matches nothing, or everything when the query layer drops `undefined` keys |
| UserModel.FindOneFromBothKeys | src/controllers/user.controller.js:112-114 | with both keys sent, the lookup is the same whether or not the query layer drops `undefined` keys |
| UserModel.DroppedKeyMatchesAll | src/controllers/user.controller.js:181 | when an absent e-mail key is dropped from the filter, `findOne` returns the first stored document whatever the username |
| UserModel.PreSave | src/models/user.models.js:50-56 | an unmodified password is kept; a modified one is replaced by a digest, different from the plaintext, that `compare` accepts for it |
| UserModel.PreSaveKeepsDigest | src/models/user.models.js:52 | saving a refresh-token change never alters the stored digest |
| UserModel.IsPassCorrectExactly | src/models/user.models.js:57-59 | under an ideal bcrypt (no 72-byte truncation), `isPassCorrect(q)` holds exactly when `q` is the plaintext whose digest is stored |
| UserModel.GenerateAccessToken | src/models/user.models.js:60-73 | the token carries exactly `_id`, email, username and fullname, under the access secret and expiry; it fails iff the access secret is empty |
| UserModel.GenerateRefreshToken | src/models/user.models.js:74-84 | the token carries only `_id`, under the refresh secret and expiry; it fails iff the refresh secret is empty |
| UserModel.RefreshTokensDifferByIssueTime | src/models/user.models.js:74-84 | refresh tokens issued in different seconds are different strings |
| UserModel.RequiredViolation | src/models/user.models.js:6-44 | no violation iff username, email, fullname, avatar and password are all present and non-empty after the setters; otherwise it names one of the five required paths, and that path's value is missing or empty |
| UserModel.CreateDocument | src/models/user.models.js:5-56 | creation succeeds iff no required path is missing; the document is in stored form, has the password's digest, no refresh token and no cover image |
| UserModel.NormalizedIsStored | src/models/user.models.js:6-26 | a document whose keys went through the setters is in stored form |
| AuthMiddleware.ExtractToken | src/middlewares/auth.middleware.js:12-15 | a truthy cookie wins; with neither cookie nor header there is no token; an extracted token is never empty |
| AuthMiddleware.BearerHeaderStripped | src/middlewares/auth.middleware.js:12 | `Authorization: Bearer <t>` yields `t` |
| AuthMiddleware.BareHeaderKept | src/middlewares/auth.middleware.js:12 | a header without "Bearer " passes through unchanged |
| AuthMiddleware.BearerRemovedAnywhere | src/middlewares/auth.middleware.js:12 | for every header, "Bearer " is removed where it first occurs, even mid-string, and an empty remainder means no token |
| AuthMiddleware.BearerRemovedMidHeader | src/middlewares/auth.middleware.js:12 | for example, the header "xBearer abc" yields the token "xabc" |
| AuthMiddleware.VerifyJWT | src/middlewares/auth.middleware.js:8-35 | admits iff a token is present, verifies under the access secret and names a stored account, and then hands on that account without password or refresh token; every rejection is a 401 with a message |
| AuthMiddleware.FreshAccessTokenAdmitted | src/middlewares/auth.middleware.js:18-29 | an unexpired access token of a stored account, sent as a cookie, admits that account's public view |
| AuthMiddleware.ExpiredAccessTokenRejected | src/middlewares/auth.middleware.js:18-33 | an expired access token gets 401 "jwt expired" |
| AuthMiddleware.RefreshTokenRejectedAtGate | src/middlewares/auth.middleware.js:18-33 | a refresh token presented at the gate is refused with 401 "invalid signature" when the two secrets differ |
| AuthMiddleware.UnknownAccountRejected | src/middlewares/auth.middleware.js:21-26 | a valid token naming no stored account gets 401 "Invalid AccessToken" |
| AuthMiddleware.GateIgnoresSecrets | src/middlewares/auth.middleware.js:21 | the gate's decision depends only on the public view of the documents |
| Sessions.Ok200 | src/controllers/user.controller.js:213-223 | a 200 reply with the given cookies carries a successful 200 envelope with that data and message |
| Sessions.IssueTokens | src/controllers/user.controller.js:50-69 | succeeds iff the document exists and both secrets are set; the account then holds the new refresh token and nothing else changes; any failure is the 500 "Tokens not generated" |
| Sessions.IssuedTokenIsTheStoredOne | src/controllers/user.controller.js:55-63 | after issuing, the account holds exactly the refresh token just signed, which verifies to its id until expiry; the access token verifies exactly until its own expiry; other accounts are untouched |
| Sessions.Upload | src/utils/cloudinary.js:11-26 | a falsy path gives null; otherwise the upload's URL, and a failed upload throws |
| Sessions.ResolveUploads | src/controllers/user.controller.js:119-145 | the file stage gives the avatar URL only when both files were uploaded; every other exit is a throw and never "Avatar is required" |
| Sessions.RegisterChecks | src/controllers/user.controller.js:85-117 | lets a registration through iff the checks accept it and no document holds its username or email; a refusal is 400 with the check's message; a conflict is 409 |
| Sessions.Persist | src/controllers/user.controller.js:142-162 | `User.create` adds exactly one document under the next id, or fails and leaves the store as it was; success is HTTP 201 with envelope status 200 and the new document's view |
| Sessions.Register | src/controllers/user.controller.js:71-163 | a thrown registration leaves the store unchanged; checks, uploads and creation decide in this order, and once the checks and uploads pass the result is exactly that of `User.create`; every reply keeps the envelope rules |
| Sessions.RegisteredAccount | src/controllers/user.controller.js:142-154 | the new document has normalised keys and the digest of the submitted password; it has no refresh token and no cover image; under an ideal bcrypt (no 72-byte truncation) it accepts exactly that password |
| Sessions.RegisterWithoutCoverCrashes | src/controllers/user.controller.js:136-145 | a valid registration without a cover image throws a TypeError and creates nothing |
| Sessions.AvatarCheckUnreachable | src/controllers/user.controller.js:138-140 | no registration is ever answered "Avatar is required" |
| Sessions.Login | src/controllers/user.controller.js:165-224 | 400 without username and email, 404 without a match, 401 for a wrong password, a throw without a password, each leaving the store unchanged; on success, both tokens in cookies and body, and the store is that of `IssueTokens` |
| Sessions.Logout | src/controllers/user.controller.js:226-251 | always 200 and both cookies cleared; the refresh token becomes absent if the store writes null, and nothing changes if it strips `undefined` |
| Sessions.Refresh | src/controllers/user.controller.js:253-299 | every failure is a 401 that leaves the store unchanged: no token, failed verification, unknown id, or not the stored token; on success the pair is rotated as by `IssueTokens`, and the reply sets the refresh cookie to "undefined" |
| Sessions.ChangePassword | src/controllers/user.controller.js:301-313 | a wrong old password gives 400 and a missing one a throw, with the store unchanged; a correct old password with a new one present always succeeds, and a missing new one throws; on success only the account's password changes, through the pre-save hook |
| Sessions.UpdateDetails | src/controllers/user.controller.js:321-340 | 400 unless both fields are truthy; an e-mail held by another account is refused by the unique index; truthy fields for an existing account with a free e-mail always succeed; on success only fullname (trimmed) and e-mail (normalised) change |
| SessionLifecycle.KeysKeptKeepValid | src/models/user.models.js:6-26 | a change that keeps every id, username, email and fullname keeps the store invariants |
| SessionLifecycle.InsertKeepsValid | src/models/user.models.js:10-17 | adding one document in stored form, with keys no other document holds, under the next id keeps the store invariants |
| SessionLifecycle.ReplaceKeepsValid | src/models/user.models.js:17 | replacing one document's e-mail and fullname with values in stored form, and an e-mail no other document holds, keeps the store invariants |
| SessionLifecycle.IssueTokensKeepsKeys | src/controllers/user.controller.js:59-63 | issuing tokens changes no key of any document |
| SessionLifecycle.IssueTokensKeepsValid | src/controllers/user.controller.js:50-69 | issuing tokens keeps the store invariants |
| SessionLifecycle.RegisterAddsOne | src/controllers/user.controller.js:112-149 | a successful registration adds one document under the next id, in stored form, whose username and email no earlier document holds |
| SessionLifecycle.PersistCreated | src/controllers/user.controller.js:142-162 | after an empty conflict check, creation keeps the store invariants and answers 201 with the new view, or fails leaving the store as it was |
| SessionLifecycle.ValidRegistrationSucceeds | src/controllers/user.controller.js:79-162 | a registration that passes the checks, uploads a non-empty avatar URL and carries a fullname is created with 201 under the next id, storing the digest of the password, which under an ideal bcrypt is never the plaintext |
| SessionLifecycle.CreateKeepsValid | src/controllers/user.controller.js:142-149 | creation after an empty conflict check keeps the unique indexes and the stored form |
| SessionLifecycle.RegisterKeepsValid | src/controllers/user.controller.js:71-163 | registration keeps the store invariants |
| SessionLifecycle.LoginKeepsValid | src/controllers/user.controller.js:165-224 | login keeps the store invariants |
| SessionLifecycle.LogoutKeepsKeys | src/controllers/user.controller.js:229-239 | logout changes no key of any document |
| SessionLifecycle.LogoutKeepsValid | src/controllers/user.controller.js:226-251 | logout keeps the store invariants |
| SessionLifecycle.RefreshKeepsValid | src/controllers/user.controller.js:253-299 | refresh keeps the store invariants |
| SessionLifecycle.ChangePasswordKeepsKeys | src/controllers/user.controller.js:308-309 | a password change changes no key of any document |
| SessionLifecycle.ChangePasswordKeepsValid | src/controllers/user.controller.js:301-313 | a password change keeps the store invariants |
| SessionLifecycle.UpdateDetailsReplacesOne | src/controllers/user.controller.js:326-335 | a successful update replaces one document, with the same id and username, its e-mail in setter form and held by no other document |
| SessionLifecycle.UpdateDetailsKeepsValid | src/controllers/user.controller.js:321-340 | an update of details keeps the store invariants |
| SessionLifecycle.StoredTokenRefreshes | src/controllers/user.controller.js:263-283 | the refresh token stored on an account refreshes the session until it expires |
| SessionLifecycle.LoginThenRefresh | src/controllers/user.controller.js:199-223 | the refresh token a login hands out refreshes the session until it expires |
| SessionLifecycle.LoginWithUsernameOnly | src/controllers/user.controller.js:174-190 | with only a username sent and `undefined` keys dropped, the password is checked against the first stored account and a success logs that account in; with `undefined` sent as `null`, an unknown username is a 404 |
| SessionLifecycle.RotationRevokesConsumedToken | src/controllers/user.controller.js:273-283 | once a refresh succeeds, the consumed token is refused with 401 and the store stays as it is, unless the new token was issued in the same second |
| SessionLifecycle.OnlyStoredTokenRefreshes | src/controllers/user.controller.js:273-275 | only the token stored on the account it names refreshes, so an account has at most one live refresh token |
| SessionLifecycle.LogoutRevokesRefresh | src/controllers/user.controller.js:229-239 | after logout a refresh for that account is refused "Refresh Token expired/invalid" when the store writes null; if the store strips `undefined`, every refresh decides as before |
| SessionLifecycle.RefreshCookieBreaksNextRefresh | src/controllers/user.controller.js:282-295 | the refresh reply sets the refresh cookie to "undefined", and a refresh with that cookie fails 401 "jwt malformed", since the text has no dots |
| SessionLifecycle.AccessSurvivesLogout | src/middlewares/auth.middleware.js:18-29 | the gate decides every request after a logout exactly as before it |
| SessionLifecycle.ChangePasswordEffect | src/controllers/user.controller.js:301-313 | under an ideal bcrypt (no 72-byte truncation), after a change the digest accepts the new password and nothing else; the refresh token and public fields are untouched; a new password equal to the stored digest leaves the document as it was |
| UserController.Directory.constructor | src/models/user.models.js:86 | an empty collection satisfies the store invariants |
| UserController.Directory.GenerateAccessAndRefreshTokens | src/controllers/user.controller.js:50-69 | updates the document in place exactly as `IssueTokens`, returns the two tokens or the 500, and keeps the invariants and digests |
| UserController.Directory.Register | src/controllers/user.controller.js:71-163 | performs `Register` in place and keeps the invariants; a successful registration records the plaintext of the new digest |
| UserController.Directory.Create | src/controllers/user.controller.js:142-162 | performs `Persist` in place after an empty conflict check, keeping the unique indexes |
| UserController.Directory.Login | src/controllers/user.controller.js:165-224 | performs `Login` in place; under an ideal bcrypt (no 72-byte truncation), login succeeds only with the password the account's digest was made from, and with that password and both secrets set it always succeeds |
| UserController.Directory.Logout | src/controllers/user.controller.js:226-251 | performs `Logout` in place and keeps the invariants |
| UserController.Directory.Refresh | src/controllers/user.controller.js:253-299 | performs `Refresh` in place and keeps the invariants |
| UserController.Directory.ChangePassword | src/controllers/user.controller.js:301-313 | performs `ChangePassword` in place; with an ideal bcrypt the old password is accepted exactly when it is the current one, and with it and a new password present the change succeeds; the recorded plaintext becomes the new password exactly when the digest was re-hashed |
| UserController.Directory.UpdateDetails | src/controllers/user.controller.js:321-340 | performs `UpdateDetails` in place and keeps the invariants |

## Left out

- Cloudinary and multer. The upload service and the temporary files are
  outside the model. An upload is a function from a local path to an optional
  URL. `req.files` is the list of paths per field name.
- `updateAvatar` and `updateCoverImg` (src/controllers/user.controller.js:342-384)
  are thin wrappers around the upload call. Note that `updateCoverImg` calls the
  upload without `await` (:369), so `coverImg.url` is always undefined and it
  always answers 400.
- `getCurrentUser` (:315-319) only echoes the account the gate admitted, whose
  view `AuthMiddleware.VerifyJWT` already states.
- The following plumbing has no account rules:
  - the database connection;
  - the server bootstrap;
  - Express, CORS, the body limits, static files and cookie parsing;
  - the routes.

  The route wiring, including which handlers sit behind `verifyJWT`, is not
  modelled. The authenticated handlers take the admitted account's id as an
  argument.
- `asyncHandler` only forwards exceptions. The model's `Threw` outcome stands for
  what it forwards; the status the client receives is `Outcomes.HttpStatus`.
- Outcomes.Throw: the app installs no error-handling middleware, so Express's
  default handler answers a thrown `ApiError` with its `statusCode` and an HTML
  error page. No JSON `ApiError` envelope reaches the client; the model keeps the
  error object and its status, not the page.
- The internals of bcrypt and jsonwebtoken are parameters:
  - salting, the work factor, timing and the HMAC;
  - parsing the expiry strings.

  Their properties are stated as the predicates `IdealBcrypt` and `SoundJwt`,
  which lemmas take as preconditions. The real clock and the random salt are
  arguments.
- Reading the secrets and expiries from the environment is outside the model.
  They are fields of `TokenConfig`. An unset secret is the empty string.
- Concurrency. Two refreshes that pass the stored-token check at the same time
  are not modelled; the model runs one request at a time.
- Cookie attributes (`httpOnly`, `secure`) are outside the model. Cookie
  operations are kept by name and value.
- `toLowerCase` is modelled on ASCII only. Characters outside ASCII keep their
  case, unlike JavaScript's full Unicode mapping.
- The `ApiError` stack trace and the `watchHistory` and timestamp fields of the
  document are not modelled.
- Store failures are not modelled. The store is a map that never fails, except
  for the unique index, which refuses a duplicate e-mail on update. Ids come from
  a counter, and `findOne` returns the first document created.
- The Mongoose version is not pinned. Whether `$set: {refreshToken: undefined}`
  writes null or is dropped is the parameter `stripsUndefined`.
- The re-read of the created document and its 500 (:151-158) are not modelled.
  The re-read always finds the document just created, so the 500 cannot
  happen, and the reply carries the created document's view directly.
- The login reply's re-read (:204-206) is modelled as the account's public
  view, without password and refresh token.
- UserModel.IsPassCorrect has no contract of its own. What it means is stated by
  `UserModel.IsPassCorrectExactly` under an ideal bcrypt.
- UserModel.MatchesEither: the filter's values are taken to pass through the
  `lowercase`/`trim` setters before matching, as Mongoose casts filter values
  with the schema. How an `undefined` value is treated depends on the Mongoose
  version and its `strictQuery`/`omitUndefined` settings; it is the parameter
  `filterDropsUndefined` (dropped: the clause is `{}` and matches every
  document; sent as `null`: it matches nothing, since the paths are required).
- UserModel.IsPassCorrectExactly, SessionLifecycle.ChangePasswordEffect,
  Sessions.RegisteredAccount, Libraries.CompareExactly and
  UserController.Directory.Login assume an ideal bcrypt whose digest matches
  one plaintext only. The bcrypt package hashes only the first 72 bytes of the
  UTF-8 password, so two passwords sharing those bytes match the same digest;
  that truncation is not modelled.
- UserModel.RequiredViolation names one failing path. Mongoose's
  `ValidationError` lists every failing path in its `errors` map and in its
  message; the model keeps only whether validation fails and one path.
- Libraries.Verify models only the checks the handlers can meet: three parts,
  decodable, secret present, signature, expiry. jsonwebtoken's other failures
  (a missing signature part, `nbf`, the algorithm list, audience and issuer)
  are not modelled.
