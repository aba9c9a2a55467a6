/**
 * The input rules of registration: the password policy `isValidPassword` and
 * the chain of checks that answers 400 before the store is consulted. The
 * checks run in order and the first that fails decides the message. A field
 * the client did not send is `undefined`: the blank check skips it, and a
 * later check that reads it throws a TypeError instead of answering 400.
 */
module UserValidation {
  import opened Wrappers
  import opened JsString
  import opened Outcomes

  predicate IsAsciiLetter(c: char) {
    'a' <= c <= 'z' || 'A' <= c <= 'Z'
  }

  predicate IsDecimalDigit(c: char) {
    '0' <= c <= '9'
  }

  /** `/[a-zA-Z]/.test(s)` */
  function HasLetter(s: string): (b: bool)
    ensures b <==> exists k :: 0 <= k < |s| && IsAsciiLetter(s[k])
  {
    if s == [] then false
    else if IsAsciiLetter(s[0]) then true
    else
      assert forall k :: 1 <= k < |s| ==> s[k] == s[1..][k - 1];
      HasLetter(s[1..])
  }

  /** `/\d/.test(s)` */
  function HasDigit(s: string): (b: bool)
    ensures b <==> exists k :: 0 <= k < |s| && IsDecimalDigit(s[k])
  {
    if s == [] then false
    else if IsDecimalDigit(s[0]) then true
    else
      assert forall k :: 1 <= k < |s| ==> s[k] == s[1..][k - 1];
      HasDigit(s[1..])
  }

  /**
   * `isValidPassword(p)`: at least 5 UTF-16 code units, an ASCII letter and a
   * decimal digit.
   */
  function IsValidPassword(p: string): (ok: bool)
    ensures ok <==>
      && Utf16Length(p) >= 5
      && (exists k :: 0 <= k < |p| && IsAsciiLetter(p[k]))
      && (exists k :: 0 <= k < |p| && IsDecimalDigit(p[k]))
  {
    HasLetter(p) && HasDigit(p) && Utf16Length(p) >= 5
  }

  /** The boundary cases of the policy: too short, no digit, and just long enough. */
  lemma PasswordPolicyBoundaries()
    ensures !IsValidPassword("ab1")
    ensures !IsValidPassword("abcde")
    ensures IsValidPassword("abcd1")
  {
    assert !IsDecimalDigit("abcde"[0]) && !IsDecimalDigit("abcde"[1]) && !IsDecimalDigit("abcde"[2]);
    assert !IsDecimalDigit("abcde"[3]) && !IsDecimalDigit("abcde"[4]);
    assert IsAsciiLetter("abcd1"[0]) && IsDecimalDigit("abcd1"[4]);
  }

  /** Length is counted in UTF-16 code units: two emoji count four towards the minimum of five. */
  lemma PasswordLengthInCodeUnits()
    ensures IsValidPassword("\U{1F600}\U{1F600}a1")
  {
    var p := "\U{1F600}\U{1F600}a1";
    assert p[1..] == "\U{1F600}a1" && p[2..] == "a1" && p[3..] == "1" && p[4..] == [];
    assert Utf16Length(p) == 6;
    assert IsAsciiLetter(p[2]) && IsDecimalDigit(p[3]);
  }

  /** `req.body` of a registration; None stands for a field that was not sent. */
  datatype RegisterForm = RegisterForm(
    fullname: Option<string>, email: Option<string>, username: Option<string>, password: Option<string>)

  /** What the check chain does: let the request through, answer 400 with a message, or throw. */
  datatype Verdict = Accepted | Rejected(message: string) | Crashed(fault: Fault)

  const AllFieldsRequired: string := "All fields are required."
  const AtRequired: string := "@ in email is required."
  const LowercaseOnly: string := "lowercase characters only"
  const NoSpacesAllowed: string := "Empty Spaces not allowed"
  const WeakPassword: string :=
    "Password is wrong, it should have min 5 characters, atleast a digit, and atleast a letter."

  /** `field?.trim() === ""`: true only for a present field that is blank. */
  predicate BlankAfterTrim(f: Option<string>) {
    f.Some? && Trim(f.value) == []
  }

  /** `field?.trim().includes(" ")`: true only for a present field with a space inside. */
  predicate SpaceInside(f: Option<string>) {
    f.Some? && ' ' in Trim(f.value)
  }

  /** Rule 1 fails: one of the four fields was sent blank. */
  predicate AnyBlank(f: RegisterForm) {
    BlankAfterTrim(f.fullname) || BlankAfterTrim(f.email) || BlankAfterTrim(f.username) || BlankAfterTrim(f.password)
  }

  /** Rule 4 fails: username, email or password has a space once trimmed. */
  predicate AnySpaceInside(f: RegisterForm) {
    SpaceInside(f.username) || SpaceInside(f.email) || SpaceInside(f.password)
  }

  /** The checks at the head of `registerUser`, in source order. */
  function CheckRegistration(f: RegisterForm): (v: Verdict)
    ensures v.Accepted? ==> f.email.Some? && f.username.Some? && f.password.Some?
    ensures v.Crashed? ==> v.fault.TypeError?
    ensures v.Rejected? ==> v.message in [AllFieldsRequired, AtRequired, LowercaseOnly, NoSpacesAllowed, WeakPassword]
  {
    if AnyBlank(f) then Rejected(AllFieldsRequired)
    else CheckAfterBlank(f.email, f.username, f.password)
  }

  /** Rules 2 to 5, which do not look at `fullname`. */
  function CheckAfterBlank(email: Option<string>, username: Option<string>, password: Option<string>): (v: Verdict)
    ensures v.Accepted? ==> email.Some? && username.Some? && password.Some?
    ensures v.Crashed? ==> v.fault.TypeError?
    ensures v.Rejected? ==> v.message in [AtRequired, LowercaseOnly, NoSpacesAllowed, WeakPassword]
  {
    if email.None? then Crashed(TypeError("email.includes"))
    else if '@' !in email.value then Rejected(AtRequired)
    else if username.None? then Crashed(TypeError("username.toLowerCase"))
    else if username.value != ToLowerCase(username.value) then Rejected(LowercaseOnly)
    else if SpaceInside(username) || SpaceInside(email) || SpaceInside(password) then Rejected(NoSpacesAllowed)
    else if password.None? then Crashed(TypeError("password.length"))
    else if !IsValidPassword(password.value) then Rejected(WeakPassword)
    else Accepted
  }

  /**
   * What the chain decides: "All fields are required." exactly when a sent
   * field is blank, and acceptance exactly when every rule holds; a throw only
   * happens past rule 1.
   */
  lemma RegistrationVerdicts(f: RegisterForm)
    ensures CheckRegistration(f) == Rejected(AllFieldsRequired) <==> AnyBlank(f)
    ensures CheckRegistration(f).Accepted? <==>
      && !AnyBlank(f)
      && f.email.Some? && '@' in f.email.value
      && f.username.Some? && (forall k :: 0 <= k < |f.username.value| ==> !IsAsciiUpper(f.username.value[k]))
      && !AnySpaceInside(f)
      && f.password.Some? && IsValidPassword(f.password.value)
    ensures CheckRegistration(f).Crashed? ==> !AnyBlank(f)
  {
    if f.username.Some? {
      LowerFixedPoint(f.username.value);
    }
  }

  /**
   * Which rule refuses a form: each 400 message is given exactly when every
   * earlier rule passed and its own rule fails, so the first failing rule
   * decides the message.
   */
  lemma RegistrationRejections(f: RegisterForm)
    ensures CheckRegistration(f) == Rejected(AtRequired) <==>
      !AnyBlank(f) && f.email.Some? && '@' !in f.email.value
    ensures CheckRegistration(f) == Rejected(LowercaseOnly) <==>
      && !AnyBlank(f) && f.email.Some? && '@' in f.email.value
      && f.username.Some? && (exists k :: 0 <= k < |f.username.value| && IsAsciiUpper(f.username.value[k]))
    ensures CheckRegistration(f) == Rejected(NoSpacesAllowed) <==>
      && !AnyBlank(f) && f.email.Some? && '@' in f.email.value
      && f.username.Some? && (forall k :: 0 <= k < |f.username.value| ==> !IsAsciiUpper(f.username.value[k]))
      && AnySpaceInside(f)
    ensures CheckRegistration(f) == Rejected(WeakPassword) <==>
      && !AnyBlank(f) && f.email.Some? && '@' in f.email.value
      && f.username.Some? && (forall k :: 0 <= k < |f.username.value| ==> !IsAsciiUpper(f.username.value[k]))
      && !AnySpaceInside(f)
      && f.password.Some? && !IsValidPassword(f.password.value)
  {
    assert AllFieldsRequired[0] == 'A' && AtRequired[0] == '@' && LowercaseOnly[0] == 'l';
    assert NoSpacesAllowed[0] == 'E' && |WeakPassword| > |LowercaseOnly|;
    if f.username.Some? {
      LowerFixedPoint(f.username.value);
    }
  }

  /**
   * A username with an upper-case letter is refused with "lowercase characters
   * only" whatever the later fields hold, once the first two rules pass.
   */
  lemma UppercaseUsernameRejected(f: RegisterForm, k: nat)
    requires !AnyBlank(f) && f.email.Some? && '@' in f.email.value
    requires f.username.Some? && k < |f.username.value| && IsAsciiUpper(f.username.value[k])
    ensures CheckRegistration(f) == Rejected(LowercaseOnly)
  {
    LowerFixedPoint(f.username.value);
  }

  /** A non-empty field without any white space is neither blank nor spaced once trimmed. */
  lemma SolidField(s: string)
    requires s != [] && forall k :: 0 <= k < |s| ==> !IsJsSpace(s[k])
    ensures Trim(s) == s && !BlankAfterTrim(Some(s)) && !SpaceInside(Some(s))
  {
    assert ' ' !in s by {
      forall k | 0 <= k < |s| ensures s[k] != ' ' {
        assert !IsJsSpace(s[k]);
      }
    }
    TrimUnchanged(s);
  }

  /** A non-empty field that neither starts nor ends with white space is not blank. */
  lemma FilledField(s: string)
    requires s != [] && !IsJsSpace(s[0]) && !IsJsSpace(s[|s| - 1])
    ensures !BlankAfterTrim(Some(s))
  {
    TrimUnchanged(s);
  }

  /** For example, a form that breaks rules 2, 3 and 5 gets the message of rule 2. */
  lemma FirstFailureWins()
    ensures CheckRegistration(RegisterForm(Some("Ada"), Some("ada.x.com"), Some("Ada"), Some("pw"))) == Rejected(AtRequired)
  {
    var f := RegisterForm(Some("Ada"), Some("ada.x.com"), Some("Ada"), Some("pw"));
    assert '@' !in f.email.value;
    SolidField("Ada");
    SolidField("pw");
    SolidField("ada.x.com");
    assert !AnyBlank(f);
  }

  /** For example, once its e-mail is fixed the same form gets the message of rule 3, not that of rule 5. */
  lemma LowercaseBeforePasswordStrength()
    ensures CheckRegistration(RegisterForm(Some("Ada"), Some("ada@x.com"), Some("Ada"), Some("pw"))) == Rejected(LowercaseOnly)
  {
    var f := RegisterForm(Some("Ada"), Some("ada@x.com"), Some("Ada"), Some("pw"));
    assert f.email.value[3] == '@';
    SolidField("Ada");
    SolidField("pw");
    SolidField("ada@x.com");
    assert !AnyBlank(f);
    UppercaseUsernameRejected(f, 0);
  }

  /** A small form that passes every rule: "A", "a@b", "ab", "abcd1". */
  lemma SomeFormAccepted()
    ensures CheckRegistration(RegisterForm(Some("A"), Some("a@b"), Some("ab"), Some("abcd1"))) == Accepted
  {
    var f := RegisterForm(Some("A"), Some("a@b"), Some("ab"), Some("abcd1"));
    assert f.email.value[1] == '@';
    assert IsAsciiLetter("abcd1"[0]) && IsDecimalDigit("abcd1"[4]);
    SolidField("A");
    SolidField("a@b");
    SolidField("ab");
    SolidField("abcd1");
    assert !AnyBlank(f);
    assert !AnySpaceInside(f);
  }

  /**
   * Rule 1 only looks at fields that were sent: leaving `fullname` out is
   * treated exactly like sending a non-blank one.
   */
  lemma AbsentFullnameUnchecked(f: RegisterForm, name: string)
    requires !BlankAfterTrim(Some(name))
    ensures CheckRegistration(f.(fullname := None)) == CheckRegistration(f.(fullname := Some(name)))
  {
    assert AnyBlank(f.(fullname := None)) == AnyBlank(f.(fullname := Some(name)));
  }

  /** An e-mail that was not sent gets past rule 1 and throws where `includes` is called on it. */
  lemma AbsentEmailCrashes(f: RegisterForm)
    requires f.email.None? && !AnyBlank(f)
    ensures CheckRegistration(f) == Crashed(TypeError("email.includes"))
  {
  }

  /**
   * A password that was not sent gets past rules 1 to 4 and throws where its
   * length is read, instead of being answered with a 400.
   */
  lemma AbsentPasswordCrashes(f: RegisterForm)
    requires f.password.None? && !AnyBlank(f) && !AnySpaceInside(f)
    requires f.email.Some? && '@' in f.email.value
    requires f.username.Some? && forall k :: 0 <= k < |f.username.value| ==> !IsAsciiUpper(f.username.value[k])
    ensures CheckRegistration(f) == Crashed(TypeError("password.length"))
  {
    LowerFixedPoint(f.username.value);
  }
}
