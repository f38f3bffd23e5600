/** The input schemas of the authentication forms (registration,
    forgot-password, change-password and login). Each schema is the list of
    issues zod reports for a form, in the order zod checks them; a form is
    accepted when that list is empty. */
module Validation {

  /** The form fields an issue can be attached to. */
  datatype Path = FullName | Username | Email | Password | ConfirmPassword | Identifier

  /** One validation failure: the field it is shown under and its message. */
  datatype Issue = Issue(path: Path, message: string)

  datatype RegistrationForm = RegistrationForm(
    full_name: string,
    username: string,
    email: string,
    password: string,
    confirmPassword: string)

  datatype ForgotPasswordForm = ForgotPasswordForm(identifier: string)

  datatype ChangePasswordForm = ChangePasswordForm(password: string, confirmPassword: string)

  datatype LoginForm = LoginForm(identifier: string, password: string)

  const PasswordsDoNotMatch := "Passwords do not match"

  // ---------------------------------------------------------------------------
  // Strings as JavaScript sees them

  /** The number of UTF-16 code units of a character: the unit that a
      JavaScript string's `length`, and so zod's `min` and `max`, count. */
  function CodeUnits(c: char): nat {
    if c as int > 0xFFFF then 2 else 1
  }

  /** JavaScript's `String.prototype.length` of `s`. */
  function JsLength(s: string): (n: nat)
    ensures |s| <= n <= 2 * |s|
  {
    if s == [] then 0 else CodeUnits(s[0]) + JsLength(s[1..])
  }

  /** On text of the Basic Multilingual Plane, JavaScript's length is the
      number of characters. */
  lemma {:induction false} JsLengthOfBmpText(s: string)
    requires forall k :: 0 <= k < |s| ==> s[k] as int <= 0xFFFF
    ensures JsLength(s) == |s|
  {
    if s != [] {
      JsLengthOfBmpText(s[1..]);
    }
  }

  /** A character of the regular-expression class `[a-zA-Z0-9_]`. */
  predicate IsWordChar(c: char) {
    ('a' <= c <= 'z') || ('A' <= c <= 'Z') || ('0' <= c <= '9') || c == '_'
  }

  /** `/^[a-zA-Z0-9_]+$/.test(s)`. */
  predicate IsWord(s: string): (b: bool)
    ensures b ==> s != [] && '@' !in s && '.' !in s
  {
    |s| > 0 && forall k :: 0 <= k < |s| ==> IsWordChar(s[k])
  }

  /** JavaScript's `\s`: the WhiteSpace and LineTerminator code points of
      ECMAScript (tab, line tabulation, form feed, no-break space, the byte
      order mark, the Space_Separator category, LF, CR, LS and PS). */
  predicate IsSpace(c: char): (b: bool)
    ensures b ==> !IsWordChar(c) && c != '@' && c != '.'
  {
    c == '\t' || c == '\n' || c == '\U{000B}' || c == '\U{000C}' || c == '\r'
    || c == ' ' || c == '\U{00A0}' || c == '\U{1680}'
    || ('\U{2000}' <= c <= '\U{200A}')
    || c == '\U{2028}' || c == '\U{2029}' || c == '\U{202F}' || c == '\U{205F}'
    || c == '\U{3000}' || c == '\U{FEFF}'
  }

  /** A character of the class `[^\s@]`. */
  predicate IsPlainChar(c: char) {
    !IsSpace(c) && c != '@'
  }

  /** `[^\s@]+`: a non-empty run of plain characters. */
  predicate IsPlainRun(t: string) {
    |t| > 0 && forall k :: 0 <= k < |t| ==> IsPlainChar(t[k])
  }

  // ---------------------------------------------------------------------------
  // The email shape `^[^\s@]+@[^\s@]+\.[^\s@]+$`

  /** `s` is `a`, then `@`, then `b`, then `.`, then `c`, where `a`, `b` and `c`
      are runs of `[^\s@]+`: one way the pattern can match `s`. */
  ghost predicate EmailSplit(s: string, a: string, b: string, c: string) {
    s == a + ['@'] + b + ['.'] + c && IsPlainRun(a) && IsPlainRun(b) && IsPlainRun(c)
  }

  /** The language of the regular expression: some split matches. */
  ghost predicate MatchesEmailPattern(s: string) {
    exists a, b, c :: EmailSplit(s, a, b, c)
  }

  /** The position of the first `@` in `s`, or `|s|` when there is none. */
  function IndexOfAt(s: string): (i: nat)
    ensures i <= |s|
    ensures i < |s| ==> s[i] == '@'
    ensures forall k :: 0 <= k < i ==> s[k] != '@'
  {
    if s == [] then 0
    else if s[0] == '@' then 0
    else 1 + IndexOfAt(s[1..])
  }

  /** `d` has a `.` that is neither its first nor its last character. */
  predicate HasInnerDot(d: string) {
    exists k :: 0 < k < |d| - 1 && d[k] == '.'
  }

  /** The recogniser for the email shape: a non-empty plain part before the
      first `@`, and after it a plain part with a dot strictly inside. */
  predicate IsEmailShape(s: string): (b: bool)
    ensures b ==> '@' in s && '.' in s && |s| >= 5 && !IsWord(s)
  {
    var i := IndexOfAt(s);
    0 < i < |s| && IsPlainRun(s[..i]) && IsPlainRun(s[i + 1..]) && HasInnerDot(s[i + 1..])
  }

  /** Every string the recogniser accepts matches the regular expression. */
  lemma EmailShapeSound(s: string)
    requires IsEmailShape(s)
    ensures MatchesEmailPattern(s)
  {
    var i := IndexOfAt(s);
    var d := s[i + 1..];
    var k :| 0 < k < |d| - 1 && d[k] == '.';
    var a, b, c := s[..i], d[..k], d[k + 1..];
    assert d == b + ['.'] + c;
    assert s == a + ['@'] + d;
    assert EmailSplit(s, a, b, c);
  }

  /** Every string the regular expression matches is accepted by the recogniser. */
  lemma EmailShapeComplete(s: string, a: string, b: string, c: string)
    requires EmailSplit(s, a, b, c)
    ensures IsEmailShape(s)
  {
    var d := b + ['.'] + c;
    assert s == a + ['@'] + d;
    assert s[|a|] == '@';
    assert forall k :: 0 <= k < |a| ==> s[k] == a[k];
    var i := IndexOfAt(s);
    assert i == |a|;
    assert s[..i] == a;
    assert s[i + 1..] == d;
    assert d[|b|] == '.';
    forall k | 0 <= k < |d|
      ensures IsPlainChar(d[k])
    {
      if k < |b| {
        assert d[k] == b[k];
      } else if k > |b| {
        assert d[k] == c[k - |b| - 1];
      }
    }
  }

  /** The recogniser accepts exactly the language of the regular expression. */
  lemma EmailShapeIsPattern(s: string)
    ensures IsEmailShape(s) <==> MatchesEmailPattern(s)
  {
    if IsEmailShape(s) {
      EmailShapeSound(s);
    }
    if MatchesEmailPattern(s) {
      var a, b, c :| EmailSplit(s, a, b, c);
      EmailShapeComplete(s, a, b, c);
    }
  }

  // ---------------------------------------------------------------------------
  // The four schemas

  /** The issue a check contributes: none when it holds. */
  function Check(holds: bool, path: Path, message: string): (r: seq<Issue>)
    ensures holds <==> r == []
    ensures !holds ==> r == [Issue(path, message)]
  {
    if holds then [] else [Issue(path, message)]
  }

  /** The issues of the `username` field of the registration schema. */
  function UsernameIssues(username: string): (r: seq<Issue>)
    ensures |r| <= 3
    ensures forall i :: i in r ==> i.path == Username
  {
    Check(JsLength(username) >= 3, Username, "Username must be at least 3 characters")
    + Check(JsLength(username) <= 20, Username, "Username must be at most 20 characters")
    + Check(IsWord(username), Username, "Username can only contain letters, numbers, and underscores")
  }

  /** The field checks of `registrationSchema`, in field order. `isEmail` is
      zod's built-in email check, whose pattern belongs to the library. */
  function RegistrationFieldIssues(f: RegistrationForm, isEmail: string -> bool): (r: seq<Issue>)
    ensures |r| <= 7
    ensures forall i :: i in r ==> i.path != Identifier && i.path != ConfirmPassword
  {
    Check(JsLength(f.full_name) >= 2, FullName, "Full name must be at least 2 characters")
    + UsernameIssues(f.username)
    + Check(isEmail(f.email), Email, "Please enter a valid email")
    + Check(JsLength(f.password) >= 1, Password, "Password is required")
    + Check(JsLength(f.password) <= 100, Password, "Password must be at most 100 characters")
  }

  /** `registrationSchema`: the field checks, then the refinement comparing
      the two passwords, which runs even when a field check failed and
      reports on `confirmPassword`. */
  function RegistrationIssues(f: RegistrationForm, isEmail: string -> bool): (r: seq<Issue>)
    ensures |r| <= 8
    ensures forall i :: i in r ==> i.path != Identifier
    ensures Issue(ConfirmPassword, PasswordsDoNotMatch) in r <==> f.password != f.confirmPassword
  {
    RegistrationFieldIssues(f, isEmail)
    + Check(f.password == f.confirmPassword, ConfirmPassword, PasswordsDoNotMatch)
  }

  predicate RegistrationAccepted(f: RegistrationForm, isEmail: string -> bool) {
    RegistrationIssues(f, isEmail) == []
  }

  /** `forgotPasswordSchema`. */
  function ForgotPasswordIssues(f: ForgotPasswordForm): (r: seq<Issue>)
    ensures |r| <= 1
    ensures forall i :: i in r ==> i.path == Identifier
  {
    Check(JsLength(f.identifier) >= 1, Identifier, "Please enter a valid email/username")
  }

  predicate ForgotPasswordAccepted(f: ForgotPasswordForm) {
    ForgotPasswordIssues(f) == []
  }

  /** `changePasswordSchema`. */
  function ChangePasswordIssues(f: ChangePasswordForm): (r: seq<Issue>)
    ensures |r| <= 2
    ensures forall i :: i in r ==> i.path == Password || i.path == ConfirmPassword
    ensures Issue(ConfirmPassword, PasswordsDoNotMatch) in r <==> f.password != f.confirmPassword
  {
    Check(JsLength(f.password) >= 8, Password, "Password must be at least 8 characters")
    + Check(f.password == f.confirmPassword, ConfirmPassword, PasswordsDoNotMatch)
  }

  predicate ChangePasswordAccepted(f: ChangePasswordForm) {
    ChangePasswordIssues(f) == []
  }

  /** The issues of the login `identifier` field: the length check, then the
      refinement "email shape or word". */
  function LoginIdentifierIssues(identifier: string): (r: seq<Issue>)
    ensures |r| <= 2
    ensures forall i :: i in r ==> i.path == Identifier
  {
    Check(JsLength(identifier) >= 1, Identifier, "Email / username is required")
    + Check(IsEmailShape(identifier) || IsWord(identifier), Identifier, "Must be a valid email or username")
  }

  /** `loginSchema`. */
  function LoginIssues(f: LoginForm): (r: seq<Issue>)
    ensures |r| <= 3
    ensures forall i :: i in r ==> i.path == Identifier || i.path == Password
  {
    LoginIdentifierIssues(f.identifier)
    + Check(JsLength(f.password) >= 1, Password, "Password is required")
  }

  predicate LoginAccepted(f: LoginForm) {
    LoginIssues(f) == []
  }

  // ---------------------------------------------------------------------------
  // What the schemas accept

  /** A registration username is accepted iff it has 3 to 20 characters, all
      of them in `[A-Za-z0-9_]`. */
  lemma UsernameRule(username: string)
    ensures UsernameIssues(username) == [] <==>
      3 <= |username| <= 20 && forall k :: 0 <= k < |username| ==> IsWordChar(username[k])
  {
    if IsWord(username) {
      JsLengthOfBmpText(username);
    }
  }

  /** The registration form is accepted iff every field rule holds and the two
      passwords are equal. */
  lemma RegistrationRule(f: RegistrationForm, isEmail: string -> bool)
    ensures RegistrationAccepted(f, isEmail) <==>
      && JsLength(f.full_name) >= 2
      && UsernameIssues(f.username) == []
      && isEmail(f.email)
      && 1 <= JsLength(f.password) <= 100
      && f.password == f.confirmPassword
  {
  }

  /** A full name of fewer than two code units is rejected, with an issue on
      `full_name`. */
  lemma RegistrationShortFullNameRejected(f: RegistrationForm, isEmail: string -> bool)
    requires JsLength(f.full_name) < 2
    ensures Issue(FullName, "Full name must be at least 2 characters") in RegistrationIssues(f, isEmail)
    ensures !RegistrationAccepted(f, isEmail)
  {
  }

  /** Differing passwords reject the registration form, and the mismatch is
      the one issue reported under `confirmPassword`; when every field is
      valid it is the only issue. */
  lemma RegistrationMismatchOnConfirm(f: RegistrationForm, isEmail: string -> bool)
    requires f.password != f.confirmPassword
    ensures !RegistrationAccepted(f, isEmail)
    ensures Issue(ConfirmPassword, PasswordsDoNotMatch) in RegistrationIssues(f, isEmail)
    ensures forall i :: i in RegistrationIssues(f, isEmail) && i.path == ConfirmPassword ==>
      i == Issue(ConfirmPassword, PasswordsDoNotMatch)
    ensures JsLength(f.full_name) >= 2 && UsernameIssues(f.username) == [] && isEmail(f.email)
            && 1 <= JsLength(f.password) <= 100 ==>
      RegistrationIssues(f, isEmail) == [Issue(ConfirmPassword, PasswordsDoNotMatch)]
  {
  }

  /** The forgot-password form is accepted iff the identifier is non-empty. */
  lemma ForgotPasswordRule(f: ForgotPasswordForm)
    ensures ForgotPasswordAccepted(f) <==> f.identifier != []
  {
  }

  /** The change-password form is accepted iff the password has at least eight
      code units and equals its confirmation. */
  lemma ChangePasswordRule(f: ChangePasswordForm)
    ensures ChangePasswordAccepted(f) <==> JsLength(f.password) >= 8 && f.password == f.confirmPassword
    ensures f.password != f.confirmPassword ==> Issue(ConfirmPassword, PasswordsDoNotMatch) in ChangePasswordIssues(f)
  {
  }

  /** A login identifier is accepted iff it is non-empty and either matches
      the email pattern or consists of `[A-Za-z0-9_]` only, of any length. */
  lemma LoginIdentifierRule(identifier: string)
    ensures LoginIdentifierIssues(identifier) == [] <==>
      identifier != [] &&
      (MatchesEmailPattern(identifier) || forall k :: 0 <= k < |identifier| ==> IsWordChar(identifier[k]))
  {
    EmailShapeIsPattern(identifier);
  }

  /** The login form is accepted iff its identifier is and its password is
      non-empty. */
  lemma LoginRule(f: LoginForm)
    ensures LoginAccepted(f) <==> LoginIdentifierIssues(f.identifier) == [] && f.password != []
  {
  }

  /** An accepted login identifier that contains `@` matches the email pattern. */
  lemma LoginIdentifierWithAtIsEmail(identifier: string)
    requires LoginIdentifierIssues(identifier) == []
    requires '@' in identifier
    ensures MatchesEmailPattern(identifier)
  {
    var k :| 0 <= k < |identifier| && identifier[k] == '@';
    assert !IsWordChar(identifier[k]);
    EmailShapeIsPattern(identifier);
  }

  /** Every username the registration schema accepts is an accepted login
      identifier and contains no `@`. */
  lemma RegisteredUsernameIsLoginIdentifier(username: string)
    requires UsernameIssues(username) == []
    ensures LoginIdentifierIssues(username) == []
    ensures '@' !in username
  {
    UsernameRule(username);
  }
}
