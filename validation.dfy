/**
 * The Yup schemas of `UserService.registration` and `UserService.login`.
 *
 * Both schemas are validated with `abortEarly: false`: every test of every
 * field runs and all failing messages are reported, field by field in schema
 * order and, inside a field, in the order the tests were declared. A Yup
 * string test treats "" as present, so `min` and `matches` fail on it, while
 * `.email()` skips the empty string. The `.email()` regular expression is the
 * library's and is taken as the parameter `isEmail`.
 */
module Validation {
  import opened Strings

  /** The six length bounds read from the environment. */
  datatype Bounds = Bounds(
    minLogin: nat, maxLogin: nat,
    minEmail: nat, maxEmail: nat,
    minPassword: nat, maxPassword: nat)

  /** The character classes `[a-z]`, `[A-Z]` and `\d` of the two patterns. */
  datatype CharClass = Lower | Upper | Digit

  predicate InClass(c: char, k: CharClass)
  {
    match k
    case Lower => 'a' <= c <= 'z'
    case Upper => 'A' <= c <= 'Z'
    case Digit => '0' <= c <= '9'
  }

  /** `[A-Za-z0-9]` */
  predicate IsAlnum(c: char)
  {
    InClass(c, Lower) || InClass(c, Upper) || InClass(c, Digit)
  }

  /** The characters `.` does not match. */
  predicate IsLineTerminator(c: char)
  {
    c == '\n' || c == '\r' || c == '\U{2028}' || c == '\U{2029}'
  }

  predicate SingleLine(t: string)
  {
    forall j :: 0 <= j < |t| ==> !IsLineTerminator(t[j])
  }

  /** The lookahead `(?=.*[k])` tried at position `p`: a character of class `k`
      occurs at or after `p` with no line terminator in between. */
  predicate LookaheadAt(s: string, p: nat, k: CharClass)
    requires p <= |s|
  {
    exists i :: p <= i < |s| && InClass(s[i], k) && SingleLine(s[p..i])
  }

  /** `s.search(/(?=.*[a-z])^[A-Za-z0-9]+/) !== -1`. The `^` can only hold at
      position 0, and nothing anchors the end of the string. */
  predicate LoginMatches(s: string)
    ensures LoginMatches(s) ==> exists i :: 0 <= i < |s| && InClass(s[i], Lower)
  {
    |s| > 0 && IsAlnum(s[0]) && LookaheadAt(s, 0, Lower)
  }

  /** `s.search(/(?=.*[a-z])(?=.*[A-Z])(?=.*\d)/) !== -1`: some position starts
      a stretch of one line holding a lower-case letter, an upper-case letter
      and a digit. */
  predicate PasswordMatches(s: string)
    ensures PasswordMatches(s) ==>
      && (exists i :: 0 <= i < |s| && InClass(s[i], Lower))
      && (exists i :: 0 <= i < |s| && InClass(s[i], Upper))
      && (exists i :: 0 <= i < |s| && InClass(s[i], Digit))
  {
    exists p :: 0 <= p <= |s| && LookaheadAt(s, p, Lower) && LookaheadAt(s, p, Upper) && LookaheadAt(s, p, Digit)
  }

  // Messages, as the schemas spell them. The long ones are written in two
  // parts so that the verifier sees their first letters.

  /** The shape of the three length messages: "<prefix><lo> до <hi> символов". */
  function RangeMessage(prefix: string, lo: nat, hi: nat): string
  {
    prefix + NatToString(lo) + " до " + NatToString(hi) + " символов"
  }

  lemma PrefixKept(x: string, y: string, k: nat)
    requires k <= |x|
    ensures (x + y)[..k] == x[..k]
  {
  }

  /** A range message begins with its prefix. */
  lemma RangeMessageHead(prefix: string, lo: nat, hi: nat)
    ensures |RangeMessage(prefix, lo, hi)| >= |prefix|
    ensures forall i :: 0 <= i < |prefix| ==> RangeMessage(prefix, lo, hi)[i] == prefix[i]
  {
    var n := |prefix|;
    var a := prefix + NatToString(lo);
    var c := a + " до " + NatToString(hi);
    PrefixKept(prefix, NatToString(lo), n);
    PrefixKept(a, " до ", n);
    PrefixKept(a + " до ", NatToString(hi), n);
    PrefixKept(c, " символов", n);
    assert RangeMessage(prefix, lo, hi)[..n] == prefix;
    forall i | 0 <= i < n ensures RangeMessage(prefix, lo, hi)[i] == prefix[i] {
      assert RangeMessage(prefix, lo, hi)[..n][i] == RangeMessage(prefix, lo, hi)[i];
    }
  }

  const LoginLengthPrefix: string := "Логин должен содержать от "
  const EmailLengthPrefix: string := "Электронный адрес должен содержать от "
  const PasswordLengthPrefix: string := "Пароль должен содержать от "

  function LoginLengthMessage(b: Bounds): string
  {
    RangeMessage(LoginLengthPrefix, b.minLogin, b.maxLogin)
  }

  const LoginPatternMessage: string := "В логине " + "мошут использоваться только латинские буквы и цифры"
  const LoginRequiredMessage: string := "Не указан логин"
  const EmailRequiredMessage: string := "Не указан электронный адрес"

  function EmailLengthMessage(b: Bounds): string
  {
    RangeMessage(EmailLengthPrefix, b.minEmail, b.maxEmail)
  }

  const EmailFormatMessage: string := "Электронный адрес указан не корректно"

  function PasswordLengthMessage(b: Bounds): string
  {
    RangeMessage(PasswordLengthPrefix, b.minPassword, b.maxPassword)
  }

  const PasswordPatternMessage: string := "Пароль должен содержать как " + "минимум одну строчную букву, одну заглавную букву и одну цифру"
  const PasswordRequiredMessage: string := "Не указан пароль"
  const ValidationPrefix: string := "Произошла ошибка валидации введёных данных: "

  /** The message of the `BadRequest` raised for a failed validation. */
  function ValidationMessage(errors: seq<string>): string
  {
    ValidationPrefix + Join(errors, ", ")
  }

  // What each field accepts, stated rule by rule.

  /** The registration `login` field: its length is measured against the
      PASSWORD bounds, although its messages quote the login bounds. */
  predicate LoginAccepted(b: Bounds, login: string)
  {
    b.minPassword <= |login| <= b.maxPassword && LoginMatches(login)
  }

  predicate EmailAccepted(b: Bounds, isEmail: string -> bool, email: string)
  {
    email != "" && b.minEmail <= |email| <= b.maxEmail && isEmail(email)
  }

  predicate PasswordAccepted(b: Bounds, password: string)
  {
    b.minPassword <= |password| <= b.maxPassword && PasswordMatches(password)
  }

  /** Failing messages of the `login` tests: min, max, matches, required.
      Each message appears exactly when its test fails. */
  function LoginErrors(b: Bounds, login: string): (errs: seq<string>)
    ensures errs == [] <==> LoginAccepted(b, login)
    ensures LoginLengthMessage(b) in errs <==> !(b.minPassword <= |login| <= b.maxPassword)
    ensures LoginPatternMessage in errs <==> !LoginMatches(login)
    ensures LoginRequiredMessage in errs <==> login == ""
    ensures forall m :: m in errs ==> m in LoginMessages(b)
  {
    MessageKeys(b);
    (if |login| < b.minPassword then [LoginLengthMessage(b)] else [])
    + (if |login| > b.maxPassword then [LoginLengthMessage(b)] else [])
    + (if !LoginMatches(login) then [LoginPatternMessage] else [])
    + (if |login| == 0 then [LoginRequiredMessage] else [])
  }

  /** Failing messages of the `email` tests: required, min, max, email.
      Each message appears exactly when its test fails. */
  function EmailErrors(b: Bounds, isEmail: string -> bool, email: string): (errs: seq<string>)
    ensures errs == [] <==> EmailAccepted(b, isEmail, email)
    ensures EmailRequiredMessage in errs <==> email == ""
    ensures EmailLengthMessage(b) in errs <==> !(b.minEmail <= |email| <= b.maxEmail)
    ensures EmailFormatMessage in errs <==> email != "" && !isEmail(email)
    ensures forall m :: m in errs ==> m in EmailMessages(b)
  {
    MessageKeys(b);
    (if |email| == 0 then [EmailRequiredMessage] else [])
    + (if |email| < b.minEmail then [EmailLengthMessage(b)] else [])
    + (if |email| > b.maxEmail then [EmailLengthMessage(b)] else [])
    + (if email != "" && !isEmail(email) then [EmailFormatMessage] else [])
  }

  /** Failing messages of the `password` tests: min, max, matches, required.
      Each message appears exactly when its test fails. */
  function PasswordErrors(b: Bounds, password: string): (errs: seq<string>)
    ensures errs == [] <==> PasswordAccepted(b, password)
    ensures PasswordLengthMessage(b) in errs <==> !(b.minPassword <= |password| <= b.maxPassword)
    ensures PasswordPatternMessage in errs <==> !PasswordMatches(password)
    ensures PasswordRequiredMessage in errs <==> password == ""
    ensures forall m :: m in errs ==> m in PasswordMessages(b)
  {
    MessageKeys(b);
    (if |password| < b.minPassword then [PasswordLengthMessage(b)] else [])
    + (if |password| > b.maxPassword then [PasswordLengthMessage(b)] else [])
    + (if !PasswordMatches(password) then [PasswordPatternMessage] else [])
    + (if |password| == 0 then [PasswordRequiredMessage] else [])
  }

  /** The registration schema: all three fields are checked, none
      short-circuits another, and every failing test contributes its message. */
  function RegistrationErrors(b: Bounds, isEmail: string -> bool, login: string, email: string, password: string): (errs: seq<string>)
    ensures errs == [] <==> LoginAccepted(b, login) && EmailAccepted(b, isEmail, email) && PasswordAccepted(b, password)
    ensures LoginLengthMessage(b) in errs <==> !(b.minPassword <= |login| <= b.maxPassword)
    ensures LoginPatternMessage in errs <==> !LoginMatches(login)
    ensures LoginRequiredMessage in errs <==> login == ""
    ensures EmailRequiredMessage in errs <==> email == ""
    ensures EmailLengthMessage(b) in errs <==> !(b.minEmail <= |email| <= b.maxEmail)
    ensures EmailFormatMessage in errs <==> email != "" && !isEmail(email)
    ensures PasswordLengthMessage(b) in errs <==> !(b.minPassword <= |password| <= b.maxPassword)
    ensures PasswordPatternMessage in errs <==> !PasswordMatches(password)
    ensures PasswordRequiredMessage in errs <==> password == ""
  {
    MessagesDistinct(b);
    LoginErrors(b, login) + EmailErrors(b, isEmail, email) + PasswordErrors(b, password)
  }

  /** The login schema: only `email` and `password`, each failing test
      contributing its message. */
  function LoginFormErrors(b: Bounds, isEmail: string -> bool, email: string, password: string): (errs: seq<string>)
    ensures errs == [] <==> EmailAccepted(b, isEmail, email) && PasswordAccepted(b, password)
    ensures EmailRequiredMessage in errs <==> email == ""
    ensures EmailLengthMessage(b) in errs <==> !(b.minEmail <= |email| <= b.maxEmail)
    ensures EmailFormatMessage in errs <==> email != "" && !isEmail(email)
    ensures PasswordLengthMessage(b) in errs <==> !(b.minPassword <= |password| <= b.maxPassword)
    ensures PasswordPatternMessage in errs <==> !PasswordMatches(password)
    ensures PasswordRequiredMessage in errs <==> password == ""
  {
    MessagesDistinct(b);
    EmailErrors(b, isEmail, email) + PasswordErrors(b, password)
  }

  function LoginMessages(b: Bounds): set<string>
  {
    {LoginLengthMessage(b), LoginPatternMessage, LoginRequiredMessage}
  }

  function EmailMessages(b: Bounds): set<string>
  {
    {EmailRequiredMessage, EmailLengthMessage(b), EmailFormatMessage}
  }

  function PasswordMessages(b: Bounds): set<string>
  {
    {PasswordLengthMessage(b), PasswordPatternMessage, PasswordRequiredMessage}
  }

  /** No two fields share a message. */
  lemma MessagesDistinct(b: Bounds)
    ensures LoginMessages(b) !! EmailMessages(b)
    ensures LoginMessages(b) !! PasswordMessages(b)
    ensures EmailMessages(b) !! PasswordMessages(b)
  {
    MessageKeys(b);
  }

  /** The letters that tell the nine messages apart: the first letter, then
      the letter after "Не указан ", "Электронный адрес " or "Пароль должен содержать ". */
  lemma MessageKeys(b: Bounds)
    ensures LoginLengthMessage(b)[0] == 'Л' && LoginPatternMessage[0] == 'В'
    ensures |EmailLengthMessage(b)| > 18 && EmailLengthMessage(b)[0] == 'Э' && EmailLengthMessage(b)[18] == 'д'
    ensures EmailFormatMessage[0] == 'Э' && EmailFormatMessage[18] == 'у'
    ensures |PasswordLengthMessage(b)| > 24 && PasswordLengthMessage(b)[0] == 'П' && PasswordLengthMessage(b)[24] == 'о'
    ensures PasswordPatternMessage[0] == 'П' && PasswordPatternMessage[24] == 'к'
    ensures LoginRequiredMessage[0] == 'Н' && LoginRequiredMessage[10] == 'л'
    ensures EmailRequiredMessage[0] == 'Н' && EmailRequiredMessage[10] == 'э'
    ensures PasswordRequiredMessage[0] == 'Н' && PasswordRequiredMessage[10] == 'п'
  {
    RangeMessageHead(LoginLengthPrefix, b.minLogin, b.maxLogin);
    RangeMessageHead(EmailLengthPrefix, b.minEmail, b.maxEmail);
    RangeMessageHead(PasswordLengthPrefix, b.minPassword, b.maxPassword);
  }

  /** The login bounds never decide whether a registration validates. */
  lemma LoginBoundsUnused(b: Bounds, isEmail: string -> bool, login: string, email: string, password: string, lo: nat, hi: nat)
    ensures (RegistrationErrors(b, isEmail, login, email, password) == [])
        == (RegistrationErrors(b.(minLogin := lo, maxLogin := hi), isEmail, login, email, password) == [])
  {
  }

  /** With the login bounds 2..32 and password bounds 8..32, a five-letter
      login is refused for its length, with a message quoting 2 and 32. */
  lemma ShortLoginRefusedByPasswordBound()
    ensures LoginErrors(Bounds(2, 32, 3, 64, 8, 32), "alice") == [LoginLengthMessage(Bounds(2, 32, 3, 64, 8, 32))]
  {
    var s := "alice";
    assert InClass(s[0], Lower) && SingleLine(s[0..0]);
    assert LoginMatches(s);
  }

  /** The login pattern is not anchored at the end: trailing characters outside
      `[A-Za-z0-9]` pass. */
  lemma LoginPatternUnanchored()
    ensures LoginMatches("a b!")
  {
    var s := "a b!";
    assert InClass(s[0], Lower) && SingleLine(s[0..0]);
  }

  lemma LookaheadSingleLine(s: string, k: CharClass)
    requires SingleLine(s)
    ensures LookaheadAt(s, 0, k) <==> exists i :: 0 <= i < |s| && InClass(s[i], k)
  {
    if i :| 0 <= i < |s| && InClass(s[i], k) {
      assert SingleLine(s[0..i]) by {
        forall j | 0 <= j < |s[0..i]| ensures !IsLineTerminator(s[0..i][j]) {
          assert s[0..i][j] == s[j];
        }
      }
    }
  }

  /** On a string of one line the password pattern asks exactly for a
      lower-case letter, an upper-case letter and a digit somewhere. */
  lemma PasswordMatchesSingleLine(s: string)
    requires SingleLine(s)
    ensures PasswordMatches(s) <==>
      (exists i :: 0 <= i < |s| && InClass(s[i], Lower)) &&
      (exists i :: 0 <= i < |s| && InClass(s[i], Upper)) &&
      (exists i :: 0 <= i < |s| && InClass(s[i], Digit))
  {
    LookaheadSingleLine(s, Lower);
    LookaheadSingleLine(s, Upper);
    LookaheadSingleLine(s, Digit);
    if PasswordMatches(s) {
      var p :| 0 <= p <= |s| && LookaheadAt(s, p, Lower) && LookaheadAt(s, p, Upper) && LookaheadAt(s, p, Digit);
    }
  }

  /** On a string of one line the login pattern asks for a leading letter or
      digit and a lower-case letter somewhere. */
  lemma LoginMatchesSingleLine(s: string)
    requires SingleLine(s)
    ensures LoginMatches(s) <==> |s| > 0 && IsAlnum(s[0]) && exists i :: 0 <= i < |s| && InClass(s[i], Lower)
  {
    LookaheadSingleLine(s, Lower);
  }

  lemma BreakInside(s: string, p: nat, i: nat, j: nat)
    requires p <= j < i <= |s| && IsLineTerminator(s[j])
    ensures !SingleLine(s[p..i])
  {
    assert s[p..i][j - p] == s[j];
  }

  /** A line break before the only lower-case letter defeats the lookahead. */
  lemma PasswordSplitAcrossLines()
    ensures !PasswordMatches("A1\na")
  {
    var s := "A1\na";
    forall p | 0 <= p <= |s| && LookaheadAt(s, p, Lower) ensures !LookaheadAt(s, p, Upper) {
      var i :| p <= i < |s| && InClass(s[i], Lower) && SingleLine(s[p..i]);
      assert i == 3;
      if p < 3 {
        BreakInside(s, p, i, 2);
        assert false;
      }
      assert !InClass(s[3], Upper);
    }
  }
}
