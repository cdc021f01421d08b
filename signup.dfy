/** The Signup page: the e-mail pattern, the password checks and strength
    score, the strength label, the confirmation check, and the form whose
    submit gates the call to the session's signup. */
module SignupPage {
  import opened Common
  import opened Records
  import opened Store
  import opened UserUtil
  import opened AuthContext

  const TLDS: set<string> := {"com", "net", "org", "edu", "gov"}
  /** The class `[!@#$%^&*()_+\-=[\]{};':"\\|,.<>/?]`. */
  const SYMBOLS := "!@#$%^&*()_+-=[]{};':\"\\|,.<>/?"
  const EMAIL_ERROR := "Email must be a valid format (e.g., example@domain.com)"
  const PASSWORD_ERROR := "Password doesn't meet all requirements"
  const MISMATCH_ERROR := "Passwords do not match"
  const AFTER_SIGNUP := "/profile"

  /** `[^\s@]`. */
  predicate PlainChar(c: char)
  {
    !IsJsSpace(c) && c != '@'
  }

  predicate Plain(s: string)
  {
    forall i :: 0 <= i < |s| ==> PlainChar(s[i])
  }

  predicate NoSpace(s: string)
  {
    forall i :: 0 <= i < |s| ==> !IsJsSpace(s[i])
  }

  /** `(com|net|org|edu|gov)` under the `i` flag. */
  predicate IsTld(t: string)
  {
    Lower(t) in TLDS
  }

  /** validateEmail: `/^[^\s@]+@[^\s@]+\.(com|net|org|edu|gov)$/i`, read from
      the end: a final "." and top-level domain, and before them exactly one
      '@' with non-empty, space-free text on both sides. */
  predicate ValidEmail(e: string)
  {
    |e| >= 4 && e[|e| - 4] == '.' && IsTld(e[|e| - 3..]) &&
    var parts := Split(e[..|e| - 4], '@');
    |parts| == 2 && parts[0] != [] && parts[1] != [] && NoSpace(parts[0]) && NoSpace(parts[1])
  }

  /** Every accepted address is `local@domain.tld` with a local part and a
      domain free of white space and '@', and a listed top-level domain. */
  lemma {:induction false} AcceptedEmailShape(e: string)
    requires ValidEmail(e)
    ensures var parts := Split(e[..|e| - 4], '@');
            && e == parts[0] + "@" + parts[1] + "." + e[|e| - 3..]
            && parts[0] != [] && parts[1] != [] && Plain(parts[0]) && Plain(parts[1])
            && IsTld(e[|e| - 3..])
  {
    var body := e[..|e| - 4];
    var parts := Split(body, '@');
    SplitJoin(body, '@');
    SplitPiecesFree(body, '@');
    assert parts[1..] == [parts[1]];
    assert Join(parts, '@') == parts[0] + ['@'] + parts[1];
    assert e == body + "." + e[|e| - 3..];
    assert '@' !in parts[0] && '@' !in parts[1];
  }

  /** Every address of that shape is accepted. */
  lemma {:induction false} EmailOfShapeAccepted(local: string, domain: string, tld: string)
    requires local != [] && domain != [] && Plain(local) && Plain(domain) && IsTld(tld)
    ensures ValidEmail(local + "@" + domain + "." + tld)
  {
    var e := local + "@" + domain + "." + tld;
    assert |tld| == 3 by {
      assert |Lower(tld)| == 3;
    }
    assert e[..|e| - 4] == local + ['@'] + domain;
    assert e[|e| - 3..] == tld;
    assert '@' !in local by {
      forall i | 0 <= i < |local| ensures local[i] != '@' { assert PlainChar(local[i]); }
    }
    assert '@' !in domain by {
      forall i | 0 <= i < |domain| ensures domain[i] != '@' { assert PlainChar(domain[i]); }
    }
    SplitOnce(local, domain, '@');
  }

  predicate HasUpper(p: string)
  {
    exists i | 0 <= i < |p| :: 'A' <= p[i] <= 'Z'
  }

  predicate HasLower(p: string)
  {
    exists i | 0 <= i < |p| :: 'a' <= p[i] <= 'z'
  }

  predicate HasDigit(p: string)
  {
    exists i | 0 <= i < |p| :: IsDigit(p[i])
  }

  predicate HasSymbol(p: string)
  {
    exists i | 0 <= i < |p| :: p[i] in SYMBOLS
  }

  /** The number of the five checks the password passes. */
  function Strength(p: string): (n: nat)
    ensures n <= 5
    ensures n == 5 <==> |p| >= 8 && HasUpper(p) && HasLower(p) && HasDigit(p) && HasSymbol(p)
  {
    (if |p| >= 8 then 1 else 0) + (if HasUpper(p) then 1 else 0) + (if HasLower(p) then 1 else 0) +
    (if HasDigit(p) then 1 else 0) + (if HasSymbol(p) then 1 else 0)
  }

  /** The requirements the error message and the submit gate use: lower case
      letters are scored but not required. */
  predicate MeetsRequirements(p: string)
  {
    |p| >= 8 && HasUpper(p) && HasDigit(p) && HasSymbol(p)
  }

  /** getStrengthLabel: "Strong" from four criteria on. */
  function StrengthLabel(n: nat): (l: string)
    ensures l == "Strong" <==> n >= 4
  {
    if n == 0 then "Very Weak"
    else if n == 1 then "Weak"
    else if n == 2 then "Fair"
    else if n == 3 then "Good"
    else "Strong"
  }

  /** A password that meets the requirements scores at least 4 and is
      labelled "Strong"; a password scoring at most 3 fails them. */
  lemma RequirementsMeanStrong(p: string)
    ensures MeetsRequirements(p) ==> Strength(p) >= 4 && StrengthLabel(Strength(p)) == "Strong"
    ensures Strength(p) <= 3 ==> !MeetsRequirements(p)
  {
  }

  /** A password with no lower-case letter can still meet the requirements. */
  lemma LowercaseNotRequired()
    ensures MeetsRequirements("PASSWORD1!") && !HasLower("PASSWORD1!")
    ensures Strength("PASSWORD1!") == 4
  {
    var p := "PASSWORD1!";
    assert 'A' <= p[0] <= 'Z';
    assert IsDigit(p[8]);
    assert p[9] in SYMBOLS by { assert SYMBOLS[0] == '!'; }
  }

  /** validateConfirmPassword. */
  function ConfirmError(password: string, confirm: string): (msg: string)
    ensures msg == "" <==> password == confirm
  {
    if password != confirm then MISMATCH_ERROR else ""
  }

  class SignupForm {
    var name: string
    var email: string
    var password: string
    var confirmPassword: string
    var loading: bool
    var emailError: string
    var passwordError: string
    var confirmPasswordError: string
    var passwordStrength: nat
    var hasMinLength: bool
    var hasCapital: bool
    var hasLowercase: bool
    var hasNumber: bool
    var hasSpecial: bool
    /** Where the page navigated after a successful signup, if it did. */
    var navigatedTo: Option<string>

    /** The indicators describe the password now in the field. The effect
        skips an empty password, so after the field is cleared they keep
        describing the last non-empty one. */
    predicate IndicatorsCurrent()
      reads this
    {
      && hasMinLength == (|password| >= 8)
      && hasCapital == HasUpper(password)
      && hasLowercase == HasLower(password)
      && hasNumber == HasDigit(password)
      && hasSpecial == HasSymbol(password)
      && passwordStrength == Strength(password)
      && passwordError == (if MeetsRequirements(password) then "" else PASSWORD_ERROR)
    }

    /** The submit button: disabled while loading, while any error is shown,
        or while the password is empty. */
    predicate SubmitEnabled()
      reads this
    {
      !loading && passwordError == "" && emailError == "" && confirmPasswordError == "" && password != ""
    }

    /** An enabled button on current indicators means the password part of
        handleSubmit's check passes. The e-mail part may still fail: the
        e-mail error is set only when the field loses focus, so an address
        typed but never left shows no error. */
    lemma EnabledPasswordPasses()
      requires SubmitEnabled() && IndicatorsCurrent()
      ensures hasMinLength && hasCapital && hasNumber && hasSpecial && MeetsRequirements(password)
    {
    }

    constructor ()
      ensures name == "" && email == "" && password == "" && confirmPassword == "" && !loading
      ensures emailError == "" && passwordError == "" && confirmPasswordError == "" && passwordStrength == 0
      ensures !hasMinLength && !hasCapital && !hasLowercase && !hasNumber && !hasSpecial
      ensures navigatedTo.None?
    {
      name, email, password, confirmPassword := "", "", "", "";
      loading := false;
      emailError, passwordError, confirmPasswordError := "", "", "";
      passwordStrength := 0;
      hasMinLength, hasCapital, hasLowercase, hasNumber, hasSpecial := false, false, false, false, false;
      navigatedTo := None;
    }

    /** The effect on `[password, confirmPassword]`. */
    method PasswordEffect()
      modifies this`hasMinLength, this`hasCapital, this`hasLowercase, this`hasNumber, this`hasSpecial
      modifies this`passwordStrength, this`passwordError, this`confirmPasswordError
      ensures password != "" ==> IndicatorsCurrent()
      ensures password != "" && confirmPassword != "" ==>
                confirmPasswordError == ConfirmError(password, confirmPassword)
      ensures password == "" || confirmPassword == "" ==> confirmPasswordError == old(confirmPasswordError)
      ensures password == "" ==> unchanged(this)
    {
      if password != "" {
        RateRequirements();
        if confirmPassword != "" {
          confirmPasswordError := ConfirmError(password, confirmPassword);
        }
      }
    }

    /** The effect's checks on a non-empty password: the five indicators,
        the count of those met, and the requirements error. */
    method RateRequirements()
      requires password != ""
      modifies this`hasMinLength, this`hasCapital, this`hasLowercase, this`hasNumber, this`hasSpecial
      modifies this`passwordStrength, this`passwordError
      ensures IndicatorsCurrent()
    {
      var p := password;
      var minLength := |p| >= 8;
      var upper := HasUpper(p);
      var lower := HasLower(p);
      var digit := HasDigit(p);
      var symbol := HasSymbol(p);
      hasMinLength, hasCapital, hasLowercase, hasNumber, hasSpecial := minLength, upper, lower, digit, symbol;
      var strength := 0;
      if minLength { strength := strength + 1; }
      if upper { strength := strength + 1; }
      if lower { strength := strength + 1; }
      if digit { strength := strength + 1; }
      if symbol { strength := strength + 1; }
      passwordStrength := strength;
      if !(minLength && upper && digit && symbol) {
        passwordError := PASSWORD_ERROR;
      } else {
        passwordError := "";
      }
    }

    /** Typing in the password field, then the effect. An empty password
        leaves the indicators, strength and errors as they were. */
    method SetPassword(p: string)
      modifies this`password
      modifies this`hasMinLength, this`hasCapital, this`hasLowercase, this`hasNumber, this`hasSpecial
      modifies this`passwordStrength, this`passwordError, this`confirmPasswordError
      ensures password == p
      ensures p != "" ==> IndicatorsCurrent()
      ensures p != "" && confirmPassword != "" ==> confirmPasswordError == ConfirmError(p, confirmPassword)
      ensures p == "" || confirmPassword == "" ==> confirmPasswordError == old(confirmPasswordError)
      ensures p == "" ==>
                && hasMinLength == old(hasMinLength) && hasCapital == old(hasCapital)
                && hasLowercase == old(hasLowercase) && hasNumber == old(hasNumber)
                && hasSpecial == old(hasSpecial) && passwordStrength == old(passwordStrength)
                && passwordError == old(passwordError)
    {
      password := p;
      PasswordEffect();
    }

    /** Typing in the confirmation field; the same effect runs, since it
        depends on both fields. */
    method SetConfirmPassword(c: string)
      modifies this`confirmPassword
      modifies this`hasMinLength, this`hasCapital, this`hasLowercase, this`hasNumber, this`hasSpecial
      modifies this`passwordStrength, this`passwordError, this`confirmPasswordError
      ensures confirmPassword == c
      ensures password != "" ==> IndicatorsCurrent()
      ensures password != "" && c != "" ==> confirmPasswordError == ConfirmError(password, c)
      ensures password == "" || c == "" ==> confirmPasswordError == old(confirmPasswordError)
      ensures password == "" ==>
                && hasMinLength == old(hasMinLength) && hasCapital == old(hasCapital)
                && hasLowercase == old(hasLowercase) && hasNumber == old(hasNumber)
                && hasSpecial == old(hasSpecial) && passwordStrength == old(passwordStrength)
                && passwordError == old(passwordError)
    {
      confirmPassword := c;
      PasswordEffect();
    }

    method SetName(n: string)
      modifies this`name
      ensures name == n
    {
      name := n;
    }

    /** Typing in the e-mail field; the check runs when the field loses focus. */
    method SetEmail(e: string)
      modifies this`email
      ensures email == e
    {
      email := e;
    }

    method BlurEmail()
      modifies this`emailError
      ensures emailError == (if ValidEmail(email) then "" else EMAIL_ERROR)
    {
      emailError := if ValidEmail(email) then "" else EMAIL_ERROR;
    }

    /** handleSubmit: refreshes the e-mail and confirmation errors, and calls
        signup only when the e-mail is valid, the requirement flags hold and
        the passwords match. */
    method Submit(session: Session, db: Db, now: int, reachable: bool) returns (called: bool, ok: bool)
      requires db.Valid()
      modifies this`emailError, this`confirmPasswordError, this`loading, this`navigatedTo
      modifies session`currentUser, session`storedUserId, db`users, db`nextId
      ensures db.Valid()
      ensures emailError == (if ValidEmail(email) then "" else EMAIL_ERROR)
      ensures confirmPasswordError == ConfirmError(password, confirmPassword)
      ensures loading == (if called then false else old(loading))
      ensures called <==> ValidEmail(email) && hasMinLength && hasCapital && hasNumber && hasSpecial &&
                          password == confirmPassword
      ensures called && IndicatorsCurrent() ==> MeetsRequirements(password)
      ensures old(SubmitEnabled()) && IndicatorsCurrent() && password == confirmPassword ==>
                (called <==> ValidEmail(email))
      ensures !called ==> !ok && unchanged(db) && unchanged(session)
      ensures called ==>
                (ok <==> reachable && !EmailTaken(old(db.users), email)) &&
                (ok ==> session.currentUser == Some(Row(old(db.nextId),
                          NewUser(SignupData(name, email, password, None, None, None), now))))
      ensures !ok ==> unchanged(db)
      ensures navigatedTo == if ok then Some(AFTER_SIGNUP) else old(navigatedTo)
    {
      var pass := CheckFields();
      if !pass {
        return false, false;
      }
      called := true;
      ok := Register(session, db, now, reachable);
    }

    /** The checks at the head of handleSubmit: both errors are refreshed,
        and the result says whether signup may be called. */
    method CheckFields() returns (pass: bool)
      modifies this`emailError, this`confirmPasswordError
      ensures emailError == (if ValidEmail(email) then "" else EMAIL_ERROR)
      ensures confirmPasswordError == ConfirmError(password, confirmPassword)
      ensures pass <==> ValidEmail(email) && hasMinLength && hasCapital && hasNumber && hasSpecial &&
                        password == confirmPassword
      ensures old(SubmitEnabled()) && IndicatorsCurrent() && password == confirmPassword ==>
                (pass <==> ValidEmail(email))
    {
      if SubmitEnabled() && IndicatorsCurrent() {
        EnabledPasswordPasses();
      }
      var emailOk := ValidEmail(email);
      emailError := if emailOk then "" else EMAIL_ERROR;
      confirmPasswordError := ConfirmError(password, confirmPassword);
      pass := emailOk && hasMinLength && hasCapital && hasNumber && hasSpecial && password == confirmPassword;
    }

    /** The `try` of handleSubmit: signup with the form's fields, then the
        profile page on success; `loading` is off again in every case. */
    method Register(session: Session, db: Db, now: int, reachable: bool) returns (ok: bool)
      requires db.Valid()
      modifies this`loading, this`navigatedTo
      modifies session`currentUser, session`storedUserId, db`users, db`nextId
      ensures db.Valid() && !loading
      ensures ok <==> reachable && !EmailTaken(old(db.users), email)
      ensures ok ==> session.currentUser == Some(Row(old(db.nextId),
                       NewUser(SignupData(name, email, password, None, None, None), now)))
      ensures !ok ==> unchanged(db) && unchanged(session)
      ensures navigatedTo == if ok then Some(AFTER_SIGNUP) else old(navigatedTo)
    {
      loading := true;
      ok := session.Signup(db, name, email, password, now, reachable);
      if ok {
        navigatedTo := Some(AFTER_SIGNUP);
      }
      loading := false;
    }
  }
}
