/**
 * The farmer login and registration forms of frontend/auth.js: early-return
 * guard chains over the field values, where the first failing check decides
 * the alert shown, and the login phone prefilled after a registration.
 */
module Auth {
  import opened Text

  /** What a form check decides: go ahead, or stop with an alert message. */
  datatype Validation = Valid | Invalid(message: string)

  const FillAllFields := "Please fill in all fields"
  const InvalidPhone := "Please enter a valid 10-digit phone number"
  const PasswordTooShort := "Password must be at least 6 characters long"
  const PasswordMismatch := "Passwords do not match"
  const TermsRequired := "Please agree to the Terms & Conditions"

  const MinPasswordLength := 6

  /** `/^\d{10}$/.test(phone)`: exactly ten characters, each in '0'..'9'. */
  predicate IsTenDigitPhone(phone: string)
  {
    |phone| == 10 && AllDigits(phone)
  }

  /* ---------- a guard chain in general ---------- */

  /** One guard of a chain: the condition the input must meet, and the alert otherwise. */
  datatype Check = Check(holds: bool, message: string)

  /**
   * Runs the checks in order and stops at the first that fails: the result is
   * valid exactly when every check holds, and otherwise carries the message of
   * the first check that does not.
   */
  function FirstFailure(checks: seq<Check>): (v: Validation)
    ensures v.Valid? <==> forall i :: 0 <= i < |checks| ==> checks[i].holds
    ensures v.Invalid? ==>
              exists i :: 0 <= i < |checks| && !checks[i].holds && v.message == checks[i].message
                          && forall j :: 0 <= j < i ==> checks[j].holds
    decreases |checks|
  {
    if checks == [] then Valid
    else if !checks[0].holds then Invalid(checks[0].message)
    else
      var v := FirstFailure(checks[1..]);
      assert v.Invalid? ==> exists i :: 1 <= i < |checks| && !checks[i].holds && v.message == checks[i].message
                                        && forall j :: 0 <= j < i ==> checks[j].holds by {
        if v.Invalid? {
          var i :| 0 <= i < |checks| - 1 && !checks[1..][i].holds && v.message == checks[1..][i].message
                   && forall j :: 0 <= j < i ==> checks[1..][j].holds;
          forall j | 1 <= j < i + 1
            ensures checks[j].holds
          {
            assert checks[j] == checks[1..][j - 1];
          }
        }
      }
      v
  }

  /* ---------- login ---------- */

  /** Login: both fields filled, then a ten-digit phone. */
  function ValidateLogin(phone: string, password: string): (v: Validation)
    ensures v == Invalid(FillAllFields) <==> phone == "" || password == ""
    ensures v == Invalid(InvalidPhone) <==> phone != "" && password != "" && !IsTenDigitPhone(phone)
    ensures v == Valid <==> password != "" && IsTenDigitPhone(phone)
  {
    if phone == "" || password == "" then Invalid(FillAllFields)
    else if !IsTenDigitPhone(phone) then Invalid(InvalidPhone)
    else Valid
  }

  function LoginChecks(phone: string, password: string): seq<Check>
  {
    [ Check(phone != "" && password != "", FillAllFields),
      Check(IsTenDigitPhone(phone), InvalidPhone) ]
  }

  /** The login form reports the first failing check of its chain. */
  lemma LoginIsFirstFailure(phone: string, password: string)
    ensures ValidateLogin(phone, password) == FirstFailure(LoginChecks(phone, password))
  {
    var checks := LoginChecks(phone, password);
    assert checks[1..][1..] == [];
  }

  /* ---------- registration ---------- */

  datatype RegistrationForm = RegistrationForm(
    name: string,
    phone: string,
    location: string,
    password: string,
    confirmPassword: string,
    agreeTerms: bool)

  predicate AnyEmpty(f: RegistrationForm)
  {
    f.name == "" || f.phone == "" || f.location == "" || f.password == "" || f.confirmPassword == ""
  }

  /**
   * Registration: all five text fields filled, then a ten-digit phone, then a
   * password of at least six UTF-16 code units (what `length` counts), then a
   * matching confirmation, then the terms accepted. Each message is reported exactly when its check is the
   * first to fail, and the form is valid exactly when all five hold.
   */
  function ValidateRegistration(f: RegistrationForm): (v: Validation)
    ensures v == Invalid(FillAllFields) <==> AnyEmpty(f)
    ensures v == Invalid(InvalidPhone) <==> !AnyEmpty(f) && !IsTenDigitPhone(f.phone)
    ensures v == Invalid(PasswordTooShort) <==>
              !AnyEmpty(f) && IsTenDigitPhone(f.phone) && Utf16Length(f.password) < MinPasswordLength
    ensures v == Invalid(PasswordMismatch) <==>
              !AnyEmpty(f) && IsTenDigitPhone(f.phone) && Utf16Length(f.password) >= MinPasswordLength
              && f.password != f.confirmPassword
    ensures v == Invalid(TermsRequired) <==>
              !AnyEmpty(f) && IsTenDigitPhone(f.phone) && Utf16Length(f.password) >= MinPasswordLength
              && f.password == f.confirmPassword && !f.agreeTerms
    ensures v == Valid <==>
              !AnyEmpty(f) && IsTenDigitPhone(f.phone) && Utf16Length(f.password) >= MinPasswordLength
              && f.password == f.confirmPassword && f.agreeTerms
  {
    if AnyEmpty(f) then Invalid(FillAllFields)
    else if !IsTenDigitPhone(f.phone) then Invalid(InvalidPhone)
    else if Utf16Length(f.password) < MinPasswordLength then Invalid(PasswordTooShort)
    else if f.password != f.confirmPassword then Invalid(PasswordMismatch)
    else if !f.agreeTerms then Invalid(TermsRequired)
    else Valid
  }

  function RegistrationChecks(f: RegistrationForm): seq<Check>
  {
    [ Check(!AnyEmpty(f), FillAllFields),
      Check(IsTenDigitPhone(f.phone), InvalidPhone),
      Check(Utf16Length(f.password) >= MinPasswordLength, PasswordTooShort),
      Check(f.password == f.confirmPassword, PasswordMismatch),
      Check(f.agreeTerms, TermsRequired) ]
  }

  /** The registration form reports the first failing check of its chain, in the order above. */
  lemma RegistrationIsFirstFailure(f: RegistrationForm)
    ensures ValidateRegistration(f) == FirstFailure(RegistrationChecks(f))
  {
    var checks := RegistrationChecks(f);
    assert checks[5..] == [];
    assert FirstFailure(checks[4..]) == if f.agreeTerms then Valid else Invalid(TermsRequired);
    assert FirstFailure(checks[3..]) ==
             if f.password != f.confirmPassword then Invalid(PasswordMismatch) else FirstFailure(checks[4..]);
    assert FirstFailure(checks[2..]) ==
             if Utf16Length(f.password) < MinPasswordLength then Invalid(PasswordTooShort) else FirstFailure(checks[3..]);
    assert FirstFailure(checks[1..]) ==
             if !IsTenDigitPhone(f.phone) then Invalid(InvalidPhone) else FirstFailure(checks[2..]);
  }

  /**
   * After a successful registration the login phone field holds the
   * registered phone; after a rejected one it keeps what it held.
   */
  function PrefillLoginPhone(f: RegistrationForm, loginPhone: string): (phone: string)
    ensures ValidateRegistration(f).Valid? ==> phone == f.phone
    ensures !ValidateRegistration(f).Valid? ==> phone == loginPhone
  {
    if ValidateRegistration(f).Valid? then f.phone else loginPhone
  }

  /** The prefilled phone with the registered password passes the login checks. */
  lemma RegisteredUserPassesLogin(f: RegistrationForm, loginPhone: string)
    requires ValidateRegistration(f).Valid?
    ensures ValidateLogin(PrefillLoginPhone(f, loginPhone), f.password) == Valid
  {
  }
}
