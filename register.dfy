/** The registration form: four checks run in a fixed order, the first failing
    one names the error, and only a form that passes all four is handed to the
    authentication context's `register`. */
module Register {
  import opened Common
  import Numerals

  const EmailSuffix := "@vit.ac.in"
  const PhoneDigits: nat := 10
  const MinJoiningYear := 2000

  const ErrPasswordMismatch := "Passwords do not match"
  const ErrEmail := "Please use your VIT email address"
  const ErrPhone := "Phone number must be 10 digits"
  const ErrJoiningYear := "Please enter a valid joining year"
  const ErrRegisterFallback := "Failed to register"

  /** The text fields of the form, as typed. */
  datatype RegistrationForm = RegistrationForm(
    name: string, email: string, password: string, confirmPassword: string,
    regNo: string, school: string, joiningYear: string, phoneNumber: string)

  /** The record handed to `register`: the joining year is a number, and the
      confirmation password is not sent. */
  datatype Payload = Payload(
    name: string, email: string, password: string, regNo: string,
    school: string, joiningYear: int, phoneNumber: string)

  /** `String.prototype.endsWith`. */
  predicate EndsWith(s: string, suffix: string)
  {
    |suffix| <= |s| && s[|s| - |suffix|..] == suffix
  }

  /** Whether the pattern `\d{k}$` matches `s` from its first character: the
      regular expression is tried digit by digit, ASCII digits only, and `$`
      (no multiline flag) matches only at the end of the input. */
  predicate MatchesDigitsToEnd(s: string, k: nat)
  {
    if k == 0 then |s| == 0
    else |s| > 0 && Numerals.IsDecimalDigit(s[0]) && MatchesDigitsToEnd(s[1..], k - 1)
  }

  /** `/^\d{10}$/.test(phoneNumber)`. */
  predicate IsPhoneNumber(s: string)
  {
    MatchesDigitsToEnd(s, PhoneDigits)
  }

  predicate AllDigits(s: string)
  {
    forall i :: 0 <= i < |s| ==> Numerals.IsDecimalDigit(s[i])
  }

  /** The pattern matches exactly the strings of `k` digits. */
  lemma {:induction false} MatchesDigitsToEndIff(s: string, k: nat)
    ensures MatchesDigitsToEnd(s, k) <==> |s| == k && AllDigits(s)
  {
    if k > 0 && |s| > 0 {
      MatchesDigitsToEndIff(s[1..], k - 1);
      if |s| == k && AllDigits(s) {
        assert AllDigits(s[1..]) by {
          forall i | 0 <= i < |s[1..]| ensures Numerals.IsDecimalDigit(s[1..][i]) {
            assert s[1..][i] == s[i + 1];
          }
        }
      }
      if MatchesDigitsToEnd(s, k) {
        forall i | 0 <= i < |s| ensures Numerals.IsDecimalDigit(s[i]) {
          if i > 0 { assert s[i] == s[1..][i - 1]; }
        }
      }
    }
  }

  /** A phone number is accepted exactly when it is ten characters, each 0-9. */
  lemma PhoneNumberIsTenDigits(s: string)
    ensures IsPhoneNumber(s) <==> |s| == 10 && AllDigits(s)
    ensures !IsPhoneNumber("12345") && !IsPhoneNumber("12345678901") && IsPhoneNumber("1234567890")
  {
    MatchesDigitsToEndIff(s, PhoneDigits);
    MatchesDigitsToEndIff("12345", PhoneDigits);
    MatchesDigitsToEndIff("12345678901", PhoneDigits);
    MatchesDigitsToEndIff("1234567890", PhoneDigits);
  }

  /** The year check: `parseInt` must give a number, neither below 2000 nor
      above the current year; both bounds are inclusive. */
  predicate IsValidJoiningYear(s: string, currentYear: int)
  {
    var y := Numerals.ParseInt(s);
    y.Some? && MinJoiningYear <= y.value <= currentYear
  }

  /** A year typed as its decimal numeral is accepted exactly when it lies in
      [2000, currentYear]. */
  lemma JoiningYearRange(y: nat, currentYear: int)
    ensures IsValidJoiningYear(Numerals.ToDecimal(y), currentYear) <==> MinJoiningYear <= y <= currentYear
  {
    Numerals.ParseIntOfDecimal(y, "");
  }

  /** A field without a single digit is NaN for `parseInt` and is rejected. */
  lemma JoiningYearWithoutDigits(s: string, currentYear: int)
    requires forall i :: 0 <= i < |s| ==> !Numerals.IsDecimalDigit(s[i])
    ensures !IsValidJoiningYear(s, currentYear)
  {
    Numerals.NoDigitMeansNaN(s);
  }

  /** The checks of `handleSubmit`, in the order it runs them: whether each
      passes, and the message it reports when it does not. */
  function Checks(f: RegistrationForm, currentYear: int): seq<(bool, string)>
  {
    [ (f.password == f.confirmPassword, ErrPasswordMismatch),
      (EndsWith(f.email, EmailSuffix), ErrEmail),
      (IsPhoneNumber(f.phoneNumber), ErrPhone),
      (IsValidJoiningYear(f.joiningYear, currentYear), ErrJoiningYear) ]
  }

  /** The message of the first check that fails, if any. */
  function FirstFailure(checks: seq<(bool, string)>): (m: Option<string>)
    ensures m.None? <==> forall i :: 0 <= i < |checks| ==> checks[i].0
    ensures m.Some? ==> exists i :: 0 <= i < |checks| && !checks[i].0 && checks[i].1 == m.value
                          && forall j :: 0 <= j < i ==> checks[j].0
  {
    if |checks| == 0 then None
    else if !checks[0].0 then Some(checks[0].1)
    else
      var m := FirstFailure(checks[1..]);
      assert forall i :: 1 <= i < |checks| ==> checks[i] == checks[1..][i - 1];
      if m.Some? then
        ghost var k :| 0 <= k < |checks[1..]| && !checks[1..][k].0 && checks[1..][k].1 == m.value
                       && forall j :: 0 <= j < k ==> checks[1..][j].0;
        assert forall j :: 0 <= j < k + 1 ==> checks[j].0 by {
          forall j | 0 <= j < k + 1 ensures checks[j].0 {
            if j > 0 { assert checks[j] == checks[1..][j - 1]; }
          }
        }
        m
      else m
  }

  /** The payload built after every check passed. */
  function PayloadOf(f: RegistrationForm, joiningYear: int): Payload
  {
    Payload(f.name, f.email, f.password, f.regNo, f.school, joiningYear, f.phoneNumber)
  }

  /** The validation chain of `handleSubmit`: a password mismatch wins over
      everything else, the form passes exactly when all four checks do, and the
      payload's joining year is the parsed number while its other fields are
      the form's own. */
  function Validate(f: RegistrationForm, currentYear: int): (r: Result<Payload>)
    ensures f.password != f.confirmPassword ==> r == Failure(ErrPasswordMismatch)
    ensures r.Success? <==> f.password == f.confirmPassword && EndsWith(f.email, EmailSuffix)
                            && IsPhoneNumber(f.phoneNumber) && IsValidJoiningYear(f.joiningYear, currentYear)
    ensures r.Success? ==> r.value.joiningYear == Numerals.ParseInt(f.joiningYear).value
                           && MinJoiningYear <= r.value.joiningYear <= currentYear
    ensures r.Success? ==> r.value.name == f.name && r.value.email == f.email
                           && r.value.password == f.password && r.value.regNo == f.regNo
                           && r.value.school == f.school && r.value.phoneNumber == f.phoneNumber
  {
    if f.password != f.confirmPassword then Failure(ErrPasswordMismatch)
    else if !EndsWith(f.email, EmailSuffix) then Failure(ErrEmail)
    else if !IsPhoneNumber(f.phoneNumber) then Failure(ErrPhone)
    else
      var joiningYear := Numerals.ParseInt(f.joiningYear);
      if joiningYear.None? || joiningYear.value < MinJoiningYear || joiningYear.value > currentYear
      then Failure(ErrJoiningYear)
      else Success(PayloadOf(f, Numerals.ParseInt(f.joiningYear).value))
  }

  /** The error `handleSubmit` reports is that of the first failing check in
      the order of `Checks`, and there is one exactly when some check fails. */
  lemma ValidateReportsFirstFailure(f: RegistrationForm, currentYear: int)
    ensures Validate(f, currentYear).Failure? <==> FirstFailure(Checks(f, currentYear)).Some?
    ensures Validate(f, currentYear).Failure? ==>
              Validate(f, currentYear).error == FirstFailure(Checks(f, currentYear)).value
  {
    var c := Checks(f, currentYear);
    assert c[1..][1..][1..][1..] == [];
    assert FirstFailure(c[1..][1..][1..]) == if c[3].0 then None else Some(c[3].1);
    assert FirstFailure(c[1..][1..]) == if !c[2].0 then Some(c[2].1) else FirstFailure(c[1..][1..][1..]);
    assert FirstFailure(c[1..]) == if !c[1].0 then Some(c[1].1) else FirstFailure(c[1..][1..]);
  }

  /** An e-mail address is accepted only with the exact suffix "@vit.ac.in";
      when the passwords match, any other address reports the e-mail error. */
  lemma EmailSuffixDecides(f: RegistrationForm, currentYear: int)
    requires f.password == f.confirmPassword
    ensures !EndsWith(f.email, EmailSuffix) <==> Validate(f, currentYear) == Failure(ErrEmail)
  {
  }

  /** The chain of Validate, one check at a time. */
  lemma ValidateSteps(f: RegistrationForm, currentYear: int)
    ensures f.password != f.confirmPassword ==> Validate(f, currentYear) == Failure(ErrPasswordMismatch)
    ensures f.password == f.confirmPassword && !EndsWith(f.email, EmailSuffix) ==>
              Validate(f, currentYear) == Failure(ErrEmail)
    ensures f.password == f.confirmPassword && EndsWith(f.email, EmailSuffix) && !IsPhoneNumber(f.phoneNumber) ==>
              Validate(f, currentYear) == Failure(ErrPhone)
    ensures f.password == f.confirmPassword && EndsWith(f.email, EmailSuffix) && IsPhoneNumber(f.phoneNumber) ==>
              var y := Numerals.ParseInt(f.joiningYear);
              Validate(f, currentYear) ==
                if y.None? || y.value < MinJoiningYear || y.value > currentYear then Failure(ErrJoiningYear)
                else Success(PayloadOf(f, y.value))
  {
  }

  /** The field names of the form's state record. */
  const FieldNames: set<string> :=
    {"name", "email", "password", "confirmPassword", "regNo", "school", "joiningYear", "phoneNumber"}

  /** The registration page's state. `formData` is a record keyed by the input
      names, replaced as a whole on every change; `registered` holds the
      payloads handed to `register`, oldest first. */
  class RegisterPage {
    var formData: map<string, string>
    var error: string
    var registered: seq<Payload>
    var navigatedTo: Option<string>

    ghost predicate Valid()
      reads this`formData
    {
      FieldNames <= formData.Keys
    }

    function Form(): RegistrationForm
      reads this`formData
      requires Valid()
    {
      RegistrationForm(formData["name"], formData["email"], formData["password"],
                       formData["confirmPassword"], formData["regNo"], formData["school"],
                       formData["joiningYear"], formData["phoneNumber"])
    }

    constructor ()
      ensures Valid() && formData.Keys == FieldNames
      ensures Form() == RegistrationForm("", "", "", "", "", "", "", "")
      ensures error == "" && registered == [] && navigatedTo == None
    {
      formData := map k | k in FieldNames :: "";
      error := "";
      registered := [];
      navigatedTo := None;
    }

    /** `handleChange`: the field named by the input gets its new value. */
    method HandleChange(name: string, value: string)
      requires Valid()
      modifies this`formData
      ensures Valid() && formData == old(formData)[name := value]
    {
      formData := formData[name := value];
    }

    /** `handleSubmit`: clear the error, stop at the first failing check with
      its message, otherwise call `register` with the payload; `outcome` is
      what that call ended with. */
    method HandleSubmit(currentYear: int, outcome: Response<()>)
      requires Valid()
      modifies this`error, this`registered, this`navigatedTo
      ensures Valid() && formData == old(formData)
      ensures Validate(Form(), currentYear).Failure? ==>
                error == Validate(Form(), currentYear).error
                && registered == old(registered) && navigatedTo == old(navigatedTo)
      ensures Validate(Form(), currentYear).Success? ==>
                registered == old(registered) + [Validate(Form(), currentYear).value]
      ensures Validate(Form(), currentYear).Success? && outcome.Ok? ==>
                error == "" && navigatedTo == Some("/dashboard")
      ensures Validate(Form(), currentYear).Success? && outcome.Failed? ==>
                error == OrElse(outcome.serverMessage, ErrRegisterFallback)
                && navigatedTo == old(navigatedTo)
    {
      error := "";
      var f := Form();
      ValidateSteps(f, currentYear);
      if f.password != f.confirmPassword {
        error := ErrPasswordMismatch;
        return;
      }
      if !EndsWith(f.email, EmailSuffix) {
        error := ErrEmail;
        return;
      }
      if !IsPhoneNumber(f.phoneNumber) {
        error := ErrPhone;
        return;
      }
      var joiningYear := Numerals.ParseInt(f.joiningYear);
      if joiningYear.None? || joiningYear.value < MinJoiningYear || joiningYear.value > currentYear {
        error := ErrJoiningYear;
        return;
      }
      var payload := PayloadOf(f, joiningYear.value);
      registered := registered + [payload];
      match outcome
      case Ok(_) =>
        navigatedTo := Some("/dashboard");
      case Failed(serverMessage, _) =>
        error := OrElse(serverMessage, ErrRegisterFallback);
    }
  }
}
