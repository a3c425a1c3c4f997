// The donor's registration form: no input masks, a "required" check on nine
// of its twelve fields, then the mobile, e-mail, weight, age and
// password-match checks that may replace a field's message. The page's
// submit only validates: it sends nothing to the server.
module DonorRegisterPage {
  import opened Common
  import opened Forms
  import opened Calendar
  import DonorSchema
  import Browser

  datatype RegisterForm = RegisterForm(
    fullName: string, email: string, mobile: string, dob: string, gender: string, bloodGroup: string,
    weight: string, lastDonationDate: string, hasDisease: string, hadSurgery: string, password: string,
    confirmPassword: string)

  const InitialForm := RegisterForm("", "", "", "", "", "", "", "", "", "", "", "")

  datatype Field = FullName | Email | Mobile | Dob | GenderField | BloodGroupField | Weight | LastDonationDate
                 | HasDisease | HadSurgery | Password | ConfirmPassword

  function Name(f: Field): string
  {
    match f
    case FullName => "fullName"
    case Email => "email"
    case Mobile => "mobile"
    case Dob => "dob"
    case GenderField => "gender"
    case BloodGroupField => "bloodGroup"
    case Weight => "weight"
    case LastDonationDate => "lastDonationDate"
    case HasDisease => "hasDisease"
    case HadSurgery => "hadSurgery"
    case Password => "password"
    case ConfirmPassword => "confirmPassword"
  }

  function SetField(r: RegisterForm, f: Field, value: string): RegisterForm
  {
    match f
    case FullName => r.(fullName := value)
    case Email => r.(email := value)
    case Mobile => r.(mobile := value)
    case Dob => r.(dob := value)
    case GenderField => r.(gender := value)
    case BloodGroupField => r.(bloodGroup := value)
    case Weight => r.(weight := value)
    case LastDonationDate => r.(lastDonationDate := value)
    case HasDisease => r.(hasDisease := value)
    case HadSurgery => r.(hadSurgery := value)
    case Password => r.(password := value)
    case ConfirmPassword => r.(confirmPassword := value)
  }

  /** `requiredFields` with the values, in the order of the list. */
  function Required(r: RegisterForm): seq<(string, string)>
  {
    [("fullName", r.fullName), ("email", r.email), ("mobile", r.mobile), ("dob", r.dob),
     ("gender", r.gender), ("bloodGroup", r.bloodGroup), ("weight", r.weight), ("password", r.password),
     ("confirmPassword", r.confirmPassword)]
  }

  const FieldNames: set<string> := {"fullName", "email", "mobile", "dob", "gender", "bloodGroup", "weight",
                                     "password", "confirmPassword"}

  /** The form's own weight threshold. */
  const FormMinWeight: int := 45
  const AdultAge: int := 18

  /** `parseInt(weight) < 45`; a weight `parseInt` cannot read is never too low. */
  predicate Underweight(weight: string)
  {
    ParseInt(weight).Some? && ParseInt(weight).value < FormMinWeight
  }

  /**
   * The age computed from `new Date(dob)` and today's date is under 18; a
   * text that is no date gives `NaN`, and `NaN < 18` is false.
   */
  predicate TooYoung(dob: string, today: Date)
  {
    DateInput(dob).Some? && AgeOn(DateInput(dob).value, today) < AdultAge
  }

  /** Mismatching passwords are only reported when both are typed. */
  predicate Mismatch(r: RegisterForm)
  {
    r.password != "" && r.confirmPassword != "" && r.password != r.confirmPassword
  }

  const MobileMessage := "Enter a valid 10-digit mobile number."
  const EmailMessage := "Enter a valid email."
  const WeightMessage := "Weight must be at least 45kg to donate."
  const AgeMessage := "You must be at least 18 years old."
  const MismatchMessage := "Passwords do not match."

  /**
   * The message on each field once the required-field loop and then the
   * first `n` of the five checks after it have run.
   */
  predicate ReportsAfter(r: RegisterForm, today: Date, errors: Errors, n: nat)
  {
    errors.Keys <= FieldNames
    && Flagged(errors, "fullName", r.fullName == "", RequiredMessage)
    && Flagged(errors, "gender", r.gender == "", RequiredMessage)
    && Flagged(errors, "bloodGroup", r.bloodGroup == "", RequiredMessage)
    && Flagged(errors, "password", r.password == "", RequiredMessage)
    && Flagged(errors, "mobile", r.mobile == "" || (n >= 1 && !DigitsBetween(r.mobile, 10, 10)),
               if r.mobile == "" then RequiredMessage else MobileMessage)
    && Flagged(errors, "email", r.email == "" || (n >= 2 && !FormEmail(r.email)),
               if r.email == "" then RequiredMessage else EmailMessage)
    && Flagged(errors, "weight", r.weight == "" || (n >= 3 && Underweight(r.weight)),
               if r.weight == "" then RequiredMessage else WeightMessage)
    && Flagged(errors, "dob", r.dob == "" || (n >= 4 && TooYoung(r.dob, today)),
               if r.dob == "" then RequiredMessage else AgeMessage)
    && Flagged(errors, "confirmPassword", r.confirmPassword == "" || (n >= 5 && Mismatch(r)),
               if r.confirmPassword == "" then RequiredMessage else MismatchMessage)
  }

  /** The message `validate` leaves on each field. */
  predicate Reports(r: RegisterForm, today: Date, errors: Errors)
  {
    ReportsAfter(r, today, errors, 5)
  }

  /** The nine required fields are typed. */
  predicate AllTyped(r: RegisterForm)
  {
    r.fullName != "" && r.email != "" && r.mobile != "" && r.dob != "" && r.gender != ""
    && r.bloodGroup != "" && r.weight != "" && r.password != "" && r.confirmPassword != ""
  }

  /** The required-field loop over this form's list, read field by field. */
  lemma RequiredFields(r: RegisterForm, today: Date, errors: Errors, isValid: bool)
    requires errors.Keys <= Names(Required(r))
    requires forall i :: 0 <= i < |Required(r)| ==>
      Flagged(errors, Required(r)[i].0, Required(r)[i].1 == "", RequiredMessage)
    requires isValid <==> forall i :: 0 <= i < |Required(r)| ==> Required(r)[i].1 != ""
    ensures ReportsAfter(r, today, errors, 0)
    ensures isValid <==> AllTyped(r)
  {
    var fields := Required(r);
    forall k | k in errors ensures k in FieldNames {
      var i :| 0 <= i < |fields| && fields[i].0 == k;
    }
    assert fields[0].0 == "fullName" && fields[1].0 == "email" && fields[2].0 == "mobile";
    assert fields[3].0 == "dob" && fields[4].0 == "gender" && fields[5].0 == "bloodGroup";
    assert fields[6].0 == "weight" && fields[7].0 == "password" && fields[8].0 == "confirmPassword";
    if !AllTyped(r) {
      assert exists i :: 0 <= i < |fields| && fields[i].1 == "";
    }
  }

  /** `validate` on the given day: the messages it leaves, and a verdict that holds exactly when the form is acceptable. */
  method Validate(r: RegisterForm, today: Date) returns (errors: Errors, isValid: bool)
    ensures Reports(r, today, errors)
    ensures isValid <==> Acceptable(r, today)
  {
    errors, isValid := RequireAll(Required(r));
    RequiredFields(r, today, errors, isValid);
    errors, isValid := CheckMobile(r, today, errors, isValid);
    errors, isValid := CheckEmail(r, today, errors, isValid);
    errors, isValid := CheckWeight(r, today, errors, isValid);
    errors, isValid := CheckAge(r, today, errors, isValid);
    errors, isValid := CheckPasswords(r, today, errors, isValid);
  }

  /** `if (formData.mobile && !/^[0-9]{10}$/.test(formData.mobile))` */
  method CheckMobile(r: RegisterForm, today: Date, errors0: Errors, isValid0: bool)
    returns (errors: Errors, isValid: bool)
    requires ReportsAfter(r, today, errors0, 0)
    ensures ReportsAfter(r, today, errors, 1)
    ensures isValid <==> isValid0 && !(r.mobile != "" && !DigitsBetween(r.mobile, 10, 10))
  {
    errors, isValid := errors0, isValid0;
    if r.mobile != "" && !DigitsBetween(r.mobile, 10, 10) {
      errors := errors["mobile" := MobileMessage];
      isValid := false;
    }
  }

  /** `if (formData.email && !emailRegex.test(formData.email))` */
  method CheckEmail(r: RegisterForm, today: Date, errors0: Errors, isValid0: bool)
    returns (errors: Errors, isValid: bool)
    requires ReportsAfter(r, today, errors0, 1)
    ensures ReportsAfter(r, today, errors, 2)
    ensures isValid <==> isValid0 && !(r.email != "" && !FormEmail(r.email))
  {
    errors, isValid := errors0, isValid0;
    if r.email != "" && !FormEmail(r.email) {
      errors := errors["email" := EmailMessage];
      isValid := false;
    }
  }

  /** `if (formData.weight && parseInt(formData.weight) < 45)` */
  method CheckWeight(r: RegisterForm, today: Date, errors0: Errors, isValid0: bool)
    returns (errors: Errors, isValid: bool)
    requires ReportsAfter(r, today, errors0, 2)
    ensures ReportsAfter(r, today, errors, 3)
    ensures isValid <==> isValid0 && !(r.weight != "" && Underweight(r.weight))
  {
    errors, isValid := errors0, isValid0;
    if r.weight != "" && Underweight(r.weight) {
      errors := errors["weight" := WeightMessage];
      isValid := false;
    }
  }

  /** `if (formData.dob) { … if (age < 18) … }` */
  method CheckAge(r: RegisterForm, today: Date, errors0: Errors, isValid0: bool)
    returns (errors: Errors, isValid: bool)
    requires ReportsAfter(r, today, errors0, 3)
    ensures ReportsAfter(r, today, errors, 4)
    ensures isValid <==> isValid0 && !(r.dob != "" && TooYoung(r.dob, today))
  {
    errors, isValid := errors0, isValid0;
    if r.dob != "" && TooYoung(r.dob, today) {
      errors := errors["dob" := AgeMessage];
      isValid := false;
    }
  }

  /** `if (password && confirmPassword) { if (password !== confirmPassword) … }`, both tests at once. */
  method CheckPasswords(r: RegisterForm, today: Date, errors0: Errors, isValid0: bool)
    returns (errors: Errors, isValid: bool)
    requires ReportsAfter(r, today, errors0, 4)
    ensures ReportsAfter(r, today, errors, 5)
    ensures isValid <==> isValid0 && !Mismatch(r)
  {
    errors, isValid := errors0, isValid0;
    if Mismatch(r) {
      errors := errors["confirmPassword" := MismatchMessage];
      isValid := false;
    }
  }

  /** The conditions under which the form is accepted, field by field. */
  predicate Acceptable(r: RegisterForm, today: Date)
  {
    r.fullName != "" && r.gender != "" && r.bloodGroup != "" && DigitsBetween(r.mobile, 10, 10)
    && FormEmail(r.email) && r.weight != "" && !Underweight(r.weight) && r.dob != "" && !TooYoung(r.dob, today)
    && r.password != "" && r.password == r.confirmPassword
  }

  /**
   * What the browser checks before `handleSubmit` runs: the e-mail input
   * holds an address or nothing, and the weight input a whole number or
   * nothing.
   */
  predicate BrowserAllows(r: RegisterForm)
  {
    Browser.EmailValue(r.email) && Browser.NumberValue(r.weight)
  }

  /** The messages left by `validate` are all gone exactly when the form is acceptable. */
  lemma ValidExactly(r: RegisterForm, today: Date, errors: Errors)
    requires Reports(r, today, errors)
    ensures errors.Keys == {} <==> Acceptable(r, today)
  {
    AcceptedLeavesNone(r, today, errors);
    NoneLeftAccepted(r, today, errors);
  }

  lemma AcceptedLeavesNone(r: RegisterForm, today: Date, errors: Errors)
    requires Reports(r, today, errors)
    ensures Acceptable(r, today) ==> errors.Keys == {}
  {
  }

  lemma NoneLeftAccepted(r: RegisterForm, today: Date, errors: Errors)
    requires Reports(r, today, errors)
    ensures errors.Keys == {} ==> Acceptable(r, today)
  {
  }

  /** For a weight of digits, the form's test is the schema's minimum of 45 kg. */
  lemma WeightAsSchema(weight: string)
    requires weight != "" && AllDigits(weight)
    ensures !Underweight(weight) <==> DecimalValue(weight) >= DonorSchema.MinWeight
  {
    ParseIntOfDigits(weight);
  }

  /** For a date of birth the form can read, it passes exactly when the 18th birthday is today or earlier. */
  lemma AdultOnBirthday(dob: string, today: Date)
    requires DateInput(dob).Some?
    ensures var b := DateInput(dob).value;
      !TooYoung(dob, today) <==> OnOrBefore(Date(b.year + AdultAge, b.month, b.day), today)
  {
    AgeAtLeast(DateInput(dob).value, today, AdultAge);
  }

  /** A date of birth that is no date passes the age check whatever the day. */
  lemma UnreadableDobPasses(r: RegisterForm, today: Date)
    requires r.dob == "x"
    ensures !TooYoung(r.dob, today)
  {
  }

  class Page {
    var formData: RegisterForm
    var errors: Errors

    constructor ()
      ensures formData == InitialForm && errors == map[]
    {
      formData, errors := InitialForm, map[];
    }

    /** `handleChange`: the value is stored as typed and the field's message blanked. */
    method HandleChange(f: Field, value: string)
      modifies this
      ensures formData == SetField(old(formData), f, value)
      ensures errors == Cleared(old(errors), Name(f))
    {
      formData := SetField(formData, f, value);
      errors := Cleared(errors, Name(f));
    }

    /**
     * Submitting on the given day: a form the browser refuses keeps its
     * messages; otherwise `handleSubmit` shows the new messages, and an
     * acceptable form only leads to the welcome alert and the home page.
     */
    method HandleSubmit(today: Date) returns (accepted: bool)
      modifies this
      ensures formData == old(formData)
      ensures !BrowserAllows(formData) ==> errors == old(errors)
      ensures BrowserAllows(formData) ==> Reports(formData, today, errors)
      ensures accepted <==> BrowserAllows(formData) && Acceptable(formData, today)
    {
      if !BrowserAllows(formData) {
        return false;
      }
      var isValid;
      errors, isValid := Validate(formData, today);
      accepted := isValid;
    }
  }
}
