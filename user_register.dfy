// The requester's registration form: masks on the name, place, number and
// age inputs, a "required" check on every field, then the age, length,
// e-mail and password-match checks that may replace a field's message.
module UserRegisterPage {
  import opened Common
  import opened Forms
  import UserSchema
  import Browser

  datatype RegisterForm = RegisterForm(
    fullName: string, age: string, gender: string, mobile: string, email: string, address: string,
    city: string, state: string, pincode: string, password: string, confirmPassword: string)

  const InitialForm := RegisterForm("", "", "", "", "", "", "", "", "", "", "")

  datatype Field = FullName | Age | GenderField | Mobile | Email | Address | City | State | Pincode
                 | Password | ConfirmPassword

  function Name(f: Field): string
  {
    match f
    case FullName => "fullName"
    case Age => "age"
    case GenderField => "gender"
    case Mobile => "mobile"
    case Email => "email"
    case Address => "address"
    case City => "city"
    case State => "state"
    case Pincode => "pincode"
    case Password => "password"
    case ConfirmPassword => "confirmPassword"
  }

  function SetField(r: RegisterForm, f: Field, value: string): RegisterForm
  {
    match f
    case FullName => r.(fullName := value)
    case Age => r.(age := value)
    case GenderField => r.(gender := value)
    case Mobile => r.(mobile := value)
    case Email => r.(email := value)
    case Address => r.(address := value)
    case City => r.(city := value)
    case State => r.(state := value)
    case Pincode => r.(pincode := value)
    case Password => r.(password := value)
    case ConfirmPassword => r.(confirmPassword := value)
  }

  /** The masks of `handleChange`. */
  predicate Allows(f: Field, value: string)
  {
    match f
    case FullName => LettersAndSpaces(value)
    case City => LettersAndSpaces(value)
    case State => LettersAndSpaces(value)
    case Mobile => DigitsUpTo(value, 10)
    case Pincode => DigitsUpTo(value, 6)
    case Age => DigitsUpTo(value, 3)
    case _ => true
  }

  predicate Masked(r: RegisterForm)
  {
    LettersAndSpaces(r.fullName) && LettersAndSpaces(r.city) && LettersAndSpaces(r.state)
    && DigitsUpTo(r.mobile, 10) && DigitsUpTo(r.pincode, 6) && DigitsUpTo(r.age, 3)
  }

  /** `Object.keys(formData)` with the values, in declaration order. */
  function Entries(r: RegisterForm): seq<(string, string)>
  {
    [("fullName", r.fullName), ("age", r.age), ("gender", r.gender), ("mobile", r.mobile),
     ("email", r.email), ("address", r.address), ("city", r.city), ("state", r.state),
     ("pincode", r.pincode), ("password", r.password), ("confirmPassword", r.confirmPassword)]
  }

  const FieldNames: set<string> := {"fullName", "age", "gender", "mobile", "email", "address", "city", "state",
                                     "pincode", "password", "confirmPassword"}

  /** Mismatching passwords are only reported when both are typed. */
  predicate Mismatch(r: RegisterForm)
  {
    r.password != "" && r.confirmPassword != "" && r.password != r.confirmPassword
  }

  const AgeMessage := "You must be 18+ to register."
  const MobileMessage := "Mobile Number must be exactly 10 digits."
  const PincodeMessage := "Pincode must be exactly 6 digits."
  const EmailMessage := "Enter a valid email address."
  const MismatchMessage := "Passwords do not match."

  /**
   * The message on each field once the required-field loop and then the
   * first `n` of the five checks after it have run.
   */
  predicate ReportsAfter(r: RegisterForm, errors: Errors, n: nat)
  {
    errors.Keys <= FieldNames
    && Flagged(errors, "fullName", r.fullName == "", RequiredMessage)
    && Flagged(errors, "gender", r.gender == "", RequiredMessage)
    && Flagged(errors, "address", r.address == "", RequiredMessage)
    && Flagged(errors, "city", r.city == "", RequiredMessage)
    && Flagged(errors, "state", r.state == "", RequiredMessage)
    && Flagged(errors, "password", r.password == "", RequiredMessage)
    && Flagged(errors, "age", r.age == "" || (n >= 1 && Underage(r.age)),
               if r.age == "" then RequiredMessage else AgeMessage)
    && Flagged(errors, "mobile", r.mobile == "" || (n >= 2 && |r.mobile| != 10),
               if r.mobile == "" then RequiredMessage else MobileMessage)
    && Flagged(errors, "pincode", r.pincode == "" || (n >= 3 && |r.pincode| != 6),
               if r.pincode == "" then RequiredMessage else PincodeMessage)
    && Flagged(errors, "email", r.email == "" || (n >= 4 && !FormEmail(r.email)),
               if r.email == "" then RequiredMessage else EmailMessage)
    && Flagged(errors, "confirmPassword", r.confirmPassword == "" || (n >= 5 && Mismatch(r)),
               if r.confirmPassword == "" then RequiredMessage else MismatchMessage)
  }

  /** The message `validate` leaves on each field. */
  predicate Reports(r: RegisterForm, errors: Errors)
  {
    ReportsAfter(r, errors, 5)
  }

  /** Every field is typed: what the required-field loop leaves `isValid` at. */
  predicate AllTyped(r: RegisterForm)
  {
    r.fullName != "" && r.age != "" && r.gender != "" && r.mobile != "" && r.email != ""
    && r.address != "" && r.city != "" && r.state != "" && r.pincode != "" && r.password != ""
    && r.confirmPassword != ""
  }

  /** The required-field loop over this form's fields, read field by field. */
  lemma RequiredFields(r: RegisterForm, errors: Errors, isValid: bool)
    requires errors.Keys <= Names(Entries(r))
    requires forall i :: 0 <= i < |Entries(r)| ==>
      Flagged(errors, Entries(r)[i].0, Entries(r)[i].1 == "", RequiredMessage)
    requires isValid <==> forall i :: 0 <= i < |Entries(r)| ==> Entries(r)[i].1 != ""
    ensures ReportsAfter(r, errors, 0)
    ensures isValid <==> AllTyped(r)
  {
    var fields := Entries(r);
    forall k | k in errors ensures k in FieldNames {
      var i :| 0 <= i < |fields| && fields[i].0 == k;
    }
    assert fields[0].0 == "fullName" && fields[1].0 == "age" && fields[2].0 == "gender";
    assert fields[3].0 == "mobile" && fields[4].0 == "email" && fields[5].0 == "address";
    assert fields[6].0 == "city" && fields[7].0 == "state" && fields[8].0 == "pincode";
    assert fields[9].0 == "password" && fields[10].0 == "confirmPassword";
    if !AllTyped(r) {
      assert exists i :: 0 <= i < |fields| && fields[i].1 == "";
    }
  }

  /** `validate`: the messages it leaves, and a verdict that holds exactly when the form may go out. */
  method Validate(r: RegisterForm) returns (errors: Errors, isValid: bool)
    ensures Reports(r, errors)
    ensures isValid <==> Acceptable(r)
  {
    errors, isValid := RequireAll(Entries(r));
    RequiredFields(r, errors, isValid);
    errors, isValid := CheckAge(r, errors, isValid);
    errors, isValid := CheckMobile(r, errors, isValid);
    errors, isValid := CheckPincode(r, errors, isValid);
    errors, isValid := CheckEmail(r, errors, isValid);
    errors, isValid := CheckPasswords(r, errors, isValid);
  }

  /** `if (formData.age && parseInt(formData.age) < 18)` */
  method CheckAge(r: RegisterForm, errors0: Errors, isValid0: bool) returns (errors: Errors, isValid: bool)
    requires ReportsAfter(r, errors0, 0)
    ensures ReportsAfter(r, errors, 1)
    ensures isValid <==> isValid0 && !(r.age != "" && Underage(r.age))
  {
    errors, isValid := errors0, isValid0;
    if r.age != "" && Underage(r.age) {
      errors := errors["age" := AgeMessage];
      isValid := false;
    }
  }

  /** `if (formData.mobile && formData.mobile.length !== 10)` */
  method CheckMobile(r: RegisterForm, errors0: Errors, isValid0: bool) returns (errors: Errors, isValid: bool)
    requires ReportsAfter(r, errors0, 1)
    ensures ReportsAfter(r, errors, 2)
    ensures isValid <==> isValid0 && !(r.mobile != "" && |r.mobile| != 10)
  {
    errors, isValid := errors0, isValid0;
    if r.mobile != "" && |r.mobile| != 10 {
      errors := errors["mobile" := MobileMessage];
      isValid := false;
    }
  }

  /** `if (formData.pincode && formData.pincode.length !== 6)` */
  method CheckPincode(r: RegisterForm, errors0: Errors, isValid0: bool) returns (errors: Errors, isValid: bool)
    requires ReportsAfter(r, errors0, 2)
    ensures ReportsAfter(r, errors, 3)
    ensures isValid <==> isValid0 && !(r.pincode != "" && |r.pincode| != 6)
  {
    errors, isValid := errors0, isValid0;
    if r.pincode != "" && |r.pincode| != 6 {
      errors := errors["pincode" := PincodeMessage];
      isValid := false;
    }
  }

  /** `if (formData.email && !emailRegex.test(formData.email))` */
  method CheckEmail(r: RegisterForm, errors0: Errors, isValid0: bool) returns (errors: Errors, isValid: bool)
    requires ReportsAfter(r, errors0, 3)
    ensures ReportsAfter(r, errors, 4)
    ensures isValid <==> isValid0 && !(r.email != "" && !FormEmail(r.email))
  {
    errors, isValid := errors0, isValid0;
    if r.email != "" && !FormEmail(r.email) {
      errors := errors["email" := EmailMessage];
      isValid := false;
    }
  }

  /** `if (password && confirmPassword) { if (password !== confirmPassword) … }`, both tests at once. */
  method CheckPasswords(r: RegisterForm, errors0: Errors, isValid0: bool) returns (errors: Errors, isValid: bool)
    requires ReportsAfter(r, errors0, 4)
    ensures ReportsAfter(r, errors, 5)
    ensures isValid <==> isValid0 && !Mismatch(r)
  {
    errors, isValid := errors0, isValid0;
    if Mismatch(r) {
      errors := errors["confirmPassword" := MismatchMessage];
      isValid := false;
    }
  }

  /** What the browser checks before `handleSubmit` runs: the e-mail input holds an address or nothing. */
  predicate BrowserAllows(r: RegisterForm)
  {
    Browser.EmailValue(r.email)
  }

  /** The conditions under which the form goes out, field by field. */
  predicate Acceptable(r: RegisterForm)
  {
    r.fullName != "" && r.gender != "" && r.address != "" && r.city != "" && r.state != ""
    && r.age != "" && !Underage(r.age) && |r.mobile| == 10 && |r.pincode| == 6 && FormEmail(r.email)
    && r.password != "" && r.password == r.confirmPassword
  }

  /** The messages left by `validate` are all gone exactly when the form may go out. */
  lemma ValidExactly(r: RegisterForm, errors: Errors)
    requires Reports(r, errors)
    ensures errors.Keys == {} <==> Acceptable(r)
  {
    AcceptedLeavesNone(r, errors);
    NoneLeftAccepted(r, errors);
  }

  lemma AcceptedLeavesNone(r: RegisterForm, errors: Errors)
    requires Reports(r, errors)
    ensures Acceptable(r) ==> errors.Keys == {}
  {
  }

  lemma NoneLeftAccepted(r: RegisterForm, errors: Errors)
    requires Reports(r, errors)
    ensures errors.Keys == {} ==> Acceptable(r)
  {
  }

  /**
   * A masked form that goes out carries what the schema asks of age,
   * mobile and pincode, but its password may be shorter than the schema's
   * six characters: the form never checks the length.
   */
  lemma AcceptedMeetsSchema(r: RegisterForm)
    requires Masked(r) && Acceptable(r)
    ensures DecimalValue(r.age) >= UserSchema.MinAge
    ensures DigitsBetween(r.mobile, 10, 10) && |r.pincode| == 6
  {
    ParseIntOfDigits(r.age);
  }

  lemma ShortPasswordGoesOut(r: RegisterForm)
    requires Acceptable(r)
    ensures Acceptable(r.(password := "a", confirmPassword := "a"))
  {
  }

  class Page {
    var formData: RegisterForm
    var errors: Errors

    ghost predicate Valid()
      reads this
    {
      Masked(formData)
    }

    constructor ()
      ensures Valid() && formData == InitialForm && errors == map[]
    {
      formData, errors := InitialForm, map[];
    }

    /**
     * `handleChange`: the field's message is blanked whether or not the mask
     * lets the value in.
     */
    method HandleChange(f: Field, value: string)
      requires Valid()
      modifies this
      ensures Valid()
      ensures errors == Cleared(old(errors), Name(f))
      ensures formData == if Allows(f, value) then SetField(old(formData), f, value) else old(formData)
    {
      errors := Cleared(errors, Name(f));
      if Allows(f, value) {
        formData := SetField(formData, f, value);
      }
    }

    /**
     * Submitting: a form the browser refuses keeps its messages; otherwise
     * `handleSubmit` shows the new messages, and the form goes out only when
     * it is acceptable.
     */
    method HandleSubmit() returns (sent: bool)
      modifies this
      ensures formData == old(formData)
      ensures !BrowserAllows(formData) ==> errors == old(errors)
      ensures BrowserAllows(formData) ==> Reports(formData, errors)
      ensures sent <==> BrowserAllows(formData) && Acceptable(formData)
    {
      if !BrowserAllows(formData) {
        return false;
      }
      var isValid;
      errors, isValid := Validate(formData);
      sent := isValid;
    }
  }
}
