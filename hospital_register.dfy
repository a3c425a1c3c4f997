// The hospital's registration form: no input masks, a "required" check on
// eleven of its fourteen fields, then the e-mail, phone and password-match
// checks that may replace a field's message. The page's submit only
// validates: it sends nothing to the server.
module HospitalRegisterPage {
  import opened Common
  import opened Forms
  import HospitalSchema
  import Browser

  datatype RegisterForm = RegisterForm(
    hospitalName: string, licenseNumber: string, ownershipType: string, email: string, phone: string,
    emergencyPhone: string, website: string, address: string, city: string, state: string, zipCode: string,
    totalBeds: string, password: string, confirmPassword: string)

  const InitialForm := RegisterForm("", "", "", "", "", "", "", "", "", "", "", "", "", "")

  datatype Field = HospitalName | LicenseNumber | OwnershipType | Email | Phone | EmergencyPhone | Website
                 | Address | City | State | ZipCode | TotalBeds | Password | ConfirmPassword

  function Name(f: Field): string
  {
    match f
    case HospitalName => "hospitalName"
    case LicenseNumber => "licenseNumber"
    case OwnershipType => "ownershipType"
    case Email => "email"
    case Phone => "phone"
    case EmergencyPhone => "emergencyPhone"
    case Website => "website"
    case Address => "address"
    case City => "city"
    case State => "state"
    case ZipCode => "zipCode"
    case TotalBeds => "totalBeds"
    case Password => "password"
    case ConfirmPassword => "confirmPassword"
  }

  function SetField(r: RegisterForm, f: Field, value: string): RegisterForm
  {
    match f
    case HospitalName => r.(hospitalName := value)
    case LicenseNumber => r.(licenseNumber := value)
    case OwnershipType => r.(ownershipType := value)
    case Email => r.(email := value)
    case Phone => r.(phone := value)
    case EmergencyPhone => r.(emergencyPhone := value)
    case Website => r.(website := value)
    case Address => r.(address := value)
    case City => r.(city := value)
    case State => r.(state := value)
    case ZipCode => r.(zipCode := value)
    case TotalBeds => r.(totalBeds := value)
    case Password => r.(password := value)
    case ConfirmPassword => r.(confirmPassword := value)
  }

  /** `requiredFields` with the values, in the order of the list. */
  function Required(r: RegisterForm): seq<(string, string)>
  {
    [("hospitalName", r.hospitalName), ("licenseNumber", r.licenseNumber), ("ownershipType", r.ownershipType),
     ("email", r.email), ("phone", r.phone), ("address", r.address), ("city", r.city), ("state", r.state),
     ("zipCode", r.zipCode), ("password", r.password), ("confirmPassword", r.confirmPassword)]
  }

  const FieldNames: set<string> := {"hospitalName", "licenseNumber", "ownershipType", "email", "phone", "address",
                                     "city", "state", "zipCode", "password", "confirmPassword"}

  /** Mismatching passwords are only reported when both are typed. */
  predicate Mismatch(r: RegisterForm)
  {
    r.password != "" && r.confirmPassword != "" && r.password != r.confirmPassword
  }

  /** `formData.phone && !/^[0-9]{10,12}$/.test(formData.phone)` */
  predicate BadPhone(r: RegisterForm)
  {
    r.phone != "" && !DigitsBetween(r.phone, 10, 12)
  }

  const EmailMessage := "Enter a valid official email."
  const PhoneMessage := "Enter a valid phone number."
  const MismatchMessage := "Passwords do not match."

  /**
   * The message on each field once the required-field loop and then the
   * first `n` of the three checks after it have run.
   */
  predicate ReportsAfter(r: RegisterForm, errors: Errors, n: nat)
  {
    errors.Keys <= FieldNames
    && Flagged(errors, "hospitalName", r.hospitalName == "", RequiredMessage)
    && Flagged(errors, "licenseNumber", r.licenseNumber == "", RequiredMessage)
    && Flagged(errors, "ownershipType", r.ownershipType == "", RequiredMessage)
    && Flagged(errors, "address", r.address == "", RequiredMessage)
    && Flagged(errors, "city", r.city == "", RequiredMessage)
    && Flagged(errors, "state", r.state == "", RequiredMessage)
    && Flagged(errors, "zipCode", r.zipCode == "", RequiredMessage)
    && Flagged(errors, "password", r.password == "", RequiredMessage)
    && Flagged(errors, "email", r.email == "" || (n >= 1 && !FormEmail(r.email)),
               if r.email == "" then RequiredMessage else EmailMessage)
    && Flagged(errors, "phone", r.phone == "" || (n >= 2 && BadPhone(r)),
               if r.phone == "" then RequiredMessage else PhoneMessage)
    && Flagged(errors, "confirmPassword", r.confirmPassword == "" || (n >= 3 && Mismatch(r)),
               if r.confirmPassword == "" then RequiredMessage else MismatchMessage)
  }

  /** The message `validate` leaves on each field. */
  predicate Reports(r: RegisterForm, errors: Errors)
  {
    ReportsAfter(r, errors, 3)
  }

  /** The eleven required fields are typed. */
  predicate AllTyped(r: RegisterForm)
  {
    r.hospitalName != "" && r.licenseNumber != "" && r.ownershipType != "" && r.email != "" && r.phone != ""
    && r.address != "" && r.city != "" && r.state != "" && r.zipCode != "" && r.password != ""
    && r.confirmPassword != ""
  }

  /** The required-field loop over this form's list, read field by field. */
  lemma RequiredFields(r: RegisterForm, errors: Errors, isValid: bool)
    requires errors.Keys <= Names(Required(r))
    requires forall i :: 0 <= i < |Required(r)| ==>
      Flagged(errors, Required(r)[i].0, Required(r)[i].1 == "", RequiredMessage)
    requires isValid <==> forall i :: 0 <= i < |Required(r)| ==> Required(r)[i].1 != ""
    ensures ReportsAfter(r, errors, 0)
    ensures isValid <==> AllTyped(r)
  {
    var fields := Required(r);
    forall k | k in errors ensures k in FieldNames {
      var i :| 0 <= i < |fields| && fields[i].0 == k;
    }
    assert fields[0].0 == "hospitalName" && fields[1].0 == "licenseNumber" && fields[2].0 == "ownershipType";
    assert fields[3].0 == "email" && fields[4].0 == "phone" && fields[5].0 == "address";
    assert fields[6].0 == "city" && fields[7].0 == "state" && fields[8].0 == "zipCode";
    assert fields[9].0 == "password" && fields[10].0 == "confirmPassword";
    if !AllTyped(r) {
      assert exists i :: 0 <= i < |fields| && fields[i].1 == "";
    }
  }

  /** `validate`: the messages it leaves, and a verdict that holds exactly when the form is acceptable. */
  method Validate(r: RegisterForm) returns (errors: Errors, isValid: bool)
    ensures Reports(r, errors)
    ensures isValid <==> Acceptable(r)
  {
    errors, isValid := RequireAll(Required(r));
    RequiredFields(r, errors, isValid);
    errors, isValid := CheckEmail(r, errors, isValid);
    errors, isValid := CheckPhone(r, errors, isValid);
    errors, isValid := CheckPasswords(r, errors, isValid);
  }

  /** `if (formData.email && !emailRegex.test(formData.email))` */
  method CheckEmail(r: RegisterForm, errors0: Errors, isValid0: bool) returns (errors: Errors, isValid: bool)
    requires ReportsAfter(r, errors0, 0)
    ensures ReportsAfter(r, errors, 1)
    ensures isValid <==> isValid0 && !(r.email != "" && !FormEmail(r.email))
  {
    errors, isValid := errors0, isValid0;
    if r.email != "" && !FormEmail(r.email) {
      errors := errors["email" := EmailMessage];
      isValid := false;
    }
  }

  /** `if (formData.phone && !phoneRegex.test(formData.phone))`, as one test */
  method CheckPhone(r: RegisterForm, errors0: Errors, isValid0: bool) returns (errors: Errors, isValid: bool)
    requires ReportsAfter(r, errors0, 1)
    ensures ReportsAfter(r, errors, 2)
    ensures isValid <==> isValid0 && !BadPhone(r)
  {
    errors, isValid := errors0, isValid0;
    if BadPhone(r) {
      errors := errors["phone" := PhoneMessage];
      isValid := false;
    }
  }

  /** `if (password && confirmPassword) { if (password !== confirmPassword) … }`, both tests at once. */
  method CheckPasswords(r: RegisterForm, errors0: Errors, isValid0: bool) returns (errors: Errors, isValid: bool)
    requires ReportsAfter(r, errors0, 2)
    ensures ReportsAfter(r, errors, 3)
    ensures isValid <==> isValid0 && !Mismatch(r)
  {
    errors, isValid := errors0, isValid0;
    if Mismatch(r) {
      errors := errors["confirmPassword" := MismatchMessage];
      isValid := false;
    }
  }

  /**
   * What the browser checks before `handleSubmit` runs: the e-mail input
   * holds an address or nothing, and the bed-count input a whole number or
   * nothing.
   */
  predicate BrowserAllows(r: RegisterForm)
  {
    Browser.EmailValue(r.email) && Browser.NumberValue(r.totalBeds)
  }

  /** The conditions under which the form is accepted, field by field. */
  predicate Acceptable(r: RegisterForm)
  {
    r.hospitalName != "" && r.licenseNumber != "" && r.ownershipType != "" && FormEmail(r.email)
    && DigitsBetween(r.phone, 10, 12) && r.address != "" && r.city != "" && r.state != "" && r.zipCode != ""
    && r.password != "" && r.password == r.confirmPassword
  }

  /** The messages left by `validate` are all gone exactly when the form is acceptable. */
  lemma ValidExactly(r: RegisterForm, errors: Errors)
    requires Reports(r, errors)
    ensures errors.Keys == {} <==> Acceptable(r)
  {
    AcceptedLeavesNone(r, errors);
    NoneLeftAccepted(r, errors);
  }

  lemma AcceptedLeavesNone(r: RegisterForm, errors: Errors)
    requires Reports(r, errors)
    ensures Acceptable(r) ==> errors.Keys == {}
  {
  }

  lemma NoneLeftAccepted(r: RegisterForm, errors: Errors)
    requires Reports(r, errors)
    ensures errors.Keys == {} ==> Acceptable(r)
  {
  }

  /** The form's phone rule is the schema's: ten to twelve digits. */
  lemma PhoneAsSchema(r: RegisterForm)
    requires Acceptable(r)
    ensures DigitsBetween(r.phone, 10, 12)
    ensures r.hospitalName != "" && r.licenseNumber != "" && r.zipCode != ""
  {
  }

  class Page {
    var formData: RegisterForm
    var errors: Errors

    constructor ()
      ensures formData == InitialForm && errors == map[]
    {
      formData, errors := InitialForm, map[];
    }

    /** `handleChange`: the value is stored as typed and the field's message blanked. */
    method HandleChange(f: Field, value: string)
      modifies this
      ensures formData == SetField(old(formData), f, value)
      ensures errors == Cleared(old(errors), Name(f))
    {
      formData := SetField(formData, f, value);
      errors := Cleared(errors, Name(f));
    }

    /**
     * Submitting: a form the browser refuses keeps its messages; otherwise
     * `handleSubmit` shows the new messages, and an acceptable form only
     * leads to the "request sent" alert and the home page.
     */
    method HandleSubmit() returns (accepted: bool)
      modifies this
      ensures formData == old(formData)
      ensures !BrowserAllows(formData) ==> errors == old(errors)
      ensures BrowserAllows(formData) ==> Reports(formData, errors)
      ensures accepted <==> BrowserAllows(formData) && Acceptable(formData)
    {
      if !BrowserAllows(formData) {
        return false;
      }
      var isValid;
      errors, isValid := Validate(formData);
      accepted := isValid;
    }
  }
}
