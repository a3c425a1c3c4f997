// The donor's profile page: an edit mode, masks on the name, mobile and
// weight inputs, an availability checkbox, a field-by-field `validateForm`
// with its own weight and age rules and the medical-availability rule, and
// a save that only goes out for a valid form.
module DonorProfilePage {
  import opened Common
  import Numbers
  import opened Forms
  import opened Calendar
  import opened Store
  import DonorSchema
  import DonorController
  import DonorRegisterPage
  import BloodGroups

  /** `formData`; `createdAt` is only displayed and is left out. */
  datatype ProfileForm = ProfileForm(
    fullName: string, email: string, mobile: string, dob: string, gender: string, bloodGroup: string,
    weight: string, hasDisease: string, hadSurgery: string, isAvailable: bool)

  const InitialForm := ProfileForm("", "", "", "", "", "", "", "no", "no", true)

  /** The text inputs and selects wired to `handleChange`; the e-mail input is disabled and has no handler. */
  datatype Field = FullName | Mobile | Dob | BloodGroupField | Weight | HasDisease | HadSurgery

  function Name(f: Field): string
  {
    match f
    case FullName => "fullName"
    case Mobile => "mobile"
    case Dob => "dob"
    case BloodGroupField => "bloodGroup"
    case Weight => "weight"
    case HasDisease => "hasDisease"
    case HadSurgery => "hadSurgery"
  }

  function SetField(p: ProfileForm, f: Field, value: string): ProfileForm
  {
    match f
    case FullName => p.(fullName := value)
    case Mobile => p.(mobile := value)
    case Dob => p.(dob := value)
    case BloodGroupField => p.(bloodGroup := value)
    case Weight => p.(weight := value)
    case HasDisease => p.(hasDisease := value)
    case HadSurgery => p.(hadSurgery := value)
  }

  /** The masks of `handleChange`. */
  predicate Allows(f: Field, value: string)
  {
    match f
    case FullName => LettersAndSpaces(value)
    case Mobile => DigitsUpTo(value, 10)
    case Weight => DigitsUpTo(value, 3)
    case _ => true
  }

  /** What the masks keep true of the form from the empty form on. */
  predicate Masked(p: ProfileForm)
  {
    LettersAndSpaces(p.fullName) && DigitsUpTo(p.mobile, 10) && DigitsUpTo(p.weight, 3)
  }

  /** An edit the mask lets in lands in its own field; the masks stay true. */
  lemma ChangeKeepsMasked(p: ProfileForm, f: Field, value: string)
    requires Masked(p) && Allows(f, value)
    ensures Masked(SetField(p, f, value))
  {
  }

  const FieldNames: set<string> := {"fullName", "mobile", "weight", "dob", "isAvailable"}

  /** The page's own weight threshold: a donor must weigh more than this. */
  const ProfileWeightLimit: int := 50

  const NameMessage := "Full Name is required."
  const MobileMessage := "Mobile must be 10 digits."
  const WeightMessage := "Weight must be > 50kg to donate."
  const AgeMessage := "Must be 18+ years old."
  const DobMessage := "Date of Birth is required."
  const MedicalMessage := "Mark unavailable due to medical reasons."

  /** `parseInt(weight) <= 50`; a weight `parseInt` cannot read is never too light. */
  predicate TooLight(weight: string)
  {
    ParseInt(weight).Some? && ParseInt(weight).value <= ProfileWeightLimit
  }

  /** A chronic disease or a recent surgery is declared while the donor is marked available. */
  predicate MedicalClash(p: ProfileForm)
  {
    (p.hasDisease == "yes" || p.hadSurgery == "yes") && p.isAvailable
  }

  /** The messages `validateForm` has left once its first `n` checks have run. */
  predicate ReportsAfter(p: ProfileForm, today: Date, errors: Errors, n: nat)
  {
    errors.Keys <= FieldNames
    && Flagged(errors, "fullName", n >= 1 && Trim(p.fullName) == "", NameMessage)
    && Flagged(errors, "mobile", n >= 2 && (p.mobile == "" || |p.mobile| != 10), MobileMessage)
    && Flagged(errors, "weight", n >= 3 && (p.weight == "" || TooLight(p.weight)), WeightMessage)
    && Flagged(errors, "dob", n >= 4 && (p.dob == "" || DonorRegisterPage.TooYoung(p.dob, today)),
               if p.dob == "" then DobMessage else AgeMessage)
    && Flagged(errors, "isAvailable", n >= 5 && MedicalClash(p), MedicalMessage)
  }

  /** The messages `validateForm` leaves. */
  predicate Reports(p: ProfileForm, today: Date, errors: Errors)
  {
    ReportsAfter(p, today, errors, 5)
  }

  /** What `validateForm` accepts, check by check. */
  predicate Savable(p: ProfileForm, today: Date)
  {
    Trim(p.fullName) != "" && |p.mobile| == 10 && p.weight != "" && !TooLight(p.weight)
    && p.dob != "" && !DonorRegisterPage.TooYoung(p.dob, today) && !MedicalClash(p)
  }

  /** `validateForm` on the given day: the messages it leaves, and its verdict. */
  method ValidateForm(p: ProfileForm, today: Date) returns (errors: Errors, isValid: bool)
    ensures Reports(p, today, errors)
    ensures isValid <==> Savable(p, today)
  {
    errors, isValid := map[], true;
    errors, isValid := CheckName(p, today, errors, isValid);
    errors, isValid := CheckMobile(p, today, errors, isValid);
    errors, isValid := CheckWeight(p, today, errors, isValid);
    errors, isValid := CheckAge(p, today, errors, isValid);
    errors, isValid := CheckMedical(p, today, errors, isValid);
  }

  /** `if (!formData.fullName.trim())` */
  method CheckName(p: ProfileForm, today: Date, errors0: Errors, isValid0: bool)
    returns (errors: Errors, isValid: bool)
    requires ReportsAfter(p, today, errors0, 0)
    ensures ReportsAfter(p, today, errors, 1)
    ensures isValid <==> isValid0 && Trim(p.fullName) != ""
  {
    errors, isValid := errors0, isValid0;
    if Trim(p.fullName) == "" {
      errors := errors["fullName" := NameMessage];
      isValid := false;
    }
  }

  /** `if (!formData.mobile || formData.mobile.length !== 10)` */
  method CheckMobile(p: ProfileForm, today: Date, errors0: Errors, isValid0: bool)
    returns (errors: Errors, isValid: bool)
    requires ReportsAfter(p, today, errors0, 1)
    ensures ReportsAfter(p, today, errors, 2)
    ensures isValid <==> isValid0 && |p.mobile| == 10
  {
    errors, isValid := errors0, isValid0;
    if p.mobile == "" || |p.mobile| != 10 {
      errors := errors["mobile" := MobileMessage];
      isValid := false;
    }
  }

  /** `if (!formData.weight || parseInt(formData.weight) <= 50)` */
  method CheckWeight(p: ProfileForm, today: Date, errors0: Errors, isValid0: bool)
    returns (errors: Errors, isValid: bool)
    requires ReportsAfter(p, today, errors0, 2)
    ensures ReportsAfter(p, today, errors, 3)
    ensures isValid <==> isValid0 && p.weight != "" && !TooLight(p.weight)
  {
    errors, isValid := errors0, isValid0;
    if p.weight == "" || TooLight(p.weight) {
      errors := errors["weight" := WeightMessage];
      isValid := false;
    }
  }

  /** `if (formData.dob) { … if (age < 18) … } else …`: the date of birth is required here. */
  method CheckAge(p: ProfileForm, today: Date, errors0: Errors, isValid0: bool)
    returns (errors: Errors, isValid: bool)
    requires ReportsAfter(p, today, errors0, 3)
    ensures ReportsAfter(p, today, errors, 4)
    ensures isValid <==> isValid0 && p.dob != "" && !DonorRegisterPage.TooYoung(p.dob, today)
  {
    errors, isValid := errors0, isValid0;
    if p.dob == "" {
      errors := errors["dob" := DobMessage];
      isValid := false;
    } else if DonorRegisterPage.TooYoung(p.dob, today) {
      errors := errors["dob" := AgeMessage];
      isValid := false;
    }
  }

  /** `if ((hasDisease === 'yes' || hadSurgery === 'yes') && isAvailable)` */
  method CheckMedical(p: ProfileForm, today: Date, errors0: Errors, isValid0: bool)
    returns (errors: Errors, isValid: bool)
    requires ReportsAfter(p, today, errors0, 4)
    ensures ReportsAfter(p, today, errors, 5)
    ensures isValid <==> isValid0 && !MedicalClash(p)
  {
    errors, isValid := errors0, isValid0;
    if MedicalClash(p) {
      errors := errors["isAvailable" := MedicalMessage];
      isValid := false;
    }
  }

  /** The messages left by `validateForm` are all gone exactly when the form may be saved. */
  lemma ValidExactly(p: ProfileForm, today: Date, errors: Errors)
    requires Reports(p, today, errors)
    ensures errors.Keys == {} <==> Savable(p, today)
  {
    SavedLeavesNone(p, today, errors);
    NoneLeftSavable(p, today, errors);
  }

  lemma SavedLeavesNone(p: ProfileForm, today: Date, errors: Errors)
    requires Reports(p, today, errors)
    ensures Savable(p, today) ==> errors.Keys == {}
  {
  }

  lemma NoneLeftSavable(p: ProfileForm, today: Date, errors: Errors)
    requires Reports(p, today, errors)
    ensures errors.Keys == {} ==> Savable(p, today)
  {
  }

  /**
   * The body of the `PUT /Donor/profile` as the server's handler reads it:
   * the weight goes out as the text of its input; no last donation date and
   * no password are sent.
   */
  function Body(p: ProfileForm): DonorController.ProfileBody
  {
    DonorController.ProfileBody(Some(p.fullName), Some(p.mobile), Some(Numbers.JsonText(p.weight)), Some(p.hasDisease),
                                Some(p.hadSurgery), None, Some(p.isAvailable), None)
  }

  /** Edits to the date of birth or the blood group, and the e-mail and gender, change nothing the server receives. */
  lemma UnsentFields(p: ProfileForm, dob: string, bloodGroup: string, email: string, gender: string)
    ensures Body(p.(dob := dob, bloodGroup := bloodGroup, email := email, gender := gender)) == Body(p)
  {
  }

  /**
   * What a valid profile typed through the masks saves: the trimmed name,
   * the mobile, the weight's value, both medical answers and the
   * availability; the rest of the document stays.
   */
  lemma SavedAsTyped(d: DonorSchema.Donor, p: ProfileForm, today: Date)
    requires Savable(p, today) && Masked(p) && p.hasDisease != "" && p.hadSurgery != ""
    ensures DonorController.MergeProfile(d, Body(p))
         == d.(fullName := Trim(p.fullName), mobile := p.mobile, weight := DecimalValue(p.weight),
               hasDisease := p.hasDisease, hadSurgery := p.hadSurgery, isAvailable := p.isAvailable)
  {
    SavableTyped(p, today);
    MergeTyped(d, p);
  }

  lemma SavableTyped(p: ProfileForm, today: Date)
    requires Savable(p, today) && Masked(p)
    ensures p.fullName != "" && p.mobile != "" && AllDigits(p.weight) && DecimalValue(p.weight) > ProfileWeightLimit
  {
    assert |Trim(p.fullName)| <= |p.fullName|;
    ParseIntOfDigits(p.weight);
  }

  lemma MergeTyped(d: DonorSchema.Donor, p: ProfileForm)
    requires p.fullName != "" && p.mobile != "" && p.hasDisease != "" && p.hadSurgery != ""
    requires AllDigits(p.weight) && DecimalValue(p.weight) > 0
    ensures DonorController.MergeProfile(d, Body(p))
         == d.(fullName := Trim(p.fullName), mobile := p.mobile, weight := DecimalValue(p.weight),
               hasDisease := p.hasDisease, hadSurgery := p.hadSurgery, isAvailable := p.isAvailable)
  {
    assert p.weight != "";
    Numbers.CastDigits(p.weight);
  }

  /**
   * A valid donor saved from a valid form, with answers the selects offer,
   * passes every validator of the schema and is never left available with
   * a declared disease or surgery.
   */
  lemma SavableAccepted(d: DonorSchema.Donor, p: ProfileForm, today: Date)
    requires DonorSchema.Valid(d) && Savable(p, today) && Masked(p)
    requires p.hasDisease in {"yes", "no"} && p.hadSurgery in {"yes", "no"}
    ensures var m := DonorController.MergeProfile(d, Body(p));
      DonorSchema.Valid(m) && ((m.hasDisease == "yes" || m.hadSurgery == "yes") ==> !m.isAvailable)
  {
    SavedAsTyped(d, p, today);
    SavableTyped(p, today);
    TypedValid(d, Trim(p.fullName), p.mobile, DecimalValue(p.weight), p.hasDisease, p.hadSurgery, p.isAvailable);
  }

  lemma TypedValid(d: DonorSchema.Donor, fullName: string, mobile: string, weight: int, hasDisease: string,
                   hadSurgery: string, isAvailable: bool)
    requires DonorSchema.Valid(d)
    requires fullName != "" && DigitsBetween(mobile, 10, 10) && weight >= DonorSchema.MinWeight
    requires hasDisease in {"yes", "no"} && hadSurgery in {"yes", "no"}
    ensures DonorSchema.Valid(d.(fullName := fullName, mobile := mobile, weight := weight, hasDisease := hasDisease,
                                 hadSurgery := hadSurgery, isAvailable := isAvailable))
  {
  }

  /**
   * The weight rules disagree: 50 kg passes the registration form and the
   * schema's 45 kg minimum, and this page refuses it.
   */
  lemma FiftyKilograms(p: ProfileForm, today: Date)
    requires p.weight == "50"
    ensures !DonorRegisterPage.Underweight(p.weight) && DonorSchema.MinWeight <= 50
    ensures !Savable(p, today)
  {
    assert AllDigits("50");
    ParseIntOfDigits("50");
    assert DecimalValue("50") == 50 by {
      assert "50"[..1] == "5";
    }
  }

  /**
   * The form `fetchProfile` fills from the donor's document: the strings as
   * stored, the birth date's ISO day, a weight of 0 as an empty input, and
   * "no" for a medical answer stored empty.
   */
  function Loaded(d: DonorSchema.Donor): (p: ProfileForm)
    ensures p.fullName == d.fullName && p.email == d.email && p.mobile == d.mobile && p.isAvailable == d.isAvailable
    ensures ParseGender(p.gender) == Some(d.gender) && BloodGroups.ParseLabel(p.bloodGroup) == Some(d.bloodGroup)
    ensures p.hasDisease != "" && p.hadSurgery != ""
    ensures 0 <= DateOf(d.dob).year <= 9999 ==> DateInput(p.dob) == Some(DateOf(d.dob))
    ensures d.weight == 0 <==> p.weight == ""
    ensures d.weight != 0 ==> Numbers.Cast(p.weight) == Some(d.weight)
  {
    GenderRoundTrip(d.gender);
    BloodGroups.ParseLabelExact(d.bloodGroup, BloodGroups.Label(d.bloodGroup));
    IsoDayReadsBack(d.dob);
    Numbers.CastNumberText(d.weight);
    ProfileForm(d.fullName, d.email, d.mobile, IsoDay(d.dob), GenderName(d.gender), BloodGroups.Label(d.bloodGroup),
                if d.weight == 0 then "" else NumberText(d.weight),
                if d.hasDisease == "" then "no" else d.hasDisease,
                if d.hadSurgery == "" then "no" else d.hadSurgery, d.isAvailable)
  }

  /**
   * Saving the loaded form unedited trims the name again and turns a
   * medical answer stored empty into "no"; everything else the server
   * merges is what it already held.
   */
  lemma ReloadedSave(d: DonorSchema.Donor)
    ensures DonorController.MergeProfile(d, Body(Loaded(d)))
         == d.(fullName := Trim(d.fullName),
               hasDisease := if d.hasDisease == "" then "no" else d.hasDisease,
               hadSurgery := if d.hadSurgery == "" then "no" else d.hadSurgery)
  {
    var b := Body(Loaded(d));
    assert OrString(b.fullName, d.fullName) == d.fullName && OrString(b.mobile, d.mobile) == d.mobile;
    if d.weight != 0 {
      Numbers.NumberTextStores(d.weight, d.weight);
    }
    assert Numbers.OrCast(b.weight, d.weight) == Some(d.weight);
    assert b.lastDonationDate.None? && b.password.None? && b.isAvailable == Some(d.isAvailable);
  }

  /** The save through the server's profile handler. */
  method Send(db: Database, actor: Id, b: DonorController.ProfileBody) returns (code: int)
    requires db.Valid()
    modifies db
    ensures db.Valid()
    ensures DonorController.Reply(code, db.donors) == DonorController.ProfileUpdate(old(db.donors), actor, b)
    ensures db.requests == old(db.requests) && db.users == old(db.users)
    ensures db.hospitals == old(db.hospitals) && db.admins == old(db.admins)
  {
    code := DonorController.UpdateDonorProfile(db, actor, b);
  }

  class Page {
    var isEditing: bool
    var formData: ProfileForm
    var errors: Errors

    ghost predicate Valid()
      reads this
    {
      Masked(formData)
    }

    constructor ()
      ensures Valid() && !isEditing && formData == InitialForm && errors == map[]
    {
      isEditing, formData, errors := false, InitialForm, map[];
    }

    /**
     * `fetchProfile` on mounting: the document the profile read returns
     * fills the form; without a session, or when the read fails, the form
     * stays as it was.
     */
    method Load(fetched: Option<DonorSchema.Donor>)
      modifies this
      ensures formData == if fetched.Some? then Loaded(fetched.value) else old(formData)
      ensures isEditing == old(isEditing) && errors == old(errors)
    {
      if fetched.Some? {
        formData := Loaded(fetched.value);
      }
    }

    /** The Edit button. */
    method Edit()
      modifies this
      ensures isEditing && formData == old(formData) && errors == old(errors)
    {
      isEditing := true;
    }

    /** The Cancel button only leaves edit mode: the edits stay in the form. */
    method Cancel()
      modifies this
      ensures !isEditing && formData == old(formData) && errors == old(errors)
    {
      isEditing := false;
    }

    /**
     * `handleChange` for a text input or select, reachable only in edit
     * mode: the field's message is blanked whether or not the mask lets the
     * value in.
     */
    method HandleChange(f: Field, value: string)
      requires isEditing
      modifies this
      ensures old(Valid()) ==> Valid()
      ensures isEditing
      ensures errors == Cleared(old(errors), Name(f))
      ensures formData == if Allows(f, value) then SetField(old(formData), f, value) else old(formData)
    {
      errors := Cleared(errors, Name(f));
      if Allows(f, value) {
        if Masked(formData) {
          ChangeKeepsMasked(formData, f, value);
        }
        formData := SetField(formData, f, value);
      }
    }

    /** `handleChange` for the availability checkbox: the box's state is stored as it is. */
    method HandleCheck(checked: bool)
      requires isEditing
      modifies this
      ensures old(Valid()) ==> Valid()
      ensures isEditing
      ensures errors == Cleared(old(errors), "isAvailable")
      ensures formData == old(formData).(isAvailable := checked)
    {
      errors := Cleared(errors, "isAvailable");
      formData := formData.(isAvailable := checked);
    }

    /**
     * `handleSave` on the given day: an invalid form shows its messages and
     * sends nothing; a valid one is merged by the server, and a successful
     * save leaves edit mode.
     */
    method HandleSave(db: Database, actor: Id, today: Date) returns (code: Option<int>)
      requires isEditing && db.Valid()
      modifies this, db
      ensures db.Valid()
      ensures formData == old(formData) && Reports(formData, today, errors)
      ensures code.Some? <==> Savable(formData, today)
      ensures code.None? ==> db.donors == old(db.donors) && isEditing
      ensures code.Some? ==>
        DonorController.Reply(code.value, db.donors) == DonorController.ProfileUpdate(old(db.donors), actor, Body(formData))
      ensures code.Some? ==> (isEditing <==> !Succeeded(code.value))
      ensures db.requests == old(db.requests) && db.users == old(db.users)
      ensures db.hospitals == old(db.hospitals) && db.admins == old(db.admins)
    {
      var isValid := Check(today);
      if !isValid {
        code := None;
        return;
      }
      var c := Send(db, actor, Body(formData));
      code := Some(c);
      Finish(c);
    }

    /** The messages of `validateForm` replace the shown ones. */
    method Check(today: Date) returns (isValid: bool)
      modifies this
      ensures formData == old(formData) && isEditing == old(isEditing)
      ensures Reports(formData, today, errors)
      ensures isValid <==> Savable(formData, today)
    {
      errors, isValid := ValidateForm(formData, today);
    }

    /** After the answer: a success leaves edit mode. */
    method Finish(c: int)
      modifies this
      ensures formData == old(formData) && errors == old(errors)
      ensures isEditing <==> !Succeeded(c) && old(isEditing)
    {
      if Succeeded(c) {
        isEditing := false;
      }
    }
  }
}
