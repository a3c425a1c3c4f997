// The hospital's profile page: an edit mode, masks on the place and number
// inputs, two facility switches, a field-by-field `validateForm`, and a
// save that only goes out for a valid form and that sends back the whole
// document it loaded, blood inventory included.
module HospitalProfilePage {
  import opened Common
  import Numbers
  import opened Forms
  import opened Store
  import HospitalSchema
  import HospitalController
  import HospitalRegisterPage

  /**
   * `formData`: the inputs, the two switches, and the blood inventory the
   * page loaded with the rest of the document (no input edits it).
   */
  datatype ProfileForm = ProfileForm(
    hospitalName: string, licenseNumber: string, ownershipType: string, email: string, phone: string,
    emergencyPhone: string, website: string, address: string, city: string, state: string, zipCode: string,
    totalBeds: string, hasBloodBank: bool, hasAmbulance: bool, bloodInventory: Option<HospitalSchema.Inventory>)

  const InitialForm := ProfileForm("", "", "", "", "", "", "", "", "", "", "", "", false, false, None)

  /** The text inputs and the select wired to `handleChange`; the e-mail input is disabled and has no handler. */
  datatype Field = HospitalName | LicenseNumber | OwnershipType | Phone | EmergencyPhone | Website | Address
                 | City | State | ZipCode | TotalBeds

  /** The two switches. */
  datatype Switch = BloodBank | Ambulance

  function Name(f: Field): string
  {
    match f
    case HospitalName => "hospitalName"
    case LicenseNumber => "licenseNumber"
    case OwnershipType => "ownershipType"
    case Phone => "phone"
    case EmergencyPhone => "emergencyPhone"
    case Website => "website"
    case Address => "address"
    case City => "city"
    case State => "state"
    case ZipCode => "zipCode"
    case TotalBeds => "totalBeds"
  }

  function SwitchName(s: Switch): string
  {
    match s
    case BloodBank => "hasBloodBank"
    case Ambulance => "hasAmbulance"
  }

  function SetField(p: ProfileForm, f: Field, value: string): ProfileForm
  {
    match f
    case HospitalName => p.(hospitalName := value)
    case LicenseNumber => p.(licenseNumber := value)
    case OwnershipType => p.(ownershipType := value)
    case Phone => p.(phone := value)
    case EmergencyPhone => p.(emergencyPhone := value)
    case Website => p.(website := value)
    case Address => p.(address := value)
    case City => p.(city := value)
    case State => p.(state := value)
    case ZipCode => p.(zipCode := value)
    case TotalBeds => p.(totalBeds := value)
  }

  function SetSwitch(p: ProfileForm, s: Switch, checked: bool): ProfileForm
  {
    match s
    case BloodBank => p.(hasBloodBank := checked)
    case Ambulance => p.(hasAmbulance := checked)
  }

  /** The masks of `handleChange`: letters and spaces for the place, digits of any length for the numbers. */
  predicate Allows(f: Field, value: string)
  {
    match f
    case City => LettersAndSpaces(value)
    case State => LettersAndSpaces(value)
    case Phone => AllDigits(value)
    case EmergencyPhone => AllDigits(value)
    case ZipCode => AllDigits(value)
    case TotalBeds => AllDigits(value)
    case _ => true
  }

  /** What the masks keep true of the form from the empty form on. */
  predicate Masked(p: ProfileForm)
  {
    LettersAndSpaces(p.city) && LettersAndSpaces(p.state) && AllDigits(p.phone) && AllDigits(p.emergencyPhone)
    && AllDigits(p.zipCode) && AllDigits(p.totalBeds)
  }

  /** An edit the mask lets in lands in its own field; the masks stay true. */
  lemma ChangeKeepsMasked(p: ProfileForm, f: Field, value: string)
    requires Masked(p) && Allows(f, value)
    ensures Masked(SetField(p, f, value))
  {
  }

  const FieldNames: set<string> := {"hospitalName", "licenseNumber", "phone", "emergencyPhone", "zipCode"}

  const NameMessage := "Hospital Name is required"
  const LicenseMessage := "License is required"
  const TenDigitsMessage := "Must be 10 digits"
  const SixDigitsMessage := "Must be 6 digits"

  /** The messages `validateForm` has left once its first `n` checks have run. */
  predicate ReportsAfter(p: ProfileForm, errors: Errors, n: nat)
  {
    errors.Keys <= FieldNames
    && Flagged(errors, "hospitalName", n >= 1 && Blank(p.hospitalName), NameMessage)
    && Flagged(errors, "licenseNumber", n >= 2 && Blank(p.licenseNumber), LicenseMessage)
    && Flagged(errors, "phone", n >= 3 && p.phone != "" && |p.phone| != 10, TenDigitsMessage)
    && Flagged(errors, "emergencyPhone", n >= 4 && p.emergencyPhone != "" && |p.emergencyPhone| != 10,
               TenDigitsMessage)
    && Flagged(errors, "zipCode", n >= 5 && p.zipCode != "" && |p.zipCode| != 6, SixDigitsMessage)
  }

  /** The messages `validateForm` leaves. */
  predicate Reports(p: ProfileForm, errors: Errors)
  {
    ReportsAfter(p, errors, 5)
  }

  /** What `validateForm` accepts: the numbers may be left empty, and are otherwise of their length. */
  predicate Savable(p: ProfileForm)
  {
    !Blank(p.hospitalName) && !Blank(p.licenseNumber)
    && (p.phone == "" || |p.phone| == 10) && (p.emergencyPhone == "" || |p.emergencyPhone| == 10)
    && (p.zipCode == "" || |p.zipCode| == 6)
  }

  /** `validateForm`: the messages it leaves, and its verdict. */
  method ValidateForm(p: ProfileForm) returns (errors: Errors, isValid: bool)
    ensures Reports(p, errors)
    ensures isValid <==> Savable(p)
  {
    errors, isValid := map[], true;
    errors, isValid := CheckName(p, errors, isValid);
    errors, isValid := CheckLicense(p, errors, isValid);
    errors, isValid := CheckPhone(p, errors, isValid);
    errors, isValid := CheckEmergencyPhone(p, errors, isValid);
    errors, isValid := CheckZipCode(p, errors, isValid);
  }

  /** `if (!formData.hospitalName.trim())` */
  method CheckName(p: ProfileForm, errors0: Errors, isValid0: bool) returns (errors: Errors, isValid: bool)
    requires ReportsAfter(p, errors0, 0)
    ensures ReportsAfter(p, errors, 1)
    ensures isValid <==> isValid0 && !Blank(p.hospitalName)
  {
    errors, isValid := errors0, isValid0;
    if Blank(p.hospitalName) {
      errors := errors["hospitalName" := NameMessage];
      isValid := false;
    }
  }

  /** `if (!formData.licenseNumber.trim())` */
  method CheckLicense(p: ProfileForm, errors0: Errors, isValid0: bool) returns (errors: Errors, isValid: bool)
    requires ReportsAfter(p, errors0, 1)
    ensures ReportsAfter(p, errors, 2)
    ensures isValid <==> isValid0 && !Blank(p.licenseNumber)
  {
    errors, isValid := errors0, isValid0;
    if Blank(p.licenseNumber) {
      errors := errors["licenseNumber" := LicenseMessage];
      isValid := false;
    }
  }

  /** `if (formData.phone && formData.phone.length !== 10)` */
  method CheckPhone(p: ProfileForm, errors0: Errors, isValid0: bool) returns (errors: Errors, isValid: bool)
    requires ReportsAfter(p, errors0, 2)
    ensures ReportsAfter(p, errors, 3)
    ensures isValid <==> isValid0 && (p.phone == "" || |p.phone| == 10)
  {
    errors, isValid := errors0, isValid0;
    if p.phone != "" && |p.phone| != 10 {
      errors := errors["phone" := TenDigitsMessage];
      isValid := false;
    }
  }

  /** `if (formData.emergencyPhone && formData.emergencyPhone.length !== 10)` */
  method CheckEmergencyPhone(p: ProfileForm, errors0: Errors, isValid0: bool)
    returns (errors: Errors, isValid: bool)
    requires ReportsAfter(p, errors0, 3)
    ensures ReportsAfter(p, errors, 4)
    ensures isValid <==> isValid0 && (p.emergencyPhone == "" || |p.emergencyPhone| == 10)
  {
    errors, isValid := errors0, isValid0;
    if p.emergencyPhone != "" && |p.emergencyPhone| != 10 {
      errors := errors["emergencyPhone" := TenDigitsMessage];
      isValid := false;
    }
  }

  /** `if (formData.zipCode && formData.zipCode.length !== 6)` */
  method CheckZipCode(p: ProfileForm, errors0: Errors, isValid0: bool) returns (errors: Errors, isValid: bool)
    requires ReportsAfter(p, errors0, 4)
    ensures ReportsAfter(p, errors, 5)
    ensures isValid <==> isValid0 && (p.zipCode == "" || |p.zipCode| == 6)
  {
    errors, isValid := errors0, isValid0;
    if p.zipCode != "" && |p.zipCode| != 6 {
      errors := errors["zipCode" := SixDigitsMessage];
      isValid := false;
    }
  }

  /** The messages left by `validateForm` are all gone exactly when the form may be saved. */
  lemma ValidExactly(p: ProfileForm, errors: Errors)
    requires Reports(p, errors)
    ensures errors.Keys == {} <==> Savable(p)
  {
    SavedLeavesNone(p, errors);
    NoneLeftSavable(p, errors);
  }

  lemma SavedLeavesNone(p: ProfileForm, errors: Errors)
    requires Reports(p, errors)
    ensures Savable(p) ==> errors.Keys == {}
  {
  }

  lemma NoneLeftSavable(p: ProfileForm, errors: Errors)
    requires Reports(p, errors)
    ensures errors.Keys == {} ==> Savable(p)
  {
  }

  /**
   * The body of the `PUT /Hospitals/profile` as the server's handler reads
   * it: the beds input goes out as its text (the server keeps the stored
   * count only for "" and casts any other text as Mongoose casts a number
   * field), the loaded inventory goes back as it was, and no password is sent.
   */
  function Body(p: ProfileForm): HospitalController.ProfileBody
  {
    HospitalController.ProfileBody(Some(p.hospitalName), Some(p.phone), Some(p.emergencyPhone), Some(p.website),
                                   Some(Numbers.JsonText(p.totalBeds)), Some(p.address), Some(p.city),
                                   Some(p.state), Some(p.zipCode), Some(p.hasBloodBank), Some(p.hasAmbulance),
                                   p.bloodInventory, None)
  }

  /**
   * The form `fetchProfile` fills with the whole document: every field as
   * stored, the bed count as the number's text, and the inventory with it.
   */
  function Loaded(h: HospitalSchema.Hospital): (p: ProfileForm)
    ensures p.hospitalName == h.hospitalName && p.licenseNumber == h.licenseNumber
    ensures p.ownershipType == h.ownershipType && p.email == h.email && p.phone == h.phone
    ensures p.emergencyPhone == h.emergencyPhone && p.website == h.website && p.address == h.address
    ensures p.city == h.city && p.state == h.state && p.zipCode == h.zipCode
    ensures p.hasBloodBank == h.hasBloodBank && p.hasAmbulance == h.hasAmbulance
    ensures p.bloodInventory == Some(h.inventory)
    ensures Numbers.Cast(p.totalBeds) == Some(h.totalBeds)
  {
    Numbers.CastNumberText(h.totalBeds);
    ProfileForm(h.hospitalName, h.licenseNumber, h.ownershipType, h.email, h.phone, h.emergencyPhone, h.website,
                h.address, h.city, h.state, h.zipCode, NumberText(h.totalBeds), h.hasBloodBank, h.hasAmbulance,
                Some(h.inventory))
  }

  /**
   * Saving the loaded form unedited runs the trim setters again and leaves
   * everything else the server merges as it was, the inventory included.
   */
  lemma ReloadedSave(h: HospitalSchema.Hospital)
    ensures HospitalController.MergeProfile(h, Body(Loaded(h)))
         == h.(hospitalName := Trim(h.hospitalName), website := Trim(h.website), address := Trim(h.address),
               city := Trim(h.city), state := Trim(h.state), zipCode := Trim(h.zipCode))
  {
    var b := Body(Loaded(h));
    assert OrString(b.hospitalName, h.hospitalName) == h.hospitalName && OrString(b.website, h.website) == h.website;
    assert OrString(b.phone, h.phone) == h.phone && OrString(b.emergencyPhone, h.emergencyPhone) == h.emergencyPhone;
    assert OrString(b.address, h.address) == h.address && OrString(b.city, h.city) == h.city;
    assert OrString(b.state, h.state) == h.state && OrString(b.zipCode, h.zipCode) == h.zipCode;
    Numbers.NumberTextStores(h.totalBeds, h.totalBeds);
    assert Numbers.OrCast(b.totalBeds, h.totalBeds) == Some(h.totalBeds);
    SnapshotWins(h.inventory, h.inventory);
    assert b.password.None?;
  }

  /** The licence and ownership inputs are validated or editable, but the server never stores them. */
  lemma LicenseOwnershipKept(h: HospitalSchema.Hospital, p: ProfileForm)
    ensures var m := HospitalController.MergeProfile(h, Body(p));
      m.licenseNumber == h.licenseNumber && m.ownershipType == h.ownershipType && m.email == h.email
    ensures forall l, o, e :: Body(p.(licenseNumber := l, ownershipType := o, email := e)) == Body(p)
  {
  }

  /**
   * Saving the profile writes back the inventory the page loaded: whatever
   * the counters have become on the server since, every counter of the
   * loaded document is restored.
   */
  lemma StaleInventoryRestored(h: HospitalSchema.Hospital, p: ProfileForm, loaded: HospitalSchema.Inventory)
    requires p.bloodInventory == Some(loaded) && loaded.Keys == h.inventory.Keys
    ensures HospitalController.MergeProfile(h, Body(p)).inventory == loaded
  {
    assert HospitalController.MergeProfile(h, Body(p)).inventory == HospitalController.MergeInventory(h.inventory, loaded);
    SnapshotWins(h.inventory, loaded);
  }

  /** Merging a snapshot with the same keys yields the snapshot. */
  lemma SnapshotWins(stored: HospitalSchema.Inventory, loaded: HospitalSchema.Inventory)
    requires loaded.Keys == stored.Keys
    ensures HospitalController.MergeInventory(stored, loaded) == loaded
  {
    var r := HospitalController.MergeInventory(stored, loaded);
    assert r.Keys == loaded.Keys;
    forall k | k in r ensures r[k] == loaded[k] {
    }
  }

  /** A saved name is the typed one, trimmed by the schema's setter, and never empty. */
  lemma SavedName(h: HospitalSchema.Hospital, p: ProfileForm)
    requires Savable(p)
    ensures var m := HospitalController.MergeProfile(h, Body(p));
      m.hospitalName == Trim(p.hospitalName) && m.hospitalName != ""
  {
    BlankTrim(p.hospitalName);
    assert p.hospitalName != "";
  }

  /** An empty number field is accepted by the page and keeps the stored value. */
  lemma EmptyNumbersKept(h: HospitalSchema.Hospital, p: ProfileForm)
    requires p.phone == "" && p.emergencyPhone == "" && p.totalBeds == ""
    ensures var m := HospitalController.MergeProfile(h, Body(p));
      m.phone == h.phone && m.emergencyPhone == h.emergencyPhone && m.totalBeds == h.totalBeds
  {
  }

  /**
   * The phone rules disagree: eleven digits pass the registration form and
   * the schema's ten-to-twelve rule, and this page refuses them.
   */
  lemma ElevenDigitPhone(r: HospitalRegisterPage.RegisterForm, p: ProfileForm)
    requires r.phone == "01234567890" && p.phone == r.phone
    ensures DigitsBetween(r.phone, 10, 12) && !Savable(p)
  {
  }

  /** The save through the server's profile handler. */
  method Send(db: Database, actor: Id, b: HospitalController.ProfileBody) returns (code: int)
    requires db.Valid()
    modifies db
    ensures db.Valid()
    ensures HospitalController.Reply(code, db.hospitals)
         == HospitalController.ProfileUpdate(old(db.hospitals), actor, b)
    ensures db.requests == old(db.requests) && db.users == old(db.users)
    ensures db.donors == old(db.donors) && db.admins == old(db.admins)
  {
    code := HospitalController.UpdateHospitalProfile(db, actor, b);
  }

  class Page {
    var isEditing: bool
    var formData: ProfileForm
    var errors: Errors

    ghost predicate Valid()
      reads this
    {
      Masked(formData)
    }

    constructor ()
      ensures Valid() && !isEditing && formData == InitialForm && errors == map[]
    {
      isEditing, formData, errors := false, InitialForm, map[];
    }

    /**
     * `fetchProfile` on mounting: the document the profile read returns
     * replaces the whole form; when the read fails, the form stays as it was.
     */
    method Load(fetched: Option<HospitalSchema.Hospital>)
      modifies this
      ensures formData == if fetched.Some? then Loaded(fetched.value) else old(formData)
      ensures isEditing == old(isEditing) && errors == old(errors)
    {
      if fetched.Some? {
        formData := Loaded(fetched.value);
      }
    }

    /** The Edit button. */
    method Edit()
      modifies this
      ensures isEditing && formData == old(formData) && errors == old(errors)
    {
      isEditing := true;
    }

    /** The Cancel button only leaves edit mode: the edits stay in the form. */
    method Cancel()
      modifies this
      ensures !isEditing && formData == old(formData) && errors == old(errors)
    {
      isEditing := false;
    }

    /**
     * `handleChange` for a text input or the select, reachable only in edit
     * mode: the field's message is blanked whether or not the mask lets the
     * value in.
     */
    method HandleChange(f: Field, value: string)
      requires isEditing
      modifies this
      ensures old(Valid()) ==> Valid()
      ensures isEditing
      ensures errors == Cleared(old(errors), Name(f))
      ensures formData == if Allows(f, value) then SetField(old(formData), f, value) else old(formData)
    {
      errors := Cleared(errors, Name(f));
      if Allows(f, value) {
        if Masked(formData) {
          ChangeKeepsMasked(formData, f, value);
        }
        formData := SetField(formData, f, value);
      }
    }

    /** `handleChange` for a switch: its state is stored as it is. */
    method HandleSwitch(s: Switch, checked: bool)
      requires isEditing
      modifies this
      ensures old(Valid()) ==> Valid()
      ensures isEditing
      ensures errors == Cleared(old(errors), SwitchName(s))
      ensures formData == SetSwitch(old(formData), s, checked)
    {
      errors := Cleared(errors, SwitchName(s));
      formData := SetSwitch(formData, s, checked);
    }

    /**
     * `handleSave`: an invalid form shows its messages and sends nothing; a
     * valid one is merged by the server, and a successful save leaves edit
     * mode.
     */
    method HandleSave(db: Database, actor: Id) returns (code: Option<int>)
      requires isEditing && db.Valid()
      modifies this, db
      ensures db.Valid()
      ensures formData == old(formData) && Reports(formData, errors)
      ensures code.Some? <==> Savable(formData)
      ensures code.None? ==> db.hospitals == old(db.hospitals) && isEditing
      ensures code.Some? ==>
        HospitalController.Reply(code.value, db.hospitals)
        == HospitalController.ProfileUpdate(old(db.hospitals), actor, Body(formData))
      ensures code.Some? ==> (isEditing <==> !Succeeded(code.value))
      ensures db.requests == old(db.requests) && db.users == old(db.users)
      ensures db.donors == old(db.donors) && db.admins == old(db.admins)
    {
      var isValid := Check();
      if !isValid {
        code := None;
        return;
      }
      var c := Send(db, actor, Body(formData));
      code := Some(c);
      Finish(c);
    }

    /** The messages of `validateForm` replace the shown ones. */
    method Check() returns (isValid: bool)
      modifies this
      ensures formData == old(formData) && isEditing == old(isEditing)
      ensures Reports(formData, errors)
      ensures isValid <==> Savable(formData)
    {
      errors, isValid := ValidateForm(formData);
    }

    /** After the answer: a success leaves edit mode. */
    method Finish(c: int)
      modifies this
      ensures formData == old(formData) && errors == old(errors)
      ensures isEditing <==> !Succeeded(c) && old(isEditing)
    {
      if Succeeded(c) {
        isEditing := false;
      }
    }
  }
}
