// The requester's profile page: an edit mode, the same masks as the
// registration form, a field-by-field `validateForm` and a save that only
// goes out for a valid form and that the server merges into the account.
module UserProfilePage {
  import opened Common
  import opened Forms
  import opened Store
  import UserSchema
  import UserController
  import Numbers

  /** `formData`; `createdAt` is only displayed and is left out. */
  datatype ProfileForm = ProfileForm(
    fullName: string, email: string, mobile: string, age: string, gender: string, address: string,
    city: string, state: string, pincode: string)

  const InitialForm := ProfileForm("", "", "", "", "Male", "", "", "", "")

  /** The inputs wired to `handleChange`; the e-mail input is disabled and has no handler. */
  datatype Field = FullName | Mobile | Age | GenderField | Address | City | State | Pincode

  function Name(f: Field): string
  {
    match f
    case FullName => "fullName"
    case Mobile => "mobile"
    case Age => "age"
    case GenderField => "gender"
    case Address => "address"
    case City => "city"
    case State => "state"
    case Pincode => "pincode"
  }

  function SetField(p: ProfileForm, f: Field, value: string): ProfileForm
  {
    match f
    case FullName => p.(fullName := value)
    case Mobile => p.(mobile := value)
    case Age => p.(age := value)
    case GenderField => p.(gender := value)
    case Address => p.(address := value)
    case City => p.(city := value)
    case State => p.(state := value)
    case Pincode => p.(pincode := value)
  }

  /** The masks of `handleChange`. */
  predicate Allows(f: Field, value: string)
  {
    match f
    case FullName => LettersAndSpaces(value)
    case City => LettersAndSpaces(value)
    case State => LettersAndSpaces(value)
    case Mobile => DigitsUpTo(value, 10)
    case Pincode => DigitsUpTo(value, 6)
    case Age => DigitsUpTo(value, 3)
    case _ => true
  }

  /** What the masks keep true of the form from the empty form on. */
  predicate Masked(p: ProfileForm)
  {
    LettersAndSpaces(p.fullName) && LettersAndSpaces(p.city) && LettersAndSpaces(p.state)
    && DigitsUpTo(p.mobile, 10) && DigitsUpTo(p.pincode, 6) && DigitsUpTo(p.age, 3)
  }

  /** An edit the mask lets in lands in its own field; the masks stay true. */
  lemma ChangeKeepsMasked(p: ProfileForm, f: Field, value: string)
    requires Masked(p) && Allows(f, value)
    ensures Masked(SetField(p, f, value))
    ensures Name(f) != "email"
  {
  }

  const FieldNames: set<string> := {"fullName", "email", "age", "mobile", "pincode", "city", "state"}

  const NameMessage := "Full Name is required."
  const EmailMessage := "Invalid Email Address."
  const AgeMessage := "Must be 18 or older."
  const MobileMessage := "Mobile Number must be 10 digits."
  const PincodeMessage := "Pincode must be 6 digits."
  const CityMessage := "City is required."
  const StateMessage := "State is required."

  predicate BadEmail(p: ProfileForm)
  {
    p.email == "" || !FormEmail(p.email)
  }

  predicate BadAge(p: ProfileForm)
  {
    p.age == "" || Underage(p.age)
  }

  /** The messages `validateForm` has left once its first `n` checks have run. */
  predicate ReportsAfter(p: ProfileForm, errors: Errors, n: nat)
  {
    errors.Keys <= FieldNames
    && Flagged(errors, "fullName", n >= 1 && Trim(p.fullName) == "", NameMessage)
    && Flagged(errors, "email", n >= 2 && BadEmail(p), EmailMessage)
    && Flagged(errors, "age", n >= 3 && BadAge(p), AgeMessage)
    && Flagged(errors, "mobile", n >= 4 && (p.mobile == "" || |p.mobile| != 10), MobileMessage)
    && Flagged(errors, "pincode", n >= 5 && (p.pincode == "" || |p.pincode| != 6), PincodeMessage)
    && Flagged(errors, "city", n >= 6 && Trim(p.city) == "", CityMessage)
    && Flagged(errors, "state", n >= 7 && Trim(p.state) == "", StateMessage)
  }

  /** The message `validateForm` leaves on each field. */
  predicate Reports(p: ProfileForm, errors: Errors)
  {
    ReportsAfter(p, errors, 7)
  }

  /** The profile `validateForm` lets through. */
  predicate Savable(p: ProfileForm)
  {
    Trim(p.fullName) != "" && !BadEmail(p) && !BadAge(p) && |p.mobile| == 10 && |p.pincode| == 6
    && Trim(p.city) != "" && Trim(p.state) != ""
  }

  /** `validateForm`: the messages it leaves, and its verdict. */
  method ValidateForm(p: ProfileForm) returns (errors: Errors, isValid: bool)
    ensures Reports(p, errors)
    ensures isValid <==> Savable(p)
  {
    errors, isValid := map[], true;
    errors, isValid := CheckName(p, errors, isValid);
    errors, isValid := CheckEmail(p, errors, isValid);
    errors, isValid := CheckAge(p, errors, isValid);
    errors, isValid := CheckMobile(p, errors, isValid);
    errors, isValid := CheckPincode(p, errors, isValid);
    errors, isValid := CheckCity(p, errors, isValid);
    errors, isValid := CheckState(p, errors, isValid);
  }

  /** `if (!formData.fullName.trim())` */
  method CheckName(p: ProfileForm, errors0: Errors, isValid0: bool) returns (errors: Errors, isValid: bool)
    requires ReportsAfter(p, errors0, 0)
    ensures ReportsAfter(p, errors, 1)
    ensures isValid <==> isValid0 && !(Trim(p.fullName) == "")
  {
    errors, isValid := errors0, isValid0;
    if Trim(p.fullName) == "" {
      errors := errors["fullName" := NameMessage];
      isValid := false;
    }
  }

  /** `if (!formData.email || !emailRegex.test(formData.email))` */
  method CheckEmail(p: ProfileForm, errors0: Errors, isValid0: bool) returns (errors: Errors, isValid: bool)
    requires ReportsAfter(p, errors0, 1)
    ensures ReportsAfter(p, errors, 2)
    ensures isValid <==> isValid0 && !(BadEmail(p))
  {
    errors, isValid := errors0, isValid0;
    if BadEmail(p) {
      errors := errors["email" := EmailMessage];
      isValid := false;
    }
  }

  /** `if (!formData.age || parseInt(formData.age) < 18)` */
  method CheckAge(p: ProfileForm, errors0: Errors, isValid0: bool) returns (errors: Errors, isValid: bool)
    requires ReportsAfter(p, errors0, 2)
    ensures ReportsAfter(p, errors, 3)
    ensures isValid <==> isValid0 && !(BadAge(p))
  {
    errors, isValid := errors0, isValid0;
    if BadAge(p) {
      errors := errors["age" := AgeMessage];
      isValid := false;
    }
  }

  /** `if (!formData.mobile || formData.mobile.length !== 10)` */
  method CheckMobile(p: ProfileForm, errors0: Errors, isValid0: bool) returns (errors: Errors, isValid: bool)
    requires ReportsAfter(p, errors0, 3)
    ensures ReportsAfter(p, errors, 4)
    ensures isValid <==> isValid0 && !(p.mobile == "" || |p.mobile| != 10)
  {
    errors, isValid := errors0, isValid0;
    if p.mobile == "" || |p.mobile| != 10 {
      errors := errors["mobile" := MobileMessage];
      isValid := false;
    }
  }

  /** `if (!formData.pincode || formData.pincode.length !== 6)` */
  method CheckPincode(p: ProfileForm, errors0: Errors, isValid0: bool) returns (errors: Errors, isValid: bool)
    requires ReportsAfter(p, errors0, 4)
    ensures ReportsAfter(p, errors, 5)
    ensures isValid <==> isValid0 && !(p.pincode == "" || |p.pincode| != 6)
  {
    errors, isValid := errors0, isValid0;
    if p.pincode == "" || |p.pincode| != 6 {
      errors := errors["pincode" := PincodeMessage];
      isValid := false;
    }
  }

  /** `if (!formData.city.trim())` */
  method CheckCity(p: ProfileForm, errors0: Errors, isValid0: bool) returns (errors: Errors, isValid: bool)
    requires ReportsAfter(p, errors0, 5)
    ensures ReportsAfter(p, errors, 6)
    ensures isValid <==> isValid0 && !(Trim(p.city) == "")
  {
    errors, isValid := errors0, isValid0;
    if Trim(p.city) == "" {
      errors := errors["city" := CityMessage];
      isValid := false;
    }
  }

  /** `if (!formData.state.trim())` */
  method CheckState(p: ProfileForm, errors0: Errors, isValid0: bool) returns (errors: Errors, isValid: bool)
    requires ReportsAfter(p, errors0, 6)
    ensures ReportsAfter(p, errors, 7)
    ensures isValid <==> isValid0 && !(Trim(p.state) == "")
  {
    errors, isValid := errors0, isValid0;
    if Trim(p.state) == "" {
      errors := errors["state" := StateMessage];
      isValid := false;
    }
  }

  /**
   * The form `fetchData` fills from the profile read: the strings as
   * stored, an age of 0 as an empty input, and the gender's name.
   */
  function Loaded(v: UserController.View): (p: ProfileForm)
    ensures p.fullName == v.fullName && p.email == v.email && p.mobile == v.mobile && p.address == v.address
    ensures p.city == v.city && p.state == v.state && p.pincode == v.pincode
    ensures ParseGender(p.gender) == Some(v.gender)
    ensures v.age == 0 <==> p.age == ""
    ensures v.age != 0 ==> Numbers.Cast(p.age) == Some(v.age)
  {
    GenderRoundTrip(v.gender);
    Numbers.CastNumberText(v.age);
    ProfileForm(v.fullName, v.email, v.mobile, if v.age == 0 then "" else NumberText(v.age), GenderName(v.gender),
                v.address, v.city, v.state, v.pincode)
  }

  /** The body of the `PUT /User/profile` as the server's handler reads it: no password is ever sent. */
  function Body(p: ProfileForm): UserController.ProfileBody
  {
    UserController.ProfileBody(Some(p.fullName), Some(p.mobile), Some(p.address), Some(p.city), Some(p.state),
                               Some(p.pincode), None)
  }

  /**
   * Saving the loaded form unedited runs the trim setters again and leaves
   * everything else the server merges as it was.
   */
  lemma ReloadedSave(u: UserSchema.User)
    ensures var v := UserController.View(u.id, u.fullName, u.email, u.mobile, u.address, u.city, u.state,
                                         u.pincode, u.age, u.gender);
      UserController.MergeProfile(u, Body(Loaded(v)))
      == u.(fullName := Trim(u.fullName), address := Trim(u.address), city := Trim(u.city), state := Trim(u.state),
            pincode := Trim(u.pincode))
  {
    var b := Body(Loaded(UserController.View(u.id, u.fullName, u.email, u.mobile, u.address, u.city, u.state,
                                             u.pincode, u.age, u.gender)));
    assert OrString(b.fullName, u.fullName) == u.fullName && OrString(b.mobile, u.mobile) == u.mobile;
    assert OrString(b.address, u.address) == u.address && OrString(b.city, u.city) == u.city;
    assert OrString(b.state, u.state) == u.state && OrString(b.pincode, u.pincode) == u.pincode;
    assert b.password.None?;
  }

  /**
   * What a valid profile saves: the typed name, mobile, city, state and
   * pincode (trimmed by the schema's setters), the typed address unless it is
   * left empty, and never the age, gender, e-mail or password.
   */
  lemma SavedAsTyped(u: UserSchema.User, p: ProfileForm)
    requires Savable(p)
    ensures UserController.MergeProfile(u, Body(p))
         == u.(fullName := Trim(p.fullName), mobile := p.mobile,
               address := Trim(if p.address == "" then u.address else p.address),
               city := Trim(p.city), state := Trim(p.state), pincode := Trim(p.pincode))
  {
    SavableTyped(p);
    MergeTyped(u, p);
  }

  lemma SavableTyped(p: ProfileForm)
    requires Savable(p)
    ensures p.fullName != "" && p.city != "" && p.state != "" && p.mobile != "" && p.pincode != ""
  {
    assert |Trim(p.fullName)| <= |p.fullName|;
    assert |Trim(p.city)| <= |p.city|;
    assert |Trim(p.state)| <= |p.state|;
  }

  lemma MergeTyped(u: UserSchema.User, p: ProfileForm)
    requires p.fullName != "" && p.city != "" && p.state != "" && p.mobile != "" && p.pincode != ""
    ensures UserController.MergeProfile(u, Body(p))
         == u.(fullName := Trim(p.fullName), mobile := p.mobile,
               address := Trim(if p.address == "" then u.address else p.address),
               city := Trim(p.city), state := Trim(p.state), pincode := Trim(p.pincode))
  {
  }

  /** Edits to the age or gender, and the e-mail, change nothing the server receives. */
  lemma AgeGenderUnsent(p: ProfileForm, age: string, gender: string, email: string)
    ensures Body(p.(age := age, gender := gender, email := email)) == Body(p)
  {
  }

  /** A value of digits alone is left as it is by the schema's trimming setter. */
  lemma DigitsUntrimmed(s: string)
    requires s != "" && AllDigits(s)
    ensures Trim(s) == s
  {
    assert !IsSpace(s[0]) && !IsSpace(s[|s| - 1]);
    assert TrimStart(s) == s;
  }

  /**
   * A valid account saved from a form the page accepts, typed through its
   * masks, passes every validator of the schema, except when the address it
   * ends up with is blank: the page never checks the address.
   */
  lemma SavableAccepted(u: UserSchema.User, p: ProfileForm)
    requires UserSchema.Valid(u) && Savable(p) && Masked(p)
    requires Trim(if p.address == "" then u.address else p.address) != ""
    ensures UserSchema.Valid(UserController.MergeProfile(u, Body(p)))
  {
    SavedAsTyped(u, p);
    DigitsUntrimmed(p.pincode);
    TypedValid(u, Trim(p.fullName), p.mobile, Trim(if p.address == "" then u.address else p.address),
               Trim(p.city), Trim(p.state), p.pincode);
  }

  lemma TypedValid(u: UserSchema.User, fullName: string, mobile: string, address: string, city: string,
                   state: string, pincode: string)
    requires UserSchema.Valid(u)
    requires fullName != "" && DigitsBetween(mobile, 10, 10) && address != "" && city != "" && state != ""
    requires |pincode| == 6
    ensures UserSchema.Valid(u.(fullName := fullName, mobile := mobile, address := address, city := city,
                                state := state, pincode := pincode))
  {
  }

  /** An address of spaces passes the page and is refused by the schema, so the save fails. */
  lemma BlankAddressRefused(u: UserSchema.User, p: ProfileForm)
    requires p.address == " "
    ensures !UserSchema.Valid(UserController.MergeProfile(u, Body(p)))
  {
    assert Trim(" ") == "" by {
      assert IsSpace(" "[0]);
      assert TrimStart(" ") == TrimStart("");
    }
  }

  /** The save through the server's profile handler. */
  method Send(db: Database, actor: Id, b: UserController.ProfileBody) returns (code: int)
    requires db.Valid()
    modifies db
    ensures db.Valid()
    ensures UserController.Reply(code, db.users) == UserController.ProfileUpdate(old(db.users), actor, b)
    ensures db.requests == old(db.requests) && db.donors == old(db.donors)
    ensures db.hospitals == old(db.hospitals) && db.admins == old(db.admins)
  {
    code := UserController.UpdateUserProfile(db, actor, b);
  }

  class Page {
    var isEditing: bool
    var formData: ProfileForm
    var errors: Errors

    ghost predicate Valid()
      reads this
    {
      Masked(formData)
    }

    constructor ()
      ensures Valid() && !isEditing && formData == InitialForm && errors == map[]
    {
      isEditing, formData, errors := false, InitialForm, map[];
    }

    /**
     * `fetchData` on mounting: with a session, the caller's profile read
     * fills the form; without one, or when the read fails, the form stays as
     * it was.
     */
    method Load(signedIn: bool, users: seq<UserSchema.User>, actor: Id)
      modifies this
      ensures var view := UserController.Profile(users, actor).1;
        formData == if signedIn && view.Some? then Loaded(view.value) else old(formData)
      ensures isEditing == old(isEditing) && errors == old(errors)
    {
      if signedIn {
        var (_, view) := UserController.Profile(users, actor);
        if view.Some? {
          formData := Loaded(view.value);
        }
      }
    }

    /** The Edit button. */
    method Edit()
      modifies this
      ensures isEditing && formData == old(formData) && errors == old(errors)
    {
      isEditing := true;
    }

    /** The Cancel button only leaves edit mode: the edits stay in the form. */
    method Cancel()
      modifies this
      ensures !isEditing && formData == old(formData) && errors == old(errors)
    {
      isEditing := false;
    }

    /**
     * `handleChange`, reachable only in edit mode (the inputs are disabled
     * otherwise): the field's message is blanked whether or not the mask
     * lets the value in.
     */
    method HandleChange(f: Field, value: string)
      requires isEditing
      modifies this
      ensures old(Valid()) ==> Valid()
      ensures isEditing
      ensures errors == Cleared(old(errors), Name(f))
      ensures formData == if Allows(f, value) then SetField(old(formData), f, value) else old(formData)
    {
      errors := Cleared(errors, Name(f));
      if Allows(f, value) {
        if Masked(formData) {
          ChangeKeepsMasked(formData, f, value);
        }
        formData := SetField(formData, f, value);
      }
    }

    /**
     * `handleSave`, behind the Save button of edit mode: an invalid form
     * shows its messages and sends nothing; a valid one is merged by the
     * server, and a successful save leaves edit mode.
     */
    method HandleSave(db: Database, actor: Id) returns (code: Option<int>)
      requires isEditing && db.Valid()
      modifies this, db
      ensures db.Valid()
      ensures formData == old(formData) && Reports(formData, errors)
      ensures code.Some? <==> Savable(formData)
      ensures code.None? ==> db.users == old(db.users) && isEditing
      ensures code.Some? ==>
        UserController.Reply(code.value, db.users) == UserController.ProfileUpdate(old(db.users), actor, Body(formData))
      ensures code.Some? ==> (isEditing <==> !Succeeded(code.value))
      ensures db.requests == old(db.requests) && db.donors == old(db.donors)
      ensures db.hospitals == old(db.hospitals) && db.admins == old(db.admins)
    {
      var isValid := Check();
      if !isValid {
        code := None;
        return;
      }
      var c := Send(db, actor, Body(formData));
      code := Some(c);
      Finish(c);
    }

    /** The messages of `validateForm` replace the shown ones. */
    method Check() returns (isValid: bool)
      modifies this
      ensures formData == old(formData) && isEditing == old(isEditing)
      ensures Reports(formData, errors)
      ensures isValid <==> Savable(formData)
    {
      errors, isValid := ValidateForm(formData);
    }

    /** After the answer: a success leaves edit mode. */
    method Finish(c: int)
      modifies this
      ensures formData == old(formData) && errors == old(errors)
      ensures isEditing <==> !Succeeded(c) && old(isEditing)
    {
      if Succeeded(c) {
        isEditing := false;
      }
    }
  }
}
