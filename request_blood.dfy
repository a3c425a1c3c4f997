// The requester's free-standing request form: masked edits, an urgency
// picker, the browser's checks of six required fields and the age, a guard
// on four of those fields, a body that always asks for one unit, and a
// reset of the form after the server stores the request.
module RequestBloodPage {
  import opened Common
  import Numbers
  import Browser
  import opened RequestSchema
  import opened Store
  import RequestController

  /** `formData`; every input holds text. */
  datatype RequestForm = RequestForm(
    patientName: string, age: string, gender: string, bloodGroup: string, reason: string,
    hospitalName: string, doctorName: string, hospitalAddress: string, hospitalPhone: string,
    units: string)

  const InitialForm := RequestForm("", "", "", "", "", "", "", "", "", "1")

  datatype Field = PatientName | Age | GenderField | BloodGroupField | Reason | HospitalName | DoctorName
                 | HospitalAddress | HospitalPhone | Units

  /** The phone input's `maxLength`: longer text cannot be typed. */
  const PhoneMaxLength := 15

  /**
   * The masks of `handleChange`: names take letters and spaces, the phone
   * digits up to its `maxLength`, the rest anything.
   */
  predicate Allows(field: Field, value: string)
  {
    match field
    case PatientName => LettersAndSpaces(value)
    case DoctorName => LettersAndSpaces(value)
    case HospitalPhone => AllDigits(value) && |value| <= PhoneMaxLength
    case _ => true
  }

  /** `{ ...formData, [name]: value }` */
  function SetField(f: RequestForm, field: Field, value: string): RequestForm
  {
    match field
    case PatientName => f.(patientName := value)
    case Age => f.(age := value)
    case GenderField => f.(gender := value)
    case BloodGroupField => f.(bloodGroup := value)
    case Reason => f.(reason := value)
    case HospitalName => f.(hospitalName := value)
    case DoctorName => f.(doctorName := value)
    case HospitalAddress => f.(hospitalAddress := value)
    case HospitalPhone => f.(hospitalPhone := value)
    case Units => f.(units := value)
  }

  /** The form after one edit: a refused edit leaves it as it was. */
  function Changed(f: RequestForm, field: Field, value: string): RequestForm
  {
    if Allows(field, value) then SetField(f, field, value) else f
  }

  /** What the masks keep true of the form at every moment. */
  predicate Masked(f: RequestForm)
  {
    LettersAndSpaces(f.patientName) && LettersAndSpaces(f.doctorName) && AllDigits(f.hospitalPhone)
    && |f.hospitalPhone| <= PhoneMaxLength
  }

  /**
   * An edit either stores exactly the typed value in its own field and
   * nowhere else, or changes nothing; unmasked fields always store it; and
   * the masks stay true from the empty form on.
   */
  lemma ChangeRules(f: RequestForm, field: Field, value: string)
    ensures var g := Changed(f, field, value);
      (Allows(field, value) ==> g == SetField(f, field, value))
      && (!Allows(field, value) ==> g == f)
      && (field !in {PatientName, DoctorName, HospitalPhone} ==> g == SetField(f, field, value))
      && (Masked(f) ==> Masked(g))
  {
  }

  lemma InitialMasked()
    ensures Masked(InitialForm)
  {
  }

  /** The check at the top of `handleSubmit`. */
  predicate Filled(f: RequestForm)
  {
    f.patientName != "" && f.bloodGroup != "" && f.hospitalName != "" && f.hospitalAddress != ""
  }

  /**
   * The browser's checks before `handleSubmit` runs: the six `required`
   * inputs and selects hold a value, and the age input a whole number.
   */
  predicate BrowserAllows(f: RequestForm)
  {
    f.patientName != "" && f.bloodGroup != "" && f.age != "" && f.gender != ""
    && f.hospitalName != "" && f.hospitalAddress != "" && Browser.NumberValue(f.age)
  }

  /**
   * The handler's guard never refuses a form the browser lets through, and
   * such a form always sends an age.
   */
  lemma BrowserCoversGuard(f: RequestForm, urgency: Urgency)
    requires BrowserAllows(f)
    ensures Filled(f)
    ensures Payload(f, urgency).draft.age.Some?
  {
  }

  /**
   * Nothing bounds the age from below: a minus sign and digits pass the
   * browser, and an accepted request stores the negative age.
   */
  lemma NegativeAgeStored(f: RequestForm, urgency: Urgency, id: Id, actor: Id, now: int)
    requires |f.age| > 1 && f.age[0] == '-' && AllDigits(f.age[1..])
    ensures Browser.NumberValue(f.age)
    ensures var r := RequestController.NewRequest(Payload(f, urgency), id, actor, now);
      r.Some? ==> r.value.age == -(DecimalValue(f.age[1..]) as int)
  {
    Browser.NegativePasses(f.age);
  }

  /** `{ ...formData, urgency, units: 1 }`, as the server's create handler reads it. */
  function Payload(f: RequestForm, urgency: Urgency): RequestController.RequestBody
  {
    var d := Draft(Some(f.patientName), Numbers.Cast(f.age), Some(f.gender), Some(f.bloodGroup), Some(1),
                   Some(f.reason), Some(f.hospitalName), Some(f.doctorName), Some(f.hospitalAddress),
                   Some(f.hospitalPhone), Some(UrgencyName(urgency)));
    RequestController.RequestBody(d, None, None, None, None)
  }

  /** Whatever the units input holds, the body asks for one unit at the chosen urgency. */
  lemma PayloadOneUnit(f: RequestForm, urgency: Urgency, units: string)
    ensures Payload(f.(units := units), urgency) == Payload(f, urgency)
    ensures Payload(f, urgency).draft.units == Some(1)
    ensures ParseUrgency(Payload(f, urgency).draft.urgency.value) == Some(urgency)
  {
  }

  /**
   * A stored request from this page is pending, belongs to the caller, asks
   * for exactly one unit and carries the urgency picked.
   */
  lemma StoredAsPicked(f: RequestForm, urgency: Urgency, id: Id, actor: Id, now: int)
    ensures var r := RequestController.NewRequest(Payload(f, urgency), id, actor, now);
      r.Some? ==> r.value.units == 1 && r.value.urgency == urgency && r.value.requester == actor
                  && r.value.status == Some(Pending) && r.value.targetHospital.None?
  {
    assert ParseUrgency(UrgencyName(urgency)) == Some(urgency);
  }

  /**
   * The guard only tests for emptiness: a patient name of spaces passes it
   * and the mask, and the server, which trims the name, then refuses the
   * request.
   */
  lemma BlankNamePassesGuard(f: RequestForm, urgency: Urgency, id: Id, actor: Id, now: int)
    requires f.patientName == " " && f.bloodGroup != "" && f.hospitalName != "" && f.hospitalAddress != ""
    ensures Filled(f) && LettersAndSpaces(f.patientName)
    ensures RequestController.NewRequest(Payload(f, urgency), id, actor, now).None?
  {
    assert Trim(" ") == "";
  }

  /** The POST of a body and the create handler it reaches. */
  method Post(db: Database, actor: Id, body: RequestController.RequestBody, now: int) returns (code: int)
    requires db.Valid()
    modifies db
    ensures db.Valid()
    ensures var r := RequestController.NewRequest(body, old(db.nextId), actor, now);
      if r.Some? then code == 201 && db.requests == old(db.requests) + [r.value]
      else code == 500 && db.requests == old(db.requests)
    ensures db.users == old(db.users) && db.donors == old(db.donors)
    ensures db.hospitals == old(db.hospitals) && db.admins == old(db.admins)
  {
    code := RequestController.CreateRequest(db, actor, body, now);
  }

  class Page {
    var loading: bool
    var urgency: Urgency
    var formData: RequestForm

    ghost predicate Valid()
      reads this
    {
      Masked(formData)
    }

    constructor ()
      ensures Valid() && !loading && urgency == Moderate && formData == InitialForm
    {
      loading, urgency, formData := false, Moderate, InitialForm;
    }

    /** One of the three urgency buttons. */
    method SetUrgency(u: Urgency)
      modifies this
      ensures urgency == u && formData == old(formData) && loading == old(loading)
    {
      urgency := u;
    }

    /** `handleChange` */
    method HandleChange(field: Field, value: string)
      requires Valid()
      modifies this
      ensures Valid()
      ensures formData == Changed(old(formData), field, value)
      ensures urgency == old(urgency) && loading == old(loading)
    {
      if Allows(field, value) {
        formData := SetField(formData, field, value);
      }
    }

    /**
     * `handleSubmit`, behind the browser's checks: a form either refuses is
     * refused before anything is sent; otherwise the body goes to the server
     * and, once it is stored, the form and the urgency return to their
     * initial values. An error keeps them.
     */
    method HandleSubmit(db: Database, actor: Id, now: int) returns (code: Option<int>)
      requires Valid() && db.Valid()
      modifies this, db
      ensures Valid() && db.Valid()
      ensures code.Some? <==> BrowserAllows(old(formData)) && Filled(old(formData))
      ensures code.None? ==> db.requests == old(db.requests) && formData == old(formData)
                             && urgency == old(urgency) && loading == old(loading)
      ensures code.Some? ==>
        var r := RequestController.NewRequest(Payload(old(formData), old(urgency)), old(db.nextId), actor, now);
        !loading
        && (if r.Some? then code.value == 201 && db.requests == old(db.requests) + [r.value]
            else code.value == 500 && db.requests == old(db.requests))
      ensures code.Some? && Succeeded(code.value) ==> formData == InitialForm && urgency == Moderate
      ensures code.Some? && !Succeeded(code.value) ==> formData == old(formData) && urgency == old(urgency)
      ensures db.users == old(db.users) && db.donors == old(db.donors)
      ensures db.hospitals == old(db.hospitals) && db.admins == old(db.admins)
    {
      if !BrowserAllows(formData) || !Filled(formData) {
        code := None;
        return;
      }
      var body := Payload(formData, urgency);
      loading := true;
      var c := Post(db, actor, body, now);
      code := Some(c);
      Finish(c);
    }

    /** After the answer: reset on success, and the spinner is cleared either way. */
    method Finish(c: int)
      requires Valid()
      modifies this
      ensures Valid()
      ensures !loading
      ensures Succeeded(c) ==> formData == InitialForm && urgency == Moderate
      ensures !Succeeded(c) ==> formData == old(formData) && urgency == old(urgency)
    {
      if Succeeded(c) {
        formData := InitialForm;
        urgency := Moderate;
      }
      loading := false;
    }
  }
}
