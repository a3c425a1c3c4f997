// The BloodRequest document: its enums, defaults, setters (trim, uppercase)
// and the validators Mongoose runs when a request is created or saved.
module RequestSchema {
  import opened Common
  import opened BloodGroups

  datatype Status = Pending | Fulfilled | Rejected | Cancelled | Scheduled

  function StatusName(s: Status): string
  {
    match s
    case Pending => "Pending"
    case Fulfilled => "Fulfilled"
    case Rejected => "Rejected"
    case Cancelled => "Cancelled"
    case Scheduled => "Scheduled"
  }

  /** The `status` enum check: exact, case-sensitive match. */
  function ParseStatus(s: string): (r: Option<Status>)
    ensures r.Some? <==> s in {"Pending", "Fulfilled", "Rejected", "Cancelled", "Scheduled"}
    ensures r.Some? ==> StatusName(r.value) == s
  {
    if s == "Pending" then Some(Pending)
    else if s == "Fulfilled" then Some(Fulfilled)
    else if s == "Rejected" then Some(Rejected)
    else if s == "Cancelled" then Some(Cancelled)
    else if s == "Scheduled" then Some(Scheduled)
    else None
  }

  datatype Urgency = Critical | Moderate | Low

  function UrgencyName(u: Urgency): string
  {
    match u
    case Critical => "critical"
    case Moderate => "moderate"
    case Low => "low"
  }

  /** The `urgency` enum check: exact, lower-case match. */
  function ParseUrgency(s: string): (r: Option<Urgency>)
    ensures r.Some? <==> s in {"critical", "moderate", "low"}
    ensures r.Some? ==> UrgencyName(r.value) == s
  {
    if s == "critical" then Some(Critical)
    else if s == "moderate" then Some(Moderate)
    else if s == "low" then Some(Low)
    else None
  }

  /** `appointmentSlot: { date, time }`; either half may be left unset. */
  datatype Slot = Slot(date: Option<string>, time: Option<string>)

  /**
   * A stored request. `status` and `donorMessage` are optional because a
   * handler can assign `undefined` to them, which removes the field from the
   * stored document. Times are milliseconds since the epoch.
   */
  datatype BloodRequest = BloodRequest(
    id: Id,
    requester: Id,
    patientName: string,
    age: int,
    gender: Gender,
    bloodGroup: BloodGroup,
    units: int,
    reason: Option<string>,
    hospitalName: string,
    doctorName: string,
    hospitalAddress: string,
    hospitalPhone: string,
    appointmentSlot: Option<Slot>,
    donorMessage: Option<string>,
    urgency: Urgency,
    status: Option<Status>,
    fulfilledBy: Option<Id>,
    targetHospital: Option<Id>,
    createdAt: int,
    updatedAt: int)

  /**
   * The status a document loaded through Mongoose reports: the schema
   * default "Pending" fills an absent field.
   */
  function LoadedStatus(r: BloodRequest): (s: Status)
    ensures r.status.Some? ==> s == r.status.value
    ensures r.status.None? ==> s == Pending
  {
    if r.status.Some? then r.status.value else Pending
  }

  /** `r.status === s` on a request as the server sends it. */
  function StatusIs(s: Status): BloodRequest -> bool
  {
    (r: BloodRequest) => LoadedStatus(r) == s
  }

  /** The validators that every save re-runs on a stored request. */
  predicate Valid(r: BloodRequest)
  {
    r.units >= 1 && r.patientName != "" && r.hospitalName != "" && r.hospitalAddress != ""
  }

  /** Mongoose's `required` check on a string path: present and non-empty. */
  predicate Required(v: Option<string>)
  {
    v.Some? && v.value != ""
  }

  /** The values a handler passes to `BloodRequest.create` besides requester, status and targetHospital. */
  datatype Draft = Draft(
    patientName: Option<string>,
    age: Option<int>,
    gender: Option<string>,
    bloodGroup: Option<string>,
    units: Option<int>,
    reason: Option<string>,
    hospitalName: Option<string>,
    doctorName: Option<string>,
    hospitalAddress: Option<string>,
    hospitalPhone: Option<string>,
    urgency: Option<string>)

  function TrimmedOpt(v: Option<string>): Option<string>
  {
    if v.Some? then Some(Trim(v.value)) else None
  }

  /** Whether the schema's validators accept a draft (after the trim and uppercase setters). */
  predicate Accepts(d: Draft)
  {
    Required(TrimmedOpt(d.patientName))
    && d.age.Some?
    && d.gender.Some? && ParseGender(d.gender.value).Some?
    && d.bloodGroup.Some? && ParseLabel(ToUpper(d.bloodGroup.value)).Some?
    && (d.units.None? || d.units.value >= 1)
    && Required(d.hospitalName)
    && Required(d.hospitalAddress)
    && (d.urgency.None? || ParseUrgency(d.urgency.value).Some?)
  }

  /**
   * `BloodRequest.create({...draft, requester, targetHospital, status: "Pending"})`
   * at time `now`: `None` when validation fails (the handlers answer 500).
   */
  function Create(d: Draft, id: Id, requester: Id, target: Option<Id>, now: int): (r: Option<BloodRequest>)
    ensures r.Some? <==> Accepts(d)
    ensures r.Some? ==> Valid(r.value)
    ensures r.Some? ==> (r.value.id == id && r.value.requester == requester
      && r.value.status == Some(Pending) && r.value.fulfilledBy == None
      && r.value.targetHospital == target && r.value.appointmentSlot == None
      && r.value.createdAt == now && r.value.updatedAt == now)
    ensures r.Some? ==> Label(r.value.bloodGroup) == ToUpper(d.bloodGroup.value)
  {
    if !Accepts(d) then None
    else
      Some(BloodRequest(
        id := id,
        requester := requester,
        patientName := Trim(d.patientName.value),
        age := d.age.value,
        gender := ParseGender(d.gender.value).value,
        bloodGroup := ParseLabel(ToUpper(d.bloodGroup.value)).value,
        units := if d.units.Some? then d.units.value else 1,
        reason := TrimmedOpt(d.reason),
        hospitalName := d.hospitalName.value,
        doctorName := if d.doctorName.Some? then d.doctorName.value else "",
        hospitalAddress := d.hospitalAddress.value,
        hospitalPhone := if d.hospitalPhone.Some? then d.hospitalPhone.value else "",
        appointmentSlot := None,
        donorMessage := Some(""),
        urgency := if d.urgency.Some? then ParseUrgency(d.urgency.value).value else Moderate,
        status := Some(Pending),
        fulfilledBy := None,
        targetHospital := target,
        createdAt := now,
        updatedAt := now))
  }

  /** Omitted optional fields take the schema defaults. */
  lemma CreateDefaults(d: Draft, id: Id, requester: Id, now: int)
    requires Accepts(d)
    requires d.units.None? && d.urgency.None? && d.doctorName.None? && d.hospitalPhone.None?
    ensures var r := Create(d, id, requester, None, now).value;
      r.units == 1 && r.urgency == Moderate && r.doctorName == "" && r.hospitalPhone == ""
      && r.donorMessage == Some("") && r.targetHospital == None
  {
  }

  /** A units value below 1 is refused whatever the rest of the draft holds. */
  lemma CreateRejectsFewUnits(d: Draft, id: Id, requester: Id, target: Option<Id>, now: int)
    requires d.units.Some? && d.units.value < 1
    ensures Create(d, id, requester, target, now) == None
  {
  }

  /** Each required field, when missing, makes creation fail. */
  lemma CreateNeedsRequiredFields(d: Draft, id: Id, requester: Id, target: Option<Id>, now: int)
    requires d.patientName.None? || d.age.None? || d.gender.None? || d.bloodGroup.None?
      || d.hospitalName.None? || d.hospitalAddress.None?
    ensures Create(d, id, requester, target, now) == None
  {
  }

  /** The blood group is upper-cased before the enum check, so "ab+" is stored as "AB+". */
  lemma CreateUppercasesGroup(d: Draft, id: Id, requester: Id, now: int)
    requires Accepts(d.(bloodGroup := Some("AB+")))
    ensures Create(d.(bloodGroup := Some("ab+")), id, requester, None, now).Some?
    ensures Create(d.(bloodGroup := Some("ab+")), id, requester, None, now).value.bloodGroup == ABPos
  {
    LowerAbPos();
    var d1 := d.(bloodGroup := Some("ab+"));
    AcceptsSeesUpperGroup(d, "AB+", "ab+");
    assert Create(d1, id, requester, None, now).value.bloodGroup == ParseLabel(ToUpper("ab+")).value;
  }

  lemma LowerAbPos()
    ensures ToUpper("ab+") == "AB+" && ToUpper("AB+") == "AB+" && ParseLabel("AB+") == Some(ABPos)
  {
  }

  /** Acceptance sees the blood group only through its upper-cased form. */
  lemma AcceptsSeesUpperGroup(d: Draft, g1: string, g2: string)
    requires ToUpper(g1) == ToUpper(g2)
    ensures Accepts(d.(bloodGroup := Some(g1))) == Accepts(d.(bloodGroup := Some(g2)))
  {
  }
}
