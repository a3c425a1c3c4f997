// The Donor document: gender and blood-group enums (the group stored
// upper-cased), the 45 kg weight minimum, the medical-answer enums, and the
// defaults for the last donation date (none) and availability (true).
// The schema declares no OTP fields; `otp` below holds what the password
// reset handlers would need, and the donor controller models both readings.
module DonorSchema {
  import opened Common
  import opened BloodGroups
  import opened Otp

  const MedicalAnswers: seq<string> := ["yes", "no", ""]
  const MinWeight: int := 45

  datatype Donor = Donor(
    id: Id,
    fullName: string,
    email: string,
    mobile: string,
    dob: int,
    gender: Gender,
    bloodGroup: BloodGroup,
    weight: int,
    lastDonationDate: Option<int>,
    hasDisease: string,
    hadSurgery: string,
    password: string,
    isAvailable: bool,
    otp: OtpState)

  /** The validators a save re-runs (gender and blood group are enforced by their types). */
  predicate Valid(d: Donor)
  {
    d.fullName != ""
    && d.email != "" && SchemaEmail(d.email)
    && DigitsBetween(d.mobile, 10, 10)
    && d.weight >= MinWeight
    && d.hasDisease in MedicalAnswers && d.hadSurgery in MedicalAnswers
    && |d.password| >= 6
  }

  /** The registration body as `Donor.create` receives it. */
  datatype Body = Body(
    fullName: Option<string>,
    email: Option<string>,
    mobile: Option<string>,
    dob: Option<int>,
    gender: Option<string>,
    bloodGroup: Option<string>,
    weight: Option<int>,
    lastDonationDate: Option<int>,
    hasDisease: Option<string>,
    hadSurgery: Option<string>,
    password: Option<string>)

  /** The required fields are present, and gender and blood group (after upper-casing) are inside their enums. */
  predicate Present(b: Body)
  {
    b.fullName.Some? && b.email.Some? && b.mobile.Some? && b.password.Some?
    && b.dob.Some? && b.weight.Some?
    && b.gender.Some? && ParseGender(b.gender.value).Some?
    && b.bloodGroup.Some? && ParseLabel(ToUpper(b.bloodGroup.value)).Some?
  }

  function Val(v: Option<string>): string
  {
    if v.Some? then v.value else ""
  }

  /** The document before validation: setters applied, defaults filled. */
  function Candidate(b: Body, id: Id): Donor
    requires Present(b)
  {
    Donor(
      id := id,
      fullName := Trim(Val(b.fullName)),
      email := NormEmail(Val(b.email)),
      mobile := Val(b.mobile),
      dob := b.dob.value,
      gender := ParseGender(b.gender.value).value,
      bloodGroup := ParseLabel(ToUpper(b.bloodGroup.value)).value,
      weight := b.weight.value,
      lastDonationDate := b.lastDonationDate,
      hasDisease := if b.hasDisease.Some? then b.hasDisease.value else "no",
      hadSurgery := if b.hadSurgery.Some? then b.hadSurgery.value else "no",
      password := Val(b.password),
      isAvailable := true,
      otp := Cleared)
  }

  /** `Donor.create(body)`: `None` when a validator fails. */
  function Create(b: Body, id: Id): (r: Option<Donor>)
    ensures r.Some? ==> Valid(r.value) && Present(b)
    ensures r.Some? ==> (r.value.id == id && r.value.isAvailable
      && r.value.lastDonationDate == b.lastDonationDate && r.value.otp == Cleared)
    ensures r.Some? ==> Label(r.value.bloodGroup) == ToUpper(b.bloodGroup.value)
    ensures r.Some? ==> b.email.Some? && r.value.email == NormEmail(b.email.value)
    ensures r.Some? ==> b.mobile.Some? && r.value.mobile == b.mobile.value
    ensures r.Some? ==> b.weight.Some? && r.value.weight == b.weight.value >= MinWeight
  {
    if !Present(b) then None
    else
      var d := Candidate(b, id);
      if Valid(d) then Some(d) else None
  }

  /** A weight of 44 is refused and one of 45 is the smallest accepted. */
  lemma WeightThreshold(b: Body, id: Id)
    requires Create(b, id).Some?
    ensures Create(b.(weight := Some(44)), id).None?
    ensures Create(b.(weight := Some(45)), id).Some?
  {
    var d := Candidate(b, id);
    CandidateWithWeight(b, id, 44);
    CandidateWithWeight(b, id, 45);
    ValidWithWeight(d, 44);
    ValidWithWeight(d, 45);
  }

  /** Changing the body's weight changes only the candidate's weight. */
  lemma CandidateWithWeight(b: Body, id: Id, w: int)
    requires Present(b)
    ensures Present(b.(weight := Some(w)))
    ensures Candidate(b.(weight := Some(w)), id) == Candidate(b, id).(weight := w)
  {
  }

  /** Apart from the weight minimum, validity does not depend on the weight. */
  lemma ValidWithWeight(d: Donor, w: int)
    requires Valid(d)
    ensures Valid(d.(weight := w)) <==> w >= MinWeight
  {
  }

  /** Omitted optional fields take their defaults: no last donation, "no" answers, available. */
  lemma CreateDefaults(b: Body, id: Id)
    requires Create(b, id).Some?
    requires b.lastDonationDate.None? && b.hasDisease.None? && b.hadSurgery.None?
    ensures var d := Create(b, id).value;
      d.lastDonationDate.None? && d.hasDisease == "no" && d.hadSurgery == "no" && d.isAvailable
  {
  }

  /** A medical answer outside "yes", "no" and "" is refused, including "Yes". */
  lemma CreateMedicalEnum(b: Body, id: Id)
    requires b.hasDisease == Some("Yes") || b.hadSurgery == Some("maybe")
    ensures Create(b, id).None?
  {
    if Present(b) {
      var d := Candidate(b, id);
      OutsideMedicalAnswers();
      assert d.hasDisease !in MedicalAnswers || d.hadSurgery !in MedicalAnswers;
      ValidNeedsMedicalAnswers(d);
    }
  }

  lemma ValidNeedsMedicalAnswers(d: Donor)
    requires d.hasDisease !in MedicalAnswers || d.hadSurgery !in MedicalAnswers
    ensures !Valid(d)
  {
  }

  lemma OutsideMedicalAnswers()
    ensures "Yes" !in MedicalAnswers && "maybe" !in MedicalAnswers
  {
    assert "Yes"[0] != "yes"[0] && "maybe"[0] != "no"[0];
  }

  /** The mobile number must be exactly ten digits. */
  lemma CreateMobileRule(b: Body, id: Id)
    requires b.mobile.Some? && !DigitsBetween(b.mobile.value, 10, 10)
    ensures Create(b, id).None?
  {
  }

  /** Registration sees the blood group only through its upper-cased form. */
  lemma CreateSeesUpperGroup(b: Body, id: Id, g1: string, g2: string)
    requires ToUpper(g1) == ToUpper(g2)
    ensures Create(b.(bloodGroup := Some(g1)), id) == Create(b.(bloodGroup := Some(g2)), id)
  {
    var b1, b2 := b.(bloodGroup := Some(g1)), b.(bloodGroup := Some(g2));
    assert Present(b1) <==> Present(b2);
    if Present(b1) {
      assert Candidate(b1, id) == Candidate(b2, id);
    }
  }

  /** "o-" is accepted and stored as "O-"; "0-" (a zero) is refused. */
  lemma CreateUppercasesGroup(b: Body, id: Id)
    requires Create(b.(bloodGroup := Some("O-")), id).Some?
    ensures Create(b.(bloodGroup := Some("o-")), id) == Create(b.(bloodGroup := Some("O-")), id)
    ensures Create(b.(bloodGroup := Some("O-")), id).value.bloodGroup == ONeg
    ensures Create(b.(bloodGroup := Some("0-")), id).None?
  {
    GroupSpellings();
    CreateSeesUpperGroup(b, id, "o-", "O-");
    assert !Present(b.(bloodGroup := Some("0-")));
  }

  lemma GroupSpellings()
    ensures ToUpper("o-") == "O-" == ToUpper("O-")
    ensures ParseLabel("O-") == Some(ONeg)
    ensures ParseLabel(ToUpper("0-")).None?
  {
    assert ToUpper("0-") == "0-";
  }
}
