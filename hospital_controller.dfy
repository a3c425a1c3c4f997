// The hospital controller: registration with its duplicate check, login
// gated on admin approval, the profile merge, the OTP password reset, the
// inventory counter update and the list of requests addressed to the
// hospital. State-changing handlers are methods proved equal to pure
// functions of the old hospital collection.
module HospitalController {
  import opened Common
  import opened BloodGroups
  import opened Otp
  import RequestSchema
  import opened RequestOrder
  import opened HospitalSchema
  import opened Store
  import RequestController
  import Numbers

  /** A status code with the hospital collection it leaves behind. */
  datatype Reply = Reply(code: int, hospitals: seq<Hospital>)

  // ---------------------------------------------------------------------
  // registerHospital
  // ---------------------------------------------------------------------

  /**
   * The duplicate query `$or: [{ email }, { licenseNumber }, { phone }]`,
   * its values passed through the same setters as stored ones. A missing
   * value matches no stored hospital, since all three fields are required.
   */
  predicate Clashes(h: Hospital, b: Body)
  {
    (b.email.Some? && h.email == NormEmail(b.email.value))
    || (b.licenseNumber.Some? && h.licenseNumber == Trim(b.licenseNumber.value))
    || (b.phone.Some? && h.phone == b.phone.value)
  }

  function Registration(hospitals: seq<Hospital>, b: Body, id: Id): Reply
  {
    if exists j :: 0 <= j < |hospitals| && Clashes(hospitals[j], b) then Reply(400, hospitals)
    else match HospitalSchema.Create(b, id)
      case None => Reply(500, hospitals)
      case Some(h) => Reply(201, hospitals + [h])
  }

  method RegisterHospital(db: Database, b: Body) returns (code: int)
    requires db.Valid()
    modifies db
    ensures db.Valid()
    ensures Reply(code, db.hospitals) == Registration(old(db.hospitals), b, old(db.nextId))
    ensures db.requests == old(db.requests) && db.users == old(db.users)
    ensures db.donors == old(db.donors) && db.admins == old(db.admins)
  {
    if exists j :: 0 <= j < |db.hospitals| && Clashes(db.hospitals[j], b) {
      code := 400;
      return;
    }
    var h := HospitalSchema.Create(b, db.nextId);
    if h.None? {
      code := 500;
      return;
    }
    db.AddHospital(h.value);
    code := 201;
  }

  /**
   * A registration either is refused with nothing stored, or appends one
   * valid, pending hospital with an empty stock and keeps e-mail, licence and
   * phone unique.
   */
  lemma RegistrationAppends(hospitals: seq<Hospital>, b: Body, id: Id)
    requires UniqueBy(hospitals, HospitalEmail) && UniqueBy(hospitals, HospitalLicense)
    requires UniqueBy(hospitals, HospitalPhone)
    ensures var o := Registration(hospitals, b, id);
      o.code != 201 ==> o.hospitals == hospitals
    ensures var o := Registration(hospitals, b, id);
      o.code == 201 ==> (|o.hospitals| == |hospitals| + 1 && o.hospitals[..|hospitals|] == hospitals
        && HospitalSchema.Valid(o.hospitals[|hospitals|]) && o.hospitals[|hospitals|].status == "pending"
        && o.hospitals[|hospitals|].inventory == DefaultInventory()
        && UniqueBy(o.hospitals, HospitalEmail) && UniqueBy(o.hospitals, HospitalLicense)
        && UniqueBy(o.hospitals, HospitalPhone))
  {
    var o := Registration(hospitals, b, id);
    if o.code == 201 {
      var h := HospitalSchema.Create(b, id).value;
      assert o.hospitals == hospitals + [h];
      UniqueAfterAppend(hospitals, h, HospitalEmail);
      UniqueAfterAppend(hospitals, h, HospitalLicense);
      UniqueAfterAppend(hospitals, h, HospitalPhone);
    }
  }

  /** Any stored hospital sharing the e-mail, the licence or the phone blocks the registration. */
  lemma RegistrationRefusesDuplicate(hospitals: seq<Hospital>, b: Body, id: Id, j: nat)
    requires j < |hospitals| && Clashes(hospitals[j], b)
    ensures Registration(hospitals, b, id) == Reply(400, hospitals)
  {
  }

  // ---------------------------------------------------------------------
  // loginHospital
  // ---------------------------------------------------------------------

  /**
   * 401 for an unknown e-mail, 403 for an account that is not approved
   * (decided before the password is looked at), 500 when no password is
   * sent (the comparison throws), then 200 or 401 on the password.
   */
  function Login(hospitals: seq<Hospital>, email: Option<string>, password: Option<string>): int
  {
    if email.None? then 401
    else match HospitalByEmail(hospitals, email.value)
      case None => 401
      case Some(i) =>
        if hospitals[i].status != "approved" then 403
        else if password.None? then 500
        else if PasswordMatches(password.value, hospitals[i].password) then 200
        else 401
  }

  /** Login succeeds exactly for an approved hospital with that e-mail and password. */
  lemma LoginSucceeds(hospitals: seq<Hospital>, email: string, password: string)
    requires UniqueBy(hospitals, HospitalEmail)
    ensures Login(hospitals, Some(email), Some(password)) == 200 <==>
      exists j :: 0 <= j < |hospitals| && hospitals[j].email == NormEmail(email)
        && hospitals[j].status == "approved" && hospitals[j].password == password
  {
    var f := HospitalByEmail(hospitals, email);
    if f.Some? {
      UniqueOthers(hospitals, f.value, HospitalEmail);
    }
  }

  /**
   * An account that is pending or rejected gets 403 whatever password is
   * sent, so the reply tells that the e-mail is registered.
   */
  lemma LoginStatusFirst(hospitals: seq<Hospital>, j: nat, email: string, p1: Option<string>, p2: Option<string>)
    requires UniqueBy(hospitals, HospitalEmail)
    requires j < |hospitals| && hospitals[j].email == NormEmail(email) && hospitals[j].status != "approved"
    ensures Login(hospitals, Some(email), p1) == 403 == Login(hospitals, Some(email), p2)
  {
    UniqueOthers(hospitals, j, HospitalEmail);
  }

  /** A hospital that has just registered cannot log in until an admin approves it. */
  lemma RegisteredMustWait(hospitals: seq<Hospital>, b: Body, id: Id, password: Option<string>)
    requires UniqueBy(hospitals, HospitalEmail) && UniqueBy(hospitals, HospitalLicense)
    requires UniqueBy(hospitals, HospitalPhone)
    requires Registration(hospitals, b, id).code == 201
    ensures Login(Registration(hospitals, b, id).hospitals, b.email, password) == 403
  {
    RegistrationAppends(hospitals, b, id);
    var o := Registration(hospitals, b, id).hospitals;
    var n := |hospitals|;
    assert o[n].email == NormEmail(b.email.value);
    LoginStatusFirst(o, n, b.email.value, password, password);
  }

  // ---------------------------------------------------------------------
  // updateHospitalProfile
  // ---------------------------------------------------------------------

  /** The fields `updateHospitalProfile` reads from the body. */
  datatype ProfileBody = ProfileBody(
    hospitalName: Option<string>,
    phone: Option<string>,
    emergencyPhone: Option<string>,
    website: Option<string>,
    totalBeds: Option<Numbers.BodyNumber>,
    address: Option<string>,
    city: Option<string>,
    state: Option<string>,
    zipCode: Option<string>,
    hasBloodBank: Option<bool>,
    hasAmbulance: Option<bool>,
    bloodInventory: Option<Inventory>,
    password: Option<string>)

  /**
   * `{ ...old, ...update }` assigned to the nested inventory path: keys
   * outside the schema are dropped, so the eight counters remain.
   */
  function MergeInventory(stored: Inventory, update: Inventory): (r: Inventory)
    ensures r.Keys == stored.Keys
    ensures forall k :: k in r && k in update ==> r[k] == update[k]
    ensures forall k :: k in r && k !in update ==> r[k] == stored[k]
  {
    map k | k in stored :: if k in update then update[k] else stored[k]
  }

  /** The assignments of `updateHospitalProfile`, one field after the other, on the loaded document. */
  method AssignProfile(stored: Hospital, b: ProfileBody) returns (hospital: Hospital)
    ensures hospital == MergeProfile(stored, b)
  {
    hospital := stored;
    hospital := hospital.(hospitalName := Trim(OrString(b.hospitalName, hospital.hospitalName)));
    hospital := hospital.(phone := OrString(b.phone, hospital.phone));
    hospital := hospital.(emergencyPhone := OrString(b.emergencyPhone, hospital.emergencyPhone));
    hospital := hospital.(website := Trim(OrString(b.website, hospital.website)));
    var beds := Numbers.OrCast(b.totalBeds, hospital.totalBeds);
    hospital := hospital.(totalBeds := if beds.Some? then beds.value else hospital.totalBeds);
    hospital := hospital.(address := Trim(OrString(b.address, hospital.address)));
    hospital := hospital.(city := Trim(OrString(b.city, hospital.city)));
    hospital := hospital.(state := Trim(OrString(b.state, hospital.state)));
    hospital := hospital.(zipCode := Trim(OrString(b.zipCode, hospital.zipCode)));
    hospital := hospital.(hasBloodBank := if b.hasBloodBank.Some? then b.hasBloodBank.value else hospital.hasBloodBank);
    hospital := hospital.(hasAmbulance := if b.hasAmbulance.Some? then b.hasAmbulance.value else hospital.hasAmbulance);
    if b.bloodInventory.Some? {
      hospital := hospital.(inventory := MergeInventory(hospital.inventory, b.bloodInventory.value));
    }
    if b.password.Some? && b.password.value != "" {
      hospital := hospital.(password := b.password.value);
    }
  }

  /**
   * The document after the assignments: each text field takes the body's
   * value when it is non-empty and keeps its own otherwise, and the trim
   * setters run again on the result; the bed count takes any value but the
   * number 0 and "", cast to a number (a failed cast leaves the stored one,
   * and the save then fails, see `BedsCastFails`); the flags take any value
   * sent; the inventory is merged; a non-empty password replaces the old one.
   */
  function MergeProfile(h: Hospital, b: ProfileBody): (r: Hospital)
    ensures r.id == h.id && r.email == h.email && r.licenseNumber == h.licenseNumber
    ensures r.ownershipType == h.ownershipType && r.status == h.status && r.otp == h.otp
    ensures r.inventory.Keys == h.inventory.Keys
  {
    var beds := Numbers.OrCast(b.totalBeds, h.totalBeds);
    h.(hospitalName := Trim(OrString(b.hospitalName, h.hospitalName)),
       phone := OrString(b.phone, h.phone),
       emergencyPhone := OrString(b.emergencyPhone, h.emergencyPhone),
       website := Trim(OrString(b.website, h.website)),
       totalBeds := if beds.Some? then beds.value else h.totalBeds,
       address := Trim(OrString(b.address, h.address)),
       city := Trim(OrString(b.city, h.city)),
       state := Trim(OrString(b.state, h.state)),
       zipCode := Trim(OrString(b.zipCode, h.zipCode)),
       hasBloodBank := if b.hasBloodBank.Some? then b.hasBloodBank.value else h.hasBloodBank,
       hasAmbulance := if b.hasAmbulance.Some? then b.hasAmbulance.value else h.hasAmbulance,
       inventory := if b.bloodInventory.Some? then MergeInventory(h.inventory, b.bloodInventory.value)
                    else h.inventory,
       password := OrString(b.password, h.password))
  }

  /** Another hospital already holds this phone number (the unique index refuses the save). */
  predicate PhoneTaken(hospitals: seq<Hospital>, i: nat, phone: string)
  {
    exists j :: 0 <= j < |hospitals| && j != i && hospitals[j].phone == phone
  }

  /** The bed count sent is truthy and `Number` cannot cast it: the save fails. */
  predicate BedsCastFails(h: Hospital, b: ProfileBody)
  {
    Numbers.OrCast(b.totalBeds, h.totalBeds).None?
  }

  /**
   * 404 for an unknown caller, 500 when the bed count does not cast or the
   * merged document fails validation or the phone index, else 200.
   */
  function ProfileUpdate(hospitals: seq<Hospital>, actor: Id, b: ProfileBody): Reply
  {
    match HospitalIndex(hospitals, actor)
    case None => Reply(404, hospitals)
    case Some(i) =>
      var h := MergeProfile(hospitals[i], b);
      if BedsCastFails(hospitals[i], b) || !HospitalSchema.Valid(h) || PhoneTaken(hospitals, i, h.phone) then Reply(500, hospitals)
      else Reply(200, hospitals[i := h])
  }

  method UpdateHospitalProfile(db: Database, actor: Id, b: ProfileBody) returns (code: int)
    requires db.Valid()
    modifies db
    ensures db.Valid()
    ensures Reply(code, db.hospitals) == ProfileUpdate(old(db.hospitals), actor, b)
    ensures db.requests == old(db.requests) && db.users == old(db.users)
    ensures db.donors == old(db.donors) && db.admins == old(db.admins) && db.nextId == old(db.nextId)
  {
    var found := HospitalIndex(db.hospitals, actor);
    if found.None? {
      code := 404;
      return;
    }
    var i := found.value;
    var hospital := AssignProfile(db.hospitals[i], b);
    if BedsCastFails(db.hospitals[i], b) || !HospitalSchema.Valid(hospital) || PhoneTaken(db.hospitals, i, hospital.phone) {
      code := 500;
      return;
    }
    db.SetHospital(i, hospital);
    code := 200;
  }

  /**
   * Sending the same profile twice changes nothing the second time: every
   * field is a fallback merge and the setters are idempotent.
   */
  lemma MergeProfileIdempotent(h: Hospital, b: ProfileBody)
    ensures MergeProfile(MergeProfile(h, b), b) == MergeProfile(h, b)
  {
    MergeTextStable(h, b);
    MergeRestStable(h, b);
    MergeInventoryStable(h, b);
  }

  /** The six trimmed text fields of a second merge. */
  lemma MergeTextStable(h: Hospital, b: ProfileBody)
    ensures var m := MergeProfile(h, b); var m2 := MergeProfile(m, b);
      m2.hospitalName == m.hospitalName && m2.website == m.website && m2.address == m.address
      && m2.city == m.city && m2.state == m.state && m2.zipCode == m.zipCode
  {
    TrimmedOrIdempotent(b.hospitalName, h.hospitalName);
    TrimmedOrIdempotent(b.website, h.website);
    TrimmedOrIdempotent(b.address, h.address);
    TrimmedOrIdempotent(b.city, h.city);
    TrimmedOrIdempotent(b.state, h.state);
    TrimmedOrIdempotent(b.zipCode, h.zipCode);
  }

  /** The fallback fields, the flags and the inventory of a second merge. */
  lemma MergeRestStable(h: Hospital, b: ProfileBody)
    ensures var m := MergeProfile(h, b); var m2 := MergeProfile(m, b);
      m2.phone == m.phone && m2.emergencyPhone == m.emergencyPhone && m2.password == m.password
      && m2.totalBeds == m.totalBeds && m2.hasBloodBank == m.hasBloodBank && m2.hasAmbulance == m.hasAmbulance
  {
    OrStringIdempotent(b.phone, h.phone);
    OrStringIdempotent(b.emergencyPhone, h.emergencyPhone);
    OrStringIdempotent(b.password, h.password);
    if Numbers.OrCast(b.totalBeds, h.totalBeds).Some? {
      Numbers.OrCastIdempotent(b.totalBeds, h.totalBeds);
    }
  }

  /** The inventory of a second merge. */
  lemma MergeInventoryStable(h: Hospital, b: ProfileBody)
    ensures MergeProfile(MergeProfile(h, b), b).inventory == MergeProfile(h, b).inventory
  {
    if b.bloodInventory.Some? {
      MergeInventoryIdempotent(h.inventory, b.bloodInventory.value);
    }
  }

  /** Merging the same stock update twice gives what merging it once gave. */
  lemma MergeInventoryIdempotent(stored: Inventory, update: Inventory)
    ensures MergeInventory(MergeInventory(stored, update), update) == MergeInventory(stored, update)
  {
    var once := MergeInventory(stored, update);
    var twice := MergeInventory(once, update);
    assert forall k :: k in twice ==> twice[k] == once[k];
  }

  /** Empty strings and a falsy bed count (the number 0 or "") in the body never erase a stored value. */
  lemma ProfileBlanksKeep(h: Hospital, b: ProfileBody)
    requires b.phone == Some("") && b.emergencyPhone == Some("")
    requires b.totalBeds.Some? && !Numbers.Truthy(b.totalBeds.value)
    requires b.password == Some("")
    ensures var r := MergeProfile(h, b);
      r.phone == h.phone && r.emergencyPhone == h.emergencyPhone && r.totalBeds == h.totalBeds
      && r.password == h.password
  {
  }

  /**
   * A bed count sent as text is truthy even when it reads as zero: the text
   * "0" stores 0 beds, where the number 0 keeps the stored count.
   */
  lemma ProfileZeroBedsText(h: Hospital, b: ProfileBody)
    requires b.totalBeds == Some(Numbers.JsonText("0"))
    ensures MergeProfile(h, b).totalBeds == 0
    ensures MergeProfile(h, b.(totalBeds := Some(Numbers.JsonNumber(0)))).totalBeds == h.totalBeds
  {
    Numbers.ZeroTextWrites(h.totalBeds);
  }

  /** Inventory counters in the body overwrite those keys only, and unknown keys are ignored. */
  lemma ProfileInventoryMerge(h: Hospital, b: ProfileBody, g: BloodGroup)
    requires Shaped(h.inventory) && b.bloodInventory.Some?
    ensures var r := MergeProfile(h, b);
      Shaped(r.inventory)
      && r.inventory[Key(g)] == (if Key(g) in b.bloodInventory.value then b.bloodInventory.value[Key(g)]
                                 else h.inventory[Key(g)])
  {
    KeysDistinct(g, g);
  }

  /** A successful profile update keeps identity, approval and stock shape, and validates. */
  lemma ProfileUpdateKeeps(hospitals: seq<Hospital>, actor: Id, b: ProfileBody, i: nat)
    requires i < |hospitals| && hospitals[i].id == actor && UniqueBy(hospitals, HospitalId)
    ensures var o := ProfileUpdate(hospitals, actor, b);
      o.code == 200 ==> (|o.hospitals| == |hospitals| && HospitalSchema.Valid(o.hospitals[i])
        && o.hospitals[i].email == hospitals[i].email && o.hospitals[i].status == hospitals[i].status
        && o.hospitals[i].licenseNumber == hospitals[i].licenseNumber
        && (forall j :: 0 <= j < |hospitals| && j != i ==> o.hospitals[j] == hospitals[j]))
    ensures var o := ProfileUpdate(hospitals, actor, b);
      o.code != 200 ==> o.hospitals == hospitals
  {
    UniqueOthers(hospitals, i, HospitalId);
  }

  // ---------------------------------------------------------------------
  // forgotPassword / resetPassword
  // ---------------------------------------------------------------------

  /**
   * `forgotPassword`: 404 for an unknown e-mail; otherwise a fresh code and
   * expiry are saved without validation. When the e-mail cannot be sent both
   * fields are cleared again and the reply is 500.
   */
  function Forgot(hospitals: seq<Hospital>, email: Option<string>, n: nat, d: nat, now: int, delivered: bool): Reply
    requires n < d
  {
    if email.None? then Reply(404, hospitals)
    else match HospitalByEmail(hospitals, email.value)
      case None => Reply(404, hospitals)
      case Some(i) =>
        if delivered then Reply(200, hospitals[i := hospitals[i].(otp := Issue(now, n, d))])
        else Reply(500, hospitals[i := hospitals[i].(otp := Cleared)])
  }

  /** The account the reset query finds: e-mail, code and a later expiry all match. */
  function ResetTarget(hospitals: seq<Hospital>, email: Option<string>, otp: Option<int>, now: int): (r: Option<nat>)
    ensures r.Some? ==> (r.value < |hospitals| && email.Some?
      && hospitals[r.value].email == NormEmail(email.value) && Redeemable(hospitals[r.value].otp, otp, now))
    ensures r.None? && email.Some? ==> forall j :: 0 <= j < |hospitals| ==>
      !(hospitals[j].email == NormEmail(email.value) && Redeemable(hospitals[j].otp, otp, now))
  {
    if email.None? then None
    else FirstIndex(hospitals, (h: Hospital) => h.email == NormEmail(email.value) && Redeemable(h.otp, otp, now))
  }

  /**
   * `resetPassword`: 400 when no account matches; otherwise the new password
   * is set and both OTP fields cleared, and the save validates the whole
   * document (a missing or short password gives 500 and nothing changes).
   */
  function Reset(hospitals: seq<Hospital>, email: Option<string>, otp: Option<int>, newPassword: Option<string>,
                 now: int): Reply
  {
    match ResetTarget(hospitals, email, otp, now)
    case None => Reply(400, hospitals)
    case Some(i) =>
      if newPassword.None? then Reply(500, hospitals)
      else
        var h := hospitals[i].(password := newPassword.value, otp := Cleared);
        if HospitalSchema.Valid(h) then Reply(200, hospitals[i := h]) else Reply(500, hospitals)
  }

  method ForgotPassword(db: Database, email: Option<string>, n: nat, d: nat, now: int, delivered: bool)
    returns (code: int)
    requires db.Valid() && n < d
    modifies db
    ensures db.Valid()
    ensures Reply(code, db.hospitals) == Forgot(old(db.hospitals), email, n, d, now, delivered)
    ensures db.requests == old(db.requests) && db.users == old(db.users)
    ensures db.donors == old(db.donors) && db.admins == old(db.admins) && db.nextId == old(db.nextId)
  {
    if email.None? {
      code := 404;
      return;
    }
    var found := HospitalByEmail(db.hospitals, email.value);
    if found.None? {
      code := 404;
      return;
    }
    ForgotFound(db.hospitals, email.value, n, d, now, delivered, found.value);
    code := IssueCode(db, found.value, n, d, now, delivered);
  }

  /** Forgot-password for the hospital at `i`: the code is stored, and cleared again when the e-mail fails. */
  lemma ForgotFound(hospitals: seq<Hospital>, email: string, n: nat, d: nat, now: int, delivered: bool, i: nat)
    requires n < d && HospitalByEmail(hospitals, email) == Some(i)
    ensures Forgot(hospitals, Some(email), n, d, now, delivered)
      == Reply(if delivered then 200 else 500,
               hospitals[i := hospitals[i].(otp := if delivered then Issue(now, n, d) else Cleared)])
  {
  }

  /** Steps 2 to 4 of `forgotPassword` on the hospital at `i`. */
  method IssueCode(db: Database, i: nat, n: nat, d: nat, now: int, delivered: bool) returns (code: int)
    requires db.Valid() && i < |db.hospitals| && n < d
    modifies db
    ensures db.Valid()
    ensures code == (if delivered then 200 else 500)
    ensures db.hospitals
      == old(db.hospitals)[i := old(db.hospitals)[i].(otp := if delivered then Issue(now, n, d) else Cleared)]
    ensures db.requests == old(db.requests) && db.users == old(db.users)
    ensures db.donors == old(db.donors) && db.admins == old(db.admins) && db.nextId == old(db.nextId)
  {
    ghost var hospitals := db.hospitals;
    StoreOtp(db, i, Issue(now, n, d));
    if !delivered {
      StoreOtp(db, i, Cleared);
      assert db.hospitals == hospitals[i := hospitals[i].(otp := Cleared)];
      code := 500;
      return;
    }
    code := 200;
  }

  /** `hospital.resetPasswordOtp = …; hospital.resetPasswordExpire = …; hospital.save()` on the hospital at `i`. */
  method StoreOtp(db: Database, i: nat, o: OtpState)
    requires db.Valid() && i < |db.hospitals|
    modifies db
    ensures db.Valid()
    ensures db.hospitals == old(db.hospitals)[i := old(db.hospitals)[i].(otp := o)]
    ensures db.requests == old(db.requests) && db.users == old(db.users)
    ensures db.donors == old(db.donors) && db.admins == old(db.admins) && db.nextId == old(db.nextId)
  {
    var hospital := db.hospitals[i];
    assert Shaped(hospital.inventory);
    UniqueOthers(db.hospitals, i, HospitalPhone);
    db.SetHospital(i, hospital.(otp := o));
  }

  method ResetPassword(db: Database, email: Option<string>, otp: Option<int>, newPassword: Option<string>, now: int)
    returns (code: int)
    requires db.Valid()
    modifies db
    ensures db.Valid()
    ensures Reply(code, db.hospitals) == Reset(old(db.hospitals), email, otp, newPassword, now)
    ensures db.requests == old(db.requests) && db.users == old(db.users)
    ensures db.donors == old(db.donors) && db.admins == old(db.admins) && db.nextId == old(db.nextId)
  {
    var found := ResetTarget(db.hospitals, email, otp, now);
    if found.None? {
      code := 400;
      return;
    }
    if newPassword.None? {
      code := 500;
      return;
    }
    var i := found.value;
    var hospital := db.hospitals[i];
    hospital := hospital.(password := newPassword.value);
    hospital := hospital.(otp := Cleared);
    if !HospitalSchema.Valid(hospital) {
      code := 500;
      return;
    }
    UniqueOthers(db.hospitals, i, HospitalPhone);
    db.SetHospital(i, hospital);
    code := 200;
  }

  /** No hospital but the `i`-th has this (normalised) e-mail. */
  predicate OnlyWithEmail(hs: seq<Hospital>, i: nat, email: string)
  {
    i < |hs| && hs[i].email == NormEmail(email)
    && forall j :: 0 <= j < |hs| && j != i ==> hs[j].email != NormEmail(email)
  }

  lemma OnlyFromUnique(hs: seq<Hospital>, i: nat, email: string)
    requires i < |hs| && hs[i].email == NormEmail(email) && UniqueBy(hs, HospitalEmail)
    ensures OnlyWithEmail(hs, i, email)
  {
    UniqueOthers(hs, i, HospitalEmail);
  }

  lemma ByEmailIsOnly(hs: seq<Hospital>, i: nat, email: string)
    requires OnlyWithEmail(hs, i, email)
    ensures HospitalByEmail(hs, email) == Some(i)
  {
  }

  /** Writing one hospital without touching its e-mail keeps it the only one with that e-mail. */
  lemma OnlyAfterWrite(hs: seq<Hospital>, i: nat, email: string, h: Hospital)
    requires OnlyWithEmail(hs, i, email) && h.email == hs[i].email
    ensures OnlyWithEmail(hs[i := h], i, email)
  {
  }

  /** A delivered code is stored on the requested account only. */
  lemma ForgotIssues(hs: seq<Hospital>, i: nat, email: string, n: nat, d: nat, now: int)
    requires n < d && OnlyWithEmail(hs, i, email)
    ensures Forgot(hs, Some(email), n, d, now, true) == Reply(200, hs[i := hs[i].(otp := Issue(now, n, d))])
    ensures Forgot(hs, Some(email), n, d, now, false) == Reply(500, hs[i := hs[i].(otp := Cleared)])
  {
    ByEmailIsOnly(hs, i, email);
  }

  lemma ResetFinds(hs: seq<Hospital>, i: nat, email: string, otp: Option<int>, now: int)
    requires OnlyWithEmail(hs, i, email)
    ensures ResetTarget(hs, Some(email), otp, now) == (if Redeemable(hs[i].otp, otp, now) then Some(i) else None)
  {
  }

  /**
   * The reset round trip: after a delivered code, sending it back within ten
   * minutes with an acceptable password stores that password and clears the
   * code, and an approved hospital can then log in with it.
   */
  lemma ForgotThenReset(hospitals: seq<Hospital>, i: nat, email: string, n: nat, d: nat, now: int,
                        later: int, password: string)
    requires n < d && i < |hospitals| && UniqueBy(hospitals, HospitalEmail)
    requires hospitals[i].email == NormEmail(email) && HospitalSchema.Valid(hospitals[i])
    requires |password| >= 6 && later < now + Lifetime
    ensures var f := Forgot(hospitals, Some(email), n, d, now, true);
      var r := Reset(f.hospitals, Some(email), Some(CodeFromDraw(n, d)), Some(password), later);
      f.code == 200 && r.code == 200 && r.hospitals[i].password == password && r.hospitals[i].otp == Cleared
      && (hospitals[i].status == "approved" ==> Login(r.hospitals, Some(email), Some(password)) == 200)
  {
    OnlyFromUnique(hospitals, i, email);
    ForgotIssues(hospitals, i, email, n, d, now);
    var issued := hospitals[i].(otp := Issue(now, n, d));
    var f := hospitals[i := issued];
    OnlyAfterWrite(hospitals, i, email, issued);
    ResetFinds(f, i, email, Some(CodeFromDraw(n, d)), later);
    var h := issued.(password := password, otp := Cleared);
    assert HospitalSchema.Valid(h);
    assert Reset(f, Some(email), Some(CodeFromDraw(n, d)), Some(password), later) == Reply(200, f[i := h]);
    OnlyAfterWrite(f, i, email, h);
    ByEmailIsOnly(f[i := h], i, email);
  }

  /** A code works once: replaying a successful reset finds nothing. */
  lemma ResetNotReplayable(hospitals: seq<Hospital>, email: Option<string>, otp: Option<int>,
                           p: Option<string>, now: int, later: int)
    requires UniqueBy(hospitals, HospitalEmail)
    requires Reset(hospitals, email, otp, p, now).code == 200
    ensures Reset(Reset(hospitals, email, otp, p, now).hospitals, email, otp, p, later).code == 400
  {
    var i := ResetTarget(hospitals, email, otp, now).value;
    OnlyFromUnique(hospitals, i, email.value);
    var h := hospitals[i].(password := p.value, otp := Cleared);
    assert Reset(hospitals, email, otp, p, now).hospitals == hospitals[i := h];
    OnlyAfterWrite(hospitals, i, email.value, h);
    ClearedNeverRedeemable(otp, later);
    ResetFinds(hospitals[i := h], i, email.value, otp, later);
  }

  /** A code sent back ten minutes or more after it was issued is refused. */
  lemma ResetExpired(hospitals: seq<Hospital>, i: nat, email: string, n: nat, d: nat, now: int, later: int,
                     otp: Option<int>, p: Option<string>)
    requires n < d && i < |hospitals| && UniqueBy(hospitals, HospitalEmail)
    requires hospitals[i].email == NormEmail(email) && later >= now + Lifetime
    ensures Reset(Forgot(hospitals, Some(email), n, d, now, true).hospitals, Some(email), otp, p, later).code == 400
  {
    OnlyFromUnique(hospitals, i, email);
    ForgotIssues(hospitals, i, email, n, d, now);
    var issued := hospitals[i].(otp := Issue(now, n, d));
    OnlyAfterWrite(hospitals, i, email, issued);
    ResetFinds(hospitals[i := issued], i, email, otp, later);
  }

  /** When the code e-mail fails nothing is redeemable for that account afterwards. */
  lemma ForgotUndeliveredClears(hospitals: seq<Hospital>, i: nat, email: string, n: nat, d: nat, now: int,
                                otp: Option<int>, p: Option<string>, later: int)
    requires n < d && i < |hospitals| && UniqueBy(hospitals, HospitalEmail)
    requires hospitals[i].email == NormEmail(email)
    ensures var f := Forgot(hospitals, Some(email), n, d, now, false);
      f.code == 500 && Reset(f.hospitals, Some(email), otp, p, later).code == 400
  {
    OnlyFromUnique(hospitals, i, email);
    ForgotIssues(hospitals, i, email, n, d, now);
    var cleared := hospitals[i].(otp := Cleared);
    OnlyAfterWrite(hospitals, i, email, cleared);
    ClearedNeverRedeemable(otp, later);
    ResetFinds(hospitals[i := cleared], i, email, otp, later);
  }

  // ---------------------------------------------------------------------
  // updateInventory
  // ---------------------------------------------------------------------

  /**
   * The new counter value for `action` ("add", "remove" or "set"): `None`
   * stands for `NaN` (an unparsable quantity); "remove" never goes below 0;
   * any other action keeps the current value.
   */
  function Adjust(current: int, quantity: Option<string>, action: Option<string>): (r: Option<int>)
    ensures action == Some("remove") && r.Some? ==> r.value >= 0
    ensures action != Some("add") && action != Some("remove") && action != Some("set") ==> r == Some(current)
    ensures action == Some("set") ==> r == (if quantity.Some? then ParseInt(quantity.value) else None)
  {
    var q := if quantity.Some? then ParseInt(quantity.value) else None;
    if action == Some("add") then (if q.None? then None else Some(current + q.value))
    else if action == Some("remove") then
      (if q.None? then None else Some(if current - q.value < 0 then 0 else current - q.value))
    else if action == Some("set") then q
    else Some(current)
  }

  /**
   * 404 for an unknown caller; for an object member, the guard passes, the
   * assignment lands nowhere the schema stores, and the document is saved
   * unchanged; 400 for any other key that is not one of the counters; 500
   * when the new value is `NaN` (the cast fails) or the save's validation
   * fails; else the counter is written.
   */
  function InventoryUpdate(hospitals: seq<Hospital>, actor: Id, key: string, quantity: Option<string>,
                           action: Option<string>): (r: Reply)
    ensures |r.hospitals| == |hospitals|
    ensures r.code != 200 ==> r.hospitals == hospitals
  {
    match HospitalIndex(hospitals, actor)
    case None => Reply(404, hospitals)
    case Some(i) =>
      var inv := hospitals[i].inventory;
      if key !in inv then
        (if key !in ObjectMembers then Reply(400, hospitals)
         else if HospitalSchema.Valid(hospitals[i]) then Reply(200, hospitals)
         else Reply(500, hospitals))
      else match Adjust(inv[key], quantity, action)
        case None => Reply(500, hospitals)
        case Some(v) =>
          var h := hospitals[i].(inventory := inv[key := v]);
          if HospitalSchema.Valid(h) then Reply(200, hospitals[i := h]) else Reply(500, hospitals)
  }

  /** The handler's computation of the new counter, the removal block repeated as written. */
  method NewStock(currentStock: int, quantity: Option<string>, action: Option<string>) returns (newStock: Option<int>)
    ensures newStock == Adjust(currentStock, quantity, action)
  {
    var q := if quantity.Some? then ParseInt(quantity.value) else None;
    newStock := Some(currentStock);
    if action == Some("add") {
      newStock := if q.None? then None else Some(currentStock + q.value);
    } else if action == Some("remove") {
      newStock := if q.None? then None else Some(currentStock - q.value);
      if newStock.Some? && newStock.value < 0 {
        newStock := Some(0);
      }
    } else if action == Some("set") {
      newStock := q;
    }
    if action == Some("remove") {
      newStock := if q.None? then None else Some(currentStock - q.value);
      if newStock.Some? && newStock.value < 0 {
        newStock := Some(0);
      }
    }
  }

  method UpdateInventory(db: Database, actor: Id, key: string, quantity: Option<string>, action: Option<string>)
    returns (code: int)
    requires db.Valid()
    modifies db
    ensures db.Valid()
    ensures Reply(code, db.hospitals) == InventoryUpdate(old(db.hospitals), actor, key, quantity, action)
    ensures db.requests == old(db.requests) && db.users == old(db.users)
    ensures db.donors == old(db.donors) && db.admins == old(db.admins) && db.nextId == old(db.nextId)
  {
    var found := HospitalIndex(db.hospitals, actor);
    if found.None? {
      code := 404;
      return;
    }
    code := UpdateFound(db, actor, found.value, key, quantity, action);
  }

  /** `updateInventory` once the caller's document is found at index `i`. */
  method UpdateFound(db: Database, actor: Id, i: nat, key: string, quantity: Option<string>, action: Option<string>)
    returns (code: int)
    requires db.Valid() && HospitalIndex(db.hospitals, actor) == Some(i)
    modifies db
    ensures db.Valid()
    ensures Reply(code, db.hospitals) == InventoryUpdate(old(db.hospitals), actor, key, quantity, action)
    ensures db.requests == old(db.requests) && db.users == old(db.users)
    ensures db.donors == old(db.donors) && db.admins == old(db.admins) && db.nextId == old(db.nextId)
  {
    if key in db.hospitals[i].inventory {
      code := WriteCounter(db, actor, i, key, quantity, action);
    } else if key in ObjectMembers {
      code := SaveHospital(db, i, db.hospitals[i]);
    } else {
      code := 400;
    }
  }

  /** The branch of `updateInventory` where `key` is one of the caller's counters. */
  method WriteCounter(db: Database, actor: Id, i: nat, key: string, quantity: Option<string>, action: Option<string>)
    returns (code: int)
    requires db.Valid() && HospitalIndex(db.hospitals, actor) == Some(i) && key in db.hospitals[i].inventory
    modifies db
    ensures db.Valid()
    ensures Reply(code, db.hospitals) == InventoryUpdate(old(db.hospitals), actor, key, quantity, action)
    ensures db.requests == old(db.requests) && db.users == old(db.users)
    ensures db.donors == old(db.donors) && db.admins == old(db.admins) && db.nextId == old(db.nextId)
  {
    var hospital := db.hospitals[i];
    var newStock := NewStock(hospital.inventory[key], quantity, action);
    if newStock.None? {
      code := 500;
      return;
    }
    code := SaveHospital(db, i, hospital.(inventory := hospital.inventory[key := newStock.value]));
  }

  /** `hospital.save()` of a document whose identity, phone and counter keys are the stored ones. */
  method SaveHospital(db: Database, i: nat, h: Hospital) returns (code: int)
    requires db.Valid() && i < |db.hospitals| && Shaped(h.inventory)
    requires h.id == db.hospitals[i].id && h.email == db.hospitals[i].email
    requires h.licenseNumber == db.hospitals[i].licenseNumber && h.phone == db.hospitals[i].phone
    modifies db
    ensures db.Valid()
    ensures code == (if HospitalSchema.Valid(h) then 200 else 500)
    ensures db.hospitals == if code == 200 then old(db.hospitals)[i := h] else old(db.hospitals)
    ensures db.requests == old(db.requests) && db.users == old(db.users)
    ensures db.donors == old(db.donors) && db.admins == old(db.admins) && db.nextId == old(db.nextId)
  {
    if !HospitalSchema.Valid(h) {
      code := 500;
      return;
    }
    UniqueOthers(db.hospitals, i, HospitalPhone);
    db.SetHospital(i, h);
    code := 200;
  }

  /** Adding and then removing the same quantity restores a counter that was not negative. */
  lemma AddThenRemove(current: int, quantity: string)
    requires current >= 0 && ParseInt(quantity).Some?
    ensures Adjust(Adjust(current, Some(quantity), Some("add")).value, Some(quantity), Some("remove"))
      == Some(current)
  {
  }

  /** Removal clamps at zero, so removing and then adding back does not restore the counter. */
  lemma RemoveThenAddLoses()
    ensures Adjust(2, Some("5"), Some("remove")) == Some(0)
    ensures Adjust(0, Some("5"), Some("add")) == Some(5)
  {
    FiveParsed();
  }

  lemma FiveParsed()
    ensures ParseInt("5") == Some(5)
  {
    ParseIntOfNumber(5);
    assert Digits(5) == "5";
  }

  /** Setting is idempotent and ignores the current value. */
  lemma SetIgnoresCurrent(c1: int, c2: int, quantity: Option<string>)
    ensures Adjust(c1, quantity, Some("set")) == Adjust(c2, quantity, Some("set"))
    ensures var r := Adjust(c1, quantity, Some("set"));
      r.Some? ==> Adjust(r.value, quantity, Some("set")) == r
  {
  }

  /**
   * A successful update of a counter writes exactly the addressed counter
   * of the caller's inventory, keeps the eight counters, and changes no
   * other field or hospital; one addressed to an object member and a failed
   * one change nothing; a key that is neither is refused with 400.
   */
  lemma InventoryUpdateWritesOneCounter(hospitals: seq<Hospital>, actor: Id, key: string,
                                       quantity: Option<string>, action: Option<string>, i: nat)
    requires i < |hospitals| && hospitals[i].id == actor && UniqueBy(hospitals, HospitalId)
    requires Shaped(hospitals[i].inventory)
    ensures var o := InventoryUpdate(hospitals, actor, key, quantity, action);
      o.code == 200 && key !in ObjectMembers ==> (|o.hospitals| == |hospitals| && key in InventoryKeys
        && o.hospitals[i] == hospitals[i].(inventory := o.hospitals[i].inventory)
        && Shaped(o.hospitals[i].inventory)
        && Some(o.hospitals[i].inventory[key]) == Adjust(hospitals[i].inventory[key], quantity, action)
        && (forall k :: k in hospitals[i].inventory && k != key ==>
              o.hospitals[i].inventory[k] == hospitals[i].inventory[k])
        && (forall j :: 0 <= j < |hospitals| && j != i ==> o.hospitals[j] == hospitals[j]))
    ensures var o := InventoryUpdate(hospitals, actor, key, quantity, action);
      o.code != 200 || key in ObjectMembers ==> o.hospitals == hospitals
    ensures key !in InventoryKeys ==> (InventoryUpdate(hospitals, actor, key, quantity, action).code
      == if key !in ObjectMembers then 400 else if HospitalSchema.Valid(hospitals[i]) then 200 else 500)
  {
    UniqueOthers(hospitals, i, HospitalId);
    ObjectMembersNoCounters(key);
  }

  /** A written counter, read at the caller's index: only `key` changes, to the adjusted value. */
  lemma InventoryUpdateAt(hospitals: seq<Hospital>, actor: Id, key: string, quantity: Option<string>,
                          action: Option<string>, i: nat)
    requires HospitalIndex(hospitals, actor) == Some(i)
    ensures var o := InventoryUpdate(hospitals, actor, key, quantity, action);
      o.code == 200 ==>
        (key !in hospitals[i].inventory && key in ObjectMembers && o.hospitals == hospitals)
        || (key in hospitals[i].inventory
            && Adjust(hospitals[i].inventory[key], quantity, action).Some?
            && o.hospitals == hospitals[i := hospitals[i].(inventory := hospitals[i].inventory[
                 key := Adjust(hospitals[i].inventory[key], quantity, action).value])])
  {
  }

  /** The pages send labels such as "A+": only the key spelling "A_pos" addresses a counter. */
  lemma InventoryNeedsKeySpelling(hospitals: seq<Hospital>, actor: Id, i: nat, quantity: Option<string>,
                                  action: Option<string>)
    requires i < |hospitals| && hospitals[i].id == actor && UniqueBy(hospitals, HospitalId)
    requires Shaped(hospitals[i].inventory)
    ensures InventoryUpdate(hospitals, actor, "A+", quantity, action).code == 400
  {
    UniqueOthers(hospitals, i, HospitalId);
    assert "A+" !in InventoryKeys;
  }

  // ---------------------------------------------------------------------
  // getHospitalRequests
  // ---------------------------------------------------------------------

  /** The requests addressed to the caller, newest first. */
  function HospitalRequests(requests: seq<RequestSchema.BloodRequest>, actor: Id): (r: seq<RequestSchema.BloodRequest>)
    ensures Sorted(r, NewestCreated)
    ensures forall x :: x in r <==> x in requests && x.targetHospital == Some(actor)
    ensures |r| == Count(requests, (x: RequestSchema.BloodRequest) => x.targetHospital == Some(actor))
  {
    var p := (x: RequestSchema.BloodRequest) => x.targetHospital == Some(actor);
    RequestController.Selected(requests, p, NewestCreated);
    Sort(Filter(requests, p), NewestCreated)
  }

  /** A direct request the caller created shows up in the target hospital's list. */
  lemma DirectRequestReachesHospital(requests: seq<RequestSchema.BloodRequest>, hospitals: seq<Hospital>,
                                     b: RequestController.DirectBody, id: Id, actor: Id, now: int)
    requires RequestController.DirectRequest(requests, hospitals, b, id, actor, now).code == 201
    ensures var o := RequestController.DirectRequest(requests, hospitals, b, id, actor, now).requests;
      o[|requests|] in HospitalRequests(o, b.hospitalId.value)
  {
    RequestController.DirectRequestCreated(requests, hospitals, b, id, actor, now);
  }
}
