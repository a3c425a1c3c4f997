// The donor controller: registration with its duplicate check, login, the
// profile merge and the OTP password reset. The Donor schema declares no
// OTP fields, so the reset handlers as written store no code; the pure
// functions `ForgotAsWritten` and `ResetAsWritten` model that, and the
// methods model the handlers over a schema that does hold the two fields.
module DonorController {
  import opened Common
  import opened Otp
  import opened DonorSchema
  import opened Store
  import Numbers

  /** A status code with the donor collection it leaves behind. */
  datatype Reply = Reply(code: int, donors: seq<Donor>)

  // ---------------------------------------------------------------------
  // registerDonor
  // ---------------------------------------------------------------------

  /** `$or: [{ email }, { mobile }]`, the e-mail normalised by its setters. */
  predicate Clashes(d: Donor, b: Body)
  {
    (b.email.Some? && d.email == NormEmail(b.email.value)) || (b.mobile.Some? && d.mobile == b.mobile.value)
  }

  function Registration(donors: seq<Donor>, b: Body, id: Id): Reply
  {
    if exists j :: 0 <= j < |donors| && Clashes(donors[j], b) then Reply(400, donors)
    else match DonorSchema.Create(b, id)
      case None => Reply(500, donors)
      case Some(d) => Reply(201, donors + [d])
  }

  method RegisterDonor(db: Database, b: Body) returns (code: int)
    requires db.Valid()
    modifies db
    ensures db.Valid()
    ensures Reply(code, db.donors) == Registration(old(db.donors), b, old(db.nextId))
    ensures db.requests == old(db.requests) && db.users == old(db.users)
    ensures db.hospitals == old(db.hospitals) && db.admins == old(db.admins)
  {
    if exists j :: 0 <= j < |db.donors| && Clashes(db.donors[j], b) {
      code := 400;
      return;
    }
    var d := DonorSchema.Create(b, db.nextId);
    if d.None? {
      code := 500;
      return;
    }
    db.AddDonor(d.value);
    code := 201;
  }

  /**
   * A registration either stores nothing or appends one valid, available
   * donor, and keeps e-mail and mobile number unique.
   */
  lemma RegistrationAppends(donors: seq<Donor>, b: Body, id: Id)
    requires UniqueBy(donors, DonorEmail) && UniqueBy(donors, DonorMobile)
    ensures var o := Registration(donors, b, id);
      o.code != 201 ==> o.donors == donors
    ensures var o := Registration(donors, b, id);
      o.code == 201 ==> (|o.donors| == |donors| + 1 && o.donors[..|donors|] == donors
        && DonorSchema.Valid(o.donors[|donors|]) && o.donors[|donors|].isAvailable
        && UniqueBy(o.donors, DonorEmail) && UniqueBy(o.donors, DonorMobile))
  {
    var o := Registration(donors, b, id);
    if o.code == 201 {
      var d := DonorSchema.Create(b, id).value;
      assert o.donors == donors + [d];
      UniqueAfterAppend(donors, d, DonorEmail);
      UniqueAfterAppend(donors, d, DonorMobile);
    }
  }

  /** An e-mail differing only in case or surrounding blanks counts as taken. */
  lemma RegistrationEmailNormalised(donors: seq<Donor>, b: Body, id: Id, j: nat)
    requires j < |donors| && b.email.Some? && donors[j].email == NormEmail(b.email.value)
    ensures Registration(donors, b, id) == Reply(400, donors)
  {
  }

  // ---------------------------------------------------------------------
  // loginDonor
  // ---------------------------------------------------------------------

  /** 401 for an unknown e-mail or a wrong password; 500 when no password is sent (the comparison throws). */
  function Login(donors: seq<Donor>, email: Option<string>, password: Option<string>): int
  {
    if email.None? then 401
    else match DonorByEmail(donors, email.value)
      case None => 401
      case Some(i) =>
        if password.None? then 500
        else if PasswordMatches(password.value, donors[i].password) then 200
        else 401
  }

  /** Login succeeds exactly for a donor with that e-mail and password; eligibility plays no part. */
  lemma LoginSucceeds(donors: seq<Donor>, email: string, password: string)
    requires UniqueBy(donors, DonorEmail)
    ensures Login(donors, Some(email), Some(password)) == 200 <==>
      exists j :: 0 <= j < |donors| && donors[j].email == NormEmail(email) && donors[j].password == password
  {
    var f := DonorByEmail(donors, email);
    if f.Some? {
      UniqueOthers(donors, f.value, DonorEmail);
    }
  }

  /** A freshly registered donor can log in at once with the password registered. */
  lemma RegisteredCanLogin(donors: seq<Donor>, b: Body, id: Id)
    requires UniqueBy(donors, DonorEmail) && UniqueBy(donors, DonorMobile)
    requires Registration(donors, b, id).code == 201
    ensures Login(Registration(donors, b, id).donors, b.email, b.password) == 200
  {
    RegistrationAppends(donors, b, id);
    var o := Registration(donors, b, id).donors;
    var n := |donors|;
    assert o[n].email == NormEmail(b.email.value) && o[n].password == b.password.value;
    LoginSucceeds(o, b.email.value, b.password.value);
  }

  // ---------------------------------------------------------------------
  // updateDonorProfile
  // ---------------------------------------------------------------------

  /** The fields `updateDonorProfile` reads from the body. */
  datatype ProfileBody = ProfileBody(
    fullName: Option<string>,
    mobile: Option<string>,
    weight: Option<Numbers.BodyNumber>,
    hasDisease: Option<string>,
    hadSurgery: Option<string>,
    lastDonationDate: Option<int>,
    isAvailable: Option<bool>,
    password: Option<string>)

  /**
   * The document after the assignments: non-empty body values (for the
   * weight, anything but the number 0 and "") replace the stored ones and
   * the name is trimmed again; any last donation date or availability sent
   * is taken; a non-empty password replaces the old one. A weight whose cast
   * fails leaves the stored one (the save then fails, see `WeightCastFails`).
   * E-mail, birth date, gender and blood group never change.
   */
  function MergeProfile(d: Donor, b: ProfileBody): (r: Donor)
    ensures r.id == d.id && r.email == d.email && r.dob == d.dob && r.gender == d.gender
    ensures r.bloodGroup == d.bloodGroup && r.otp == d.otp
  {
    var w := Numbers.OrCast(b.weight, d.weight);
    d.(fullName := Trim(OrString(b.fullName, d.fullName)),
       mobile := OrString(b.mobile, d.mobile),
       weight := if w.Some? then w.value else d.weight,
       hasDisease := OrString(b.hasDisease, d.hasDisease),
       hadSurgery := OrString(b.hadSurgery, d.hadSurgery),
       lastDonationDate := if b.lastDonationDate.Some? then b.lastDonationDate else d.lastDonationDate,
       isAvailable := if b.isAvailable.Some? then b.isAvailable.value else d.isAvailable,
       password := OrString(b.password, d.password))
  }

  /** Another donor already holds this mobile number (the unique index refuses the save). */
  predicate MobileTaken(donors: seq<Donor>, i: nat, mobile: string)
  {
    exists j :: 0 <= j < |donors| && j != i && donors[j].mobile == mobile
  }

  /** The weight sent is truthy and `Number` cannot cast it: the save fails. */
  predicate WeightCastFails(d: Donor, b: ProfileBody)
  {
    Numbers.OrCast(b.weight, d.weight).None?
  }

  function ProfileUpdate(donors: seq<Donor>, actor: Id, b: ProfileBody): Reply
  {
    match DonorIndex(donors, actor)
    case None => Reply(404, donors)
    case Some(i) =>
      var d := MergeProfile(donors[i], b);
      if WeightCastFails(donors[i], b) || !DonorSchema.Valid(d) || MobileTaken(donors, i, d.mobile) then Reply(500, donors)
      else Reply(200, donors[i := d])
  }

  method UpdateDonorProfile(db: Database, actor: Id, b: ProfileBody) returns (code: int)
    requires db.Valid()
    modifies db
    ensures db.Valid()
    ensures Reply(code, db.donors) == ProfileUpdate(old(db.donors), actor, b)
    ensures db.requests == old(db.requests) && db.users == old(db.users)
    ensures db.hospitals == old(db.hospitals) && db.admins == old(db.admins) && db.nextId == old(db.nextId)
  {
    var found := DonorIndex(db.donors, actor);
    if found.None? {
      code := 404;
      return;
    }
    var i := found.value;
    var donor := AssignProfile(db.donors[i], b);
    if WeightCastFails(db.donors[i], b) || !DonorSchema.Valid(donor) || MobileTaken(db.donors, i, donor.mobile) {
      code := 500;
      return;
    }
    db.SetDonor(i, donor);
    code := 200;
  }

  /** The assignments of `updateDonorProfile`, one field after the other, on the loaded document. */
  method AssignProfile(stored: Donor, b: ProfileBody) returns (donor: Donor)
    ensures donor == MergeProfile(stored, b)
  {
    donor := stored;
    donor := donor.(fullName := Trim(OrString(b.fullName, donor.fullName)));
    donor := donor.(mobile := OrString(b.mobile, donor.mobile));
    var w := Numbers.OrCast(b.weight, donor.weight);
    donor := donor.(weight := if w.Some? then w.value else donor.weight);
    donor := donor.(hasDisease := OrString(b.hasDisease, donor.hasDisease));
    donor := donor.(hadSurgery := OrString(b.hadSurgery, donor.hadSurgery));
    if b.lastDonationDate.Some? {
      donor := donor.(lastDonationDate := b.lastDonationDate);
    }
    if b.isAvailable.Some? {
      donor := donor.(isAvailable := b.isAvailable.value);
    }
    if b.password.Some? && b.password.value != "" {
      donor := donor.(password := b.password.value);
    }
  }

  /** Sending the same profile twice changes nothing the second time. */
  lemma MergeProfileIdempotent(d: Donor, b: ProfileBody)
    ensures MergeProfile(MergeProfile(d, b), b) == MergeProfile(d, b)
  {
    var m := MergeProfile(d, b);
    TrimmedOrIdempotent(b.fullName, d.fullName);
    if Numbers.OrCast(b.weight, d.weight).Some? {
      Numbers.OrCastIdempotent(b.weight, d.weight);
    }
    var mm := MergeProfile(m, b);
    assert mm.fullName == m.fullName;
  }

  /**
   * The weight floor holds on update too: a truthy weight that does not cast
   * to 45 or more, the text "0" among them, is refused and nothing is written.
   */
  lemma ProfileWeightFloor(donors: seq<Donor>, actor: Id, b: ProfileBody)
    requires b.weight.Some? && Numbers.Truthy(b.weight.value)
    requires var w := Numbers.CastBody(b.weight.value); w.None? || w.value < MinWeight
    ensures ProfileUpdate(donors, actor, b).donors == donors
    ensures ProfileUpdate(donors, actor, b).code != 200
  {
  }

  /**
   * Blank answers and a falsy weight (the number 0 or "") never erase stored
   * values, so a medical answer cannot be set back to "" through the profile.
   */
  lemma ProfileBlanksKeep(d: Donor, b: ProfileBody)
    requires b.hasDisease == Some("") && b.hadSurgery == Some("")
    requires b.weight.Some? && !Numbers.Truthy(b.weight.value)
    requires b.mobile == Some("") && b.password == Some("")
    ensures var r := MergeProfile(d, b);
      r.hasDisease == d.hasDisease && r.hadSurgery == d.hadSurgery && r.weight == d.weight
      && r.mobile == d.mobile && r.password == d.password
  {
  }

  /** A successful update keeps the donor's identity and leaves every other donor alone. */
  lemma ProfileUpdateKeeps(donors: seq<Donor>, actor: Id, b: ProfileBody, i: nat)
    requires i < |donors| && donors[i].id == actor && UniqueBy(donors, DonorId)
    ensures var o := ProfileUpdate(donors, actor, b);
      o.code == 200 ==> (|o.donors| == |donors| && DonorSchema.Valid(o.donors[i])
        && o.donors[i].email == donors[i].email && o.donors[i].bloodGroup == donors[i].bloodGroup
        && (b.lastDonationDate.Some? ==> o.donors[i].lastDonationDate == b.lastDonationDate)
        && (forall j :: 0 <= j < |donors| && j != i ==> o.donors[j] == donors[j]))
    ensures var o := ProfileUpdate(donors, actor, b);
      o.code != 200 ==> o.donors == donors
  {
    UniqueOthers(donors, i, DonorId);
  }

  // ---------------------------------------------------------------------
  // forgotPassword / resetPassword as written: the schema has no OTP paths
  // ---------------------------------------------------------------------

  /**
   * How Mongoose treats filter paths the schema does not declare:
   * `StripUnknown` drops them from the query (`strictQuery` on), `KeepUnknown`
   * sends them to the database, where no document has them.
   */
  datatype QueryMode = StripUnknown | KeepUnknown

  /** Assignments to undeclared paths are dropped, so no code is stored; only the reply differs. */
  function ForgotAsWritten(donors: seq<Donor>, email: Option<string>, delivered: bool): Reply
  {
    if email.None? || DonorByEmail(donors, email.value).None? then Reply(404, donors)
    else if delivered then Reply(200, donors)
    else Reply(500, donors)
  }

  /**
   * The reset query `{ email, resetPasswordOtp, resetPasswordExpire: { $gt } }`
   * reduces to `{ email }` when unknown paths are stripped, and matches no
   * donor when they are kept.
   */
  function ResetAsWritten(donors: seq<Donor>, email: Option<string>, otp: Option<int>,
                          newPassword: Option<string>, now: int, mode: QueryMode): Reply
  {
    var found := if mode == KeepUnknown || email.None? then None else DonorByEmail(donors, email.value);
    match found
    case None => Reply(400, donors)
    case Some(i) =>
      if newPassword.None? then Reply(500, donors)
      else
        var d := donors[i].(password := newPassword.value);
        if DonorSchema.Valid(d) then Reply(200, donors[i := d]) else Reply(500, donors)
  }

  /** As written, asking for a code changes no donor, whatever the reply. */
  lemma ForgotAsWrittenStoresNothing(donors: seq<Donor>, email: Option<string>, delivered: bool)
    ensures ForgotAsWritten(donors, email, delivered).donors == donors
  {
  }

  /**
   * With unknown filter paths kept, no reset ever succeeds, not even with
   * the code just mailed.
   */
  lemma ResetAsWrittenNeverMatches(donors: seq<Donor>, email: Option<string>, otp: Option<int>,
                                   p: Option<string>, now: int)
    ensures ResetAsWritten(donors, email, otp, p, now, KeepUnknown) == Reply(400, donors)
  {
  }

  /**
   * With unknown filter paths stripped, any code, or none, resets the
   * password of any registered e-mail.
   */
  lemma ResetAsWrittenIgnoresCode(donors: seq<Donor>, i: nat, email: string, otp: Option<int>,
                                  password: string, now: int)
    requires i < |donors| && UniqueBy(donors, DonorEmail) && donors[i].email == NormEmail(email)
    requires DonorSchema.Valid(donors[i]) && |password| >= 6
    ensures var r := ResetAsWritten(donors, Some(email), otp, Some(password), now, StripUnknown);
      r.code == 200 && r.donors[i].password == password
  {
    UniqueOthers(donors, i, DonorEmail);
  }

  // ---------------------------------------------------------------------
  // forgotPassword / resetPassword over a schema that declares the OTP paths
  // ---------------------------------------------------------------------

  function Forgot(donors: seq<Donor>, email: Option<string>, n: nat, d: nat, now: int, delivered: bool): (r: Reply)
    requires n < d
    ensures |r.donors| == |donors|
  {
    if email.None? then Reply(404, donors)
    else match DonorByEmail(donors, email.value)
      case None => Reply(404, donors)
      case Some(i) =>
        if delivered then Reply(200, donors[i := donors[i].(otp := Issue(now, n, d))])
        else Reply(500, donors[i := donors[i].(otp := Cleared)])
  }

  /** The donor the reset query finds: e-mail, code and a later expiry all match. */
  function ResetTarget(donors: seq<Donor>, email: Option<string>, otp: Option<int>, now: int): (r: Option<nat>)
    ensures r.Some? ==> (r.value < |donors| && email.Some?
      && donors[r.value].email == NormEmail(email.value) && Redeemable(donors[r.value].otp, otp, now))
    ensures r.None? && email.Some? ==> forall j :: 0 <= j < |donors| ==>
      !(donors[j].email == NormEmail(email.value) && Redeemable(donors[j].otp, otp, now))
  {
    if email.None? then None
    else FirstIndex(donors, (x: Donor) => x.email == NormEmail(email.value) && Redeemable(x.otp, otp, now))
  }

  function Reset(donors: seq<Donor>, email: Option<string>, otp: Option<int>, newPassword: Option<string>,
                 now: int): (r: Reply)
    ensures |r.donors| == |donors|
  {
    match ResetTarget(donors, email, otp, now)
    case None => Reply(400, donors)
    case Some(i) =>
      if newPassword.None? then Reply(500, donors)
      else
        var d := donors[i].(password := newPassword.value, otp := Cleared);
        if DonorSchema.Valid(d) then Reply(200, donors[i := d]) else Reply(500, donors)
  }

  method ForgotPassword(db: Database, email: Option<string>, n: nat, d: nat, now: int, delivered: bool)
    returns (code: int)
    requires db.Valid() && n < d
    modifies db
    ensures db.Valid()
    ensures Reply(code, db.donors) == Forgot(old(db.donors), email, n, d, now, delivered)
    ensures db.requests == old(db.requests) && db.users == old(db.users)
    ensures db.hospitals == old(db.hospitals) && db.admins == old(db.admins) && db.nextId == old(db.nextId)
  {
    if email.None? {
      code := 404;
      return;
    }
    var found := DonorByEmail(db.donors, email.value);
    if found.None? {
      code := 404;
      return;
    }
    ForgotFound(db.donors, email.value, n, d, now, delivered, found.value);
    code := IssueCode(db, found.value, n, d, now, delivered);
  }

  /** Forgot-password for the donor at `i`: the code is stored, and cleared again when the e-mail fails. */
  lemma ForgotFound(donors: seq<Donor>, email: string, n: nat, d: nat, now: int, delivered: bool, i: nat)
    requires n < d && DonorByEmail(donors, email) == Some(i)
    ensures Forgot(donors, Some(email), n, d, now, delivered)
      == Reply(if delivered then 200 else 500,
               donors[i := donors[i].(otp := if delivered then Issue(now, n, d) else Cleared)])
  {
  }

  /** Steps 2 to 4 of `forgotPassword` on the donor at `i`. */
  method IssueCode(db: Database, i: nat, n: nat, d: nat, now: int, delivered: bool) returns (code: int)
    requires db.Valid() && i < |db.donors| && n < d
    modifies db
    ensures db.Valid()
    ensures code == (if delivered then 200 else 500)
    ensures db.donors == old(db.donors)[i := old(db.donors)[i].(otp := if delivered then Issue(now, n, d) else Cleared)]
    ensures db.requests == old(db.requests) && db.users == old(db.users)
    ensures db.hospitals == old(db.hospitals) && db.admins == old(db.admins) && db.nextId == old(db.nextId)
  {
    ghost var donors := db.donors;
    StoreOtp(db, i, Issue(now, n, d));
    if !delivered {
      StoreOtp(db, i, Cleared);
      assert db.donors == donors[i := donors[i].(otp := Cleared)];
      code := 500;
      return;
    }
    code := 200;
  }

  /** `donor.resetPasswordOtp = …; donor.resetPasswordExpire = …; donor.save()` on the donor at `i`. */
  method StoreOtp(db: Database, i: nat, o: OtpState)
    requires db.Valid() && i < |db.donors|
    modifies db
    ensures db.Valid()
    ensures db.donors == old(db.donors)[i := old(db.donors)[i].(otp := o)]
    ensures db.requests == old(db.requests) && db.users == old(db.users)
    ensures db.hospitals == old(db.hospitals) && db.admins == old(db.admins) && db.nextId == old(db.nextId)
  {
    var donor := db.donors[i];
    assert DonorSchema.Valid(donor);
    UniqueOthers(db.donors, i, DonorMobile);
    db.SetDonor(i, donor.(otp := o));
  }

  method ResetPassword(db: Database, email: Option<string>, otp: Option<int>, newPassword: Option<string>, now: int)
    returns (code: int)
    requires db.Valid()
    modifies db
    ensures db.Valid()
    ensures Reply(code, db.donors) == Reset(old(db.donors), email, otp, newPassword, now)
    ensures db.requests == old(db.requests) && db.users == old(db.users)
    ensures db.hospitals == old(db.hospitals) && db.admins == old(db.admins) && db.nextId == old(db.nextId)
  {
    var found := ResetTarget(db.donors, email, otp, now);
    if found.None? {
      code := 400;
      return;
    }
    if newPassword.None? {
      code := 500;
      return;
    }
    var i := found.value;
    var donor := db.donors[i];
    donor := donor.(password := newPassword.value);
    donor := donor.(otp := Cleared);
    if !DonorSchema.Valid(donor) {
      code := 500;
      return;
    }
    UniqueOthers(db.donors, i, DonorMobile);
    db.SetDonor(i, donor);
    code := 200;
  }

  /** No donor but the `i`-th has this (normalised) e-mail. */
  predicate OnlyWithEmail(ds: seq<Donor>, i: nat, email: string)
  {
    i < |ds| && ds[i].email == NormEmail(email)
    && forall j :: 0 <= j < |ds| && j != i ==> ds[j].email != NormEmail(email)
  }

  lemma OnlyFromUnique(ds: seq<Donor>, i: nat, email: string)
    requires i < |ds| && ds[i].email == NormEmail(email) && UniqueBy(ds, DonorEmail)
    ensures OnlyWithEmail(ds, i, email)
  {
    UniqueOthers(ds, i, DonorEmail);
  }

  lemma OnlyAfterWrite(ds: seq<Donor>, i: nat, email: string, d: Donor)
    requires OnlyWithEmail(ds, i, email) && d.email == ds[i].email
    ensures OnlyWithEmail(ds[i := d], i, email)
  {
  }

  lemma ForgotIssues(ds: seq<Donor>, i: nat, email: string, n: nat, d: nat, now: int)
    requires n < d && OnlyWithEmail(ds, i, email)
    ensures Forgot(ds, Some(email), n, d, now, true) == Reply(200, ds[i := ds[i].(otp := Issue(now, n, d))])
    ensures Forgot(ds, Some(email), n, d, now, false) == Reply(500, ds[i := ds[i].(otp := Cleared)])
  {
  }

  lemma ResetFinds(ds: seq<Donor>, i: nat, email: string, otp: Option<int>, now: int)
    requires OnlyWithEmail(ds, i, email)
    ensures ResetTarget(ds, Some(email), otp, now) == (if Redeemable(ds[i].otp, otp, now) then Some(i) else None)
  {
  }

  /**
   * With the OTP paths declared, the mailed code resets the password within
   * ten minutes and the donor can log in with the new password, while any
   * other code is refused.
   */
  lemma ForgotThenReset(donors: seq<Donor>, i: nat, email: string, n: nat, d: nat, now: int,
                        later: int, password: string, wrong: Option<int>)
    requires n < d && i < |donors| && UniqueBy(donors, DonorEmail)
    requires donors[i].email == NormEmail(email) && DonorSchema.Valid(donors[i])
    requires |password| >= 6 && later < now + Lifetime && wrong != Some(CodeFromDraw(n, d))
    ensures var f := Forgot(donors, Some(email), n, d, now, true);
      var r := Reset(f.donors, Some(email), Some(CodeFromDraw(n, d)), Some(password), later);
      f.code == 200 && r.code == 200 && r.donors[i].password == password && r.donors[i].otp == Cleared
      && Login(r.donors, Some(email), Some(password)) == 200
    ensures var f := Forgot(donors, Some(email), n, d, now, true);
      Reset(f.donors, Some(email), wrong, Some(password), later).code == 400
  {
    OnlyFromUnique(donors, i, email);
    ForgotIssues(donors, i, email, n, d, now);
    var issued := donors[i].(otp := Issue(now, n, d));
    var f := donors[i := issued];
    OnlyAfterWrite(donors, i, email, issued);
    ResetFinds(f, i, email, Some(CodeFromDraw(n, d)), later);
    ResetFinds(f, i, email, wrong, later);
    var h := issued.(password := password, otp := Cleared);
    assert DonorSchema.Valid(h);
    assert Reset(f, Some(email), Some(CodeFromDraw(n, d)), Some(password), later) == Reply(200, f[i := h]);
    OnlyAfterWrite(f, i, email, h);
    LoginOnly(f[i := h], i, email, password);
  }

  lemma LoginOnly(ds: seq<Donor>, i: nat, email: string, password: string)
    requires OnlyWithEmail(ds, i, email) && ds[i].password == password
    ensures Login(ds, Some(email), Some(password)) == 200
  {
  }

  /** A code works once: replaying a successful reset finds nothing. */
  lemma ResetNotReplayable(donors: seq<Donor>, email: Option<string>, otp: Option<int>,
                           p: Option<string>, now: int, later: int)
    requires UniqueBy(donors, DonorEmail)
    requires Reset(donors, email, otp, p, now).code == 200
    ensures Reset(Reset(donors, email, otp, p, now).donors, email, otp, p, later).code == 400
  {
    var i := ResetTarget(donors, email, otp, now).value;
    OnlyFromUnique(donors, i, email.value);
    var d := donors[i].(password := p.value, otp := Cleared);
    assert Reset(donors, email, otp, p, now).donors == donors[i := d];
    OnlyAfterWrite(donors, i, email.value, d);
    ClearedNeverRedeemable(otp, later);
    ResetFinds(donors[i := d], i, email.value, otp, later);
  }
}
