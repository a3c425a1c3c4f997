// The admin controller: the single-admin registration, login, the OTP
// password reset, the dashboard statistics with their zero-filled month and
// blood-group series, the per-donor donation totals, and the unguarded
// hospital status update.
module AdminController {
  import opened Common
  import opened BloodGroups
  import opened Calendar
  import opened Otp
  import opened Tally
  import opened RequestSchema
  import opened HospitalSchema
  import opened DonorSchema
  import opened Store
  import RequestController

  /** A status code with the admin collection it leaves behind. */
  datatype Reply = Reply(code: int, admins: seq<Admin>)

  /** The Admin schema's validators: a name and an e-mail, and a password of at least 6 characters. */
  predicate AdminValid(a: Admin)
  {
    a.fullName != "" && a.email != "" && |a.password| >= 6
  }

  // ---------------------------------------------------------------------
  // registerAdmin
  // ---------------------------------------------------------------------

  datatype AdminBody = AdminBody(fullName: Option<string>, email: Option<string>, password: Option<string>)

  /** `Admin.create`: setters applied, then validated; the role is always "super-admin". */
  function NewAdmin(b: AdminBody, id: Id): (r: Option<Admin>)
    ensures r.Some? ==> AdminValid(r.value) && r.value.role == "super-admin" && r.value.id == id
    ensures r.Some? ==> b.email.Some? && r.value.email == NormEmail(b.email.value)
  {
    if b.fullName.None? || b.email.None? || b.password.None? then None
    else
      var a := Admin(id, Trim(b.fullName.value), NormEmail(b.email.value), b.password.value, "super-admin", Cleared);
      if AdminValid(a) then Some(a) else None
  }

  /** 403 as soon as any admin exists; otherwise 201, or 500 when validation fails. */
  function Registration(admins: seq<Admin>, b: AdminBody, id: Id): Reply
  {
    if |admins| > 0 then Reply(403, admins)
    else match NewAdmin(b, id)
      case None => Reply(500, admins)
      case Some(a) => Reply(201, [a])
  }

  method RegisterAdmin(db: Database, b: AdminBody) returns (code: int)
    requires db.Valid()
    modifies db
    ensures db.Valid()
    ensures Reply(code, db.admins) == Registration(old(db.admins), b, old(db.nextId))
    ensures db.requests == old(db.requests) && db.users == old(db.users)
    ensures db.donors == old(db.donors) && db.hospitals == old(db.hospitals)
  {
    var adminCount := |db.admins|;
    if adminCount > 0 {
      code := 403;
      return;
    }
    var a := NewAdmin(b, db.nextId);
    if a.None? {
      code := 500;
      return;
    }
    db.AddAdmin(a.value);
    code := 201;
  }

  /**
   * There is never more than one admin: once one exists every further
   * registration is refused and changes nothing, whatever the body.
   */
  lemma SingleAdmin(admins: seq<Admin>, b: AdminBody, c: AdminBody, id: Id, id2: Id)
    requires |admins| <= 1
    ensures |Registration(admins, b, id).admins| <= 1
    ensures var first := Registration(admins, b, id);
      first.code == 201 ==> (admins == [] && first.admins[0].role == "super-admin"
        && Registration(first.admins, c, id2) == Reply(403, first.admins))
    ensures |admins| == 1 ==> Registration(admins, b, id) == Reply(403, admins)
  {
  }

  // ---------------------------------------------------------------------
  // loginAdmin
  // ---------------------------------------------------------------------

  /** 401 for an unknown e-mail or a wrong password; 500 when no password is sent (the comparison throws). */
  function Login(admins: seq<Admin>, email: Option<string>, password: Option<string>): int
  {
    if email.None? then 401
    else match AdminByEmail(admins, email.value)
      case None => 401
      case Some(i) =>
        if password.None? then 500
        else if PasswordMatches(password.value, admins[i].password) then 200
        else 401
  }

  /** With at most one admin, login succeeds exactly for that admin's e-mail and password. */
  lemma LoginSucceeds(admins: seq<Admin>, email: string, password: string)
    requires |admins| <= 1
    ensures Login(admins, Some(email), Some(password)) == 200 <==>
      (|admins| == 1 && admins[0].email == NormEmail(email) && admins[0].password == password)
  {
  }

  // ---------------------------------------------------------------------
  // forgotPassword / resetPassword
  // ---------------------------------------------------------------------

  function Forgot(admins: seq<Admin>, email: Option<string>, n: nat, d: nat, now: int, delivered: bool): Reply
    requires n < d
  {
    if email.None? then Reply(404, admins)
    else match AdminByEmail(admins, email.value)
      case None => Reply(404, admins)
      case Some(i) =>
        if delivered then Reply(200, admins[i := admins[i].(otp := Issue(now, n, d))])
        else Reply(500, admins[i := admins[i].(otp := Cleared)])
  }

  /** The admin the reset query finds: e-mail, code and a later expiry all match. */
  function ResetTarget(admins: seq<Admin>, email: Option<string>, otp: Option<int>, now: int): (r: Option<nat>)
    ensures r.Some? ==> (r.value < |admins| && email.Some?
      && admins[r.value].email == NormEmail(email.value) && Redeemable(admins[r.value].otp, otp, now))
    ensures r.None? && email.Some? ==> forall j :: 0 <= j < |admins| ==>
      !(admins[j].email == NormEmail(email.value) && Redeemable(admins[j].otp, otp, now))
  {
    if email.None? then None
    else FirstIndex(admins, (x: Admin) => x.email == NormEmail(email.value) && Redeemable(x.otp, otp, now))
  }

  function Reset(admins: seq<Admin>, email: Option<string>, otp: Option<int>, newPassword: Option<string>,
                 now: int): Reply
  {
    match ResetTarget(admins, email, otp, now)
    case None => Reply(400, admins)
    case Some(i) =>
      if newPassword.None? then Reply(500, admins)
      else
        var a := admins[i].(password := newPassword.value, otp := Cleared);
        if AdminValid(a) then Reply(200, admins[i := a]) else Reply(500, admins)
  }

  method ForgotPassword(db: Database, email: Option<string>, n: nat, d: nat, now: int, delivered: bool)
    returns (code: int)
    requires db.Valid() && n < d
    modifies db
    ensures db.Valid()
    ensures Reply(code, db.admins) == Forgot(old(db.admins), email, n, d, now, delivered)
    ensures db.requests == old(db.requests) && db.users == old(db.users) && db.donors == old(db.donors)
    ensures db.hospitals == old(db.hospitals) && db.nextId == old(db.nextId)
  {
    if email.None? {
      code := 404;
      return;
    }
    var found := AdminByEmail(db.admins, email.value);
    if found.None? {
      code := 404;
      return;
    }
    var i := found.value;
    var admin := db.admins[i];
    admin := admin.(otp := Issue(now, n, d));
    db.SetAdmin(i, admin);
    if !delivered {
      admin := admin.(otp := Cleared);
      db.SetAdmin(i, admin);
      code := 500;
      return;
    }
    code := 200;
  }

  method ResetPassword(db: Database, email: Option<string>, otp: Option<int>, newPassword: Option<string>, now: int)
    returns (code: int)
    requires db.Valid()
    modifies db
    ensures db.Valid()
    ensures Reply(code, db.admins) == Reset(old(db.admins), email, otp, newPassword, now)
    ensures db.requests == old(db.requests) && db.users == old(db.users) && db.donors == old(db.donors)
    ensures db.hospitals == old(db.hospitals) && db.nextId == old(db.nextId)
  {
    var found := ResetTarget(db.admins, email, otp, now);
    if found.None? {
      code := 400;
      return;
    }
    if newPassword.None? {
      code := 500;
      return;
    }
    var i := found.value;
    var admin := db.admins[i];
    admin := admin.(password := newPassword.value);
    admin := admin.(otp := Cleared);
    if !AdminValid(admin) {
      code := 500;
      return;
    }
    db.SetAdmin(i, admin);
    code := 200;
  }

  /**
   * The mailed code resets the admin password within ten minutes, after
   * which the admin logs in with the new password and the code is spent;
   * a code other than the mailed one is refused.
   */
  lemma ForgotThenReset(a: Admin, email: string, n: nat, d: nat, now: int, later: int,
                        password: string, wrong: Option<int>)
    requires n < d && a.email == NormEmail(email) && AdminValid(a)
    requires |password| >= 6 && later < now + Lifetime && wrong != Some(CodeFromDraw(n, d))
    ensures var f := Forgot([a], Some(email), n, d, now, true);
      var r := Reset(f.admins, Some(email), Some(CodeFromDraw(n, d)), Some(password), later);
      f.code == 200 && r.code == 200 && r.admins[0].password == password && r.admins[0].otp == Cleared
      && Login(r.admins, Some(email), Some(password)) == 200
      && Reset(r.admins, Some(email), Some(CodeFromDraw(n, d)), Some(password), later).code == 400
    ensures var f := Forgot([a], Some(email), n, d, now, true);
      Reset(f.admins, Some(email), wrong, Some(password), later).code == 400
  {
    var issued := a.(otp := Issue(now, n, d));
    assert Forgot([a], Some(email), n, d, now, true) == Reply(200, [issued]);
    var h := issued.(password := password, otp := Cleared);
    assert ResetTarget([issued], Some(email), Some(CodeFromDraw(n, d)), later) == Some(0);
    assert Reset([issued], Some(email), Some(CodeFromDraw(n, d)), Some(password), later) == Reply(200, [h]);
    assert ResetTarget([h], Some(email), Some(CodeFromDraw(n, d)), later).None?;
    assert ResetTarget([issued], Some(email), wrong, later).None?;
  }

  /** An undelivered code leaves nothing to redeem. */
  lemma ForgotUndeliveredClears(admins: seq<Admin>, email: string, n: nat, d: nat, now: int,
                                otp: Option<int>, p: Option<string>, later: int)
    requires n < d && |admins| <= 1
    ensures var f := Forgot(admins, Some(email), n, d, now, false);
      f.code != 200 && Reset(f.admins, Some(email), otp, p, later).code == 400
    ensures var f := Forgot(admins, Some(email), n, d, now, false);
      AdminByEmail(admins, email).Some? ==> f.admins == [admins[0].(otp := Cleared)]
  {
    var f := Forgot(admins, Some(email), n, d, now, false);
    ClearedNeverRedeemable(otp, later);
    var found := AdminByEmail(admins, email);
    if found.Some? {
      assert found.value == 0;
      assert f.admins == [admins[0].(otp := Cleared)];
      assert ResetTarget(f.admins, Some(email), otp, later).None?;
    } else {
      assert f.admins == admins;
      assert ResetTarget(f.admins, Some(email), otp, later).None?;
    }
  }

  // ---------------------------------------------------------------------
  // getAdminStats
  // ---------------------------------------------------------------------

  datatype Counts = Counts(users: nat, donors: nat, hospitals: nat, requests: nat)

  datatype Stats = Stats(counts: Counts, monthlyRequests: seq<Bucket>, bloodDistribution: seq<Bucket>)

  /** Created in `year`: `createdAt` in `[year-01-01, (year+1)-01-01)`. */
  function CreatedIn(year: int): BloodRequest -> bool
  {
    (r: BloodRequest) => DateOf(r.createdAt).year == year
  }

  /** `$month: "$createdAt"` less one: the index into the month names. */
  function CreatedMonth(r: BloodRequest): int
  {
    DateOf(r.createdAt).month - 1
  }

  function IsFulfilled(r: BloodRequest): bool
  {
    r.status == Some(Fulfilled)
  }

  /** The position of a group in the fixed series order A+, A-, B+, B-, AB+, AB-, O+, O-. */
  function GroupIndex(g: BloodGroup): (i: int)
    ensures 0 <= i < 8 && AllGroups[i] == g
  {
    match g
    case APos => 0
    case ANeg => 1
    case BPos => 2
    case BNeg => 3
    case ABPos => 4
    case ABNeg => 5
    case OPos => 6
    case ONeg => 7
  }

  function RequestGroup(r: BloodRequest): int
  {
    GroupIndex(r.bloodGroup)
  }

  /** The months Jan..Dec with the number of this year's requests created in each, zero when none. */
  function MonthlyRequests(requests: seq<BloodRequest>, year: int): (r: seq<Bucket>)
    ensures |r| == 12
    ensures forall i :: 0 <= i < 12 ==>
      r[i].name == MonthNames[i] && r[i].count == Count(requests, InBucket(CreatedIn(year), CreatedMonth, i))
  {
    var b := Buckets(requests, CreatedIn(year), CreatedMonth, 12);
    seq(12, i requires 0 <= i < 12 => Bucket(MonthNames[i], b[i]))
  }

  /** The eight groups in fixed order with their number of Fulfilled requests, zero when none. */
  function BloodDistribution(requests: seq<BloodRequest>): (r: seq<Bucket>)
    ensures |r| == 8
    ensures forall i :: 0 <= i < 8 ==>
      r[i].name == Label(AllGroups[i]) && r[i].count == Count(requests, InBucket(IsFulfilled, RequestGroup, i))
  {
    var b := Buckets(requests, IsFulfilled, RequestGroup, 8);
    seq(8, i requires 0 <= i < 8 => Bucket(Label(AllGroups[i]), b[i]))
  }

  /** `getAdminStats`, the current year taken from the clock. */
  function AdminStats(db: Snapshot, now: int): Stats
  {
    Stats(Counts(|db.users|, |db.donors|, |db.hospitals|, |db.requests|),
          MonthlyRequests(db.requests, DateOf(now).year),
          BloodDistribution(db.requests))
  }

  /** The collections the statistics read. */
  datatype Snapshot = Snapshot(users: seq<UserSchema.User>, donors: seq<Donor>, hospitals: seq<Hospital>,
                               requests: seq<BloodRequest>)

  /**
   * The zero fill loses nothing: the month series adds up to the number of
   * requests created this year, and the group series to the number of
   * Fulfilled requests.
   */
  lemma StatsAddUp(db: Snapshot, now: int)
    ensures BucketTotal(AdminStats(db, now).monthlyRequests) == Count(db.requests, CreatedIn(DateOf(now).year))
    ensures BucketTotal(AdminStats(db, now).bloodDistribution) == Count(db.requests, IsFulfilled)
  {
    var year := DateOf(now).year;
    var s := AdminStats(db, now);
    BucketTotalIsSum(s.monthlyRequests, Buckets(db.requests, CreatedIn(year), CreatedMonth, 12));
    BucketsSum(db.requests, CreatedIn(year), CreatedMonth, 12);
    CountSame(db.requests, InBuckets(CreatedIn(year), CreatedMonth, 12), CreatedIn(year));
    BucketTotalIsSum(s.bloodDistribution, Buckets(db.requests, IsFulfilled, RequestGroup, 8));
    BucketsSum(db.requests, IsFulfilled, RequestGroup, 8);
    CountSame(db.requests, InBuckets(IsFulfilled, RequestGroup, 8), IsFulfilled);
  }

  /** A request created in another year is counted in no month. */
  lemma OtherYearsIgnored(requests: seq<BloodRequest>, r: BloodRequest, year: int)
    requires DateOf(r.createdAt).year != year
    ensures MonthlyRequests(requests + [r], year) == MonthlyRequests(requests, year)
  {
    forall i | 0 <= i < 12
      ensures Count(requests + [r], InBucket(CreatedIn(year), CreatedMonth, i))
        == Count(requests, InBucket(CreatedIn(year), CreatedMonth, i))
    {
      CountAppendOne(requests, r, InBucket(CreatedIn(year), CreatedMonth, i));
    }
  }

  // ---------------------------------------------------------------------
  // getAllDonors
  // ---------------------------------------------------------------------

  /** A donor listed with the number of Fulfilled requests it fulfilled. */
  datatype DonorRow = DonorRow(donor: Donor, totalDonations: nat)

  function FulfilledBy(d: Id): BloodRequest -> bool
  {
    (r: BloodRequest) => r.fulfilledBy == Some(d) && r.status == Some(Fulfilled)
  }

  /** `countDocuments({ fulfilledBy: donor._id, status: 'Fulfilled' })` for donor `d`. */
  function TotalDonations(requests: seq<BloodRequest>, d: Id): nat
  {
    Count(requests, FulfilledBy(d))
  }

  /**
   * `getAllDonors`: every donor, newest first (the store holds donors in
   * the order they were created, so `sort({ createdAt: -1 })` reverses it),
   * each with its total.
   */
  function DonorsWithStats(donors: seq<Donor>, requests: seq<BloodRequest>): (r: seq<DonorRow>)
    ensures |r| == |donors|
    ensures forall i :: 0 <= i < |r| ==>
      r[i].donor == donors[|donors| - 1 - i]
      && r[i].totalDonations == TotalDonations(requests, donors[|donors| - 1 - i].id)
  {
    if donors == [] then []
    else
      var last := donors[|donors| - 1];
      [DonorRow(last, TotalDonations(requests, last.id))] + DonorsWithStats(donors[..|donors| - 1], requests)
  }

  /** A newly registered donor heads the list, and the others follow as before. */
  lemma NewDonorFirst(donors: seq<Donor>, d: Donor, requests: seq<BloodRequest>)
    ensures DonorsWithStats(donors + [d], requests)
         == [DonorRow(d, TotalDonations(requests, d.id))] + DonorsWithStats(donors, requests)
  {
    assert (donors + [d])[..|donors|] == donors;
  }

  /** Marking an unfulfilled request Fulfilled writes exactly that request, with status and time. */
  lemma FulfilWrites(requests: seq<BloodRequest>, donors: seq<Donor>, actor: Id, i: nat, now: int)
    requires i < |requests| && UniqueBy(requests, RequestId) && RequestController.Authorized(requests[i], actor)
    ensures RequestController.StatusUpdate(requests, donors, actor, requests[i].id, Some("Fulfilled"), now).requests
      == if LoadedStatus(requests[i]) == Fulfilled then requests
         else requests[i := requests[i].(status := Some(Fulfilled), updatedAt := now)]
  {
    UniqueOthers(requests, i, RequestId);
    assert ParseStatus("Fulfilled") == Some(Fulfilled);
  }

  /**
   * Marking a donor's request Fulfilled raises that donor's total by one
   * and nobody else's; marking it Fulfilled again changes no total.
   */
  lemma FulfilmentCountsOnce(requests: seq<BloodRequest>, donors: seq<Donor>, actor: Id, i: nat,
                             d: Id, other: Id, now: int)
    requires i < |requests| && UniqueBy(requests, RequestId) && RequestController.Authorized(requests[i], actor)
    requires requests[i].fulfilledBy == Some(d) && LoadedStatus(requests[i]) != Fulfilled && other != d
    ensures var o := RequestController.StatusUpdate(requests, donors, actor, requests[i].id, Some("Fulfilled"), now);
      TotalDonations(o.requests, d) == TotalDonations(requests, d) + 1
      && TotalDonations(o.requests, other) == TotalDonations(requests, other)
    ensures var o := RequestController.StatusUpdate(requests, donors, actor, requests[i].id, Some("Fulfilled"), now);
      var o2 := RequestController.StatusUpdate(o.requests, o.donors, actor, requests[i].id, Some("Fulfilled"), now);
      o2.requests == o.requests
  {
    var r := requests[i].(status := Some(Fulfilled), updatedAt := now);
    var o := RequestController.StatusUpdate(requests, donors, actor, requests[i].id, Some("Fulfilled"), now);
    FulfilWrites(requests, donors, actor, i, now);
    CountUpdate(requests, i, r, FulfilledBy(d));
    CountUpdate(requests, i, r, FulfilledBy(other));
    UniqueAfterSameKey(requests, i, r, RequestId);
    FulfilWrites(o.requests, o.donors, actor, i, now);
  }

  // ---------------------------------------------------------------------
  // updateHospitalStatus
  // ---------------------------------------------------------------------

  /**
   * `findByIdAndUpdate(id, { status })` runs no validators and checks no
   * transition: any supplied string is stored, an absent one is dropped
   * from the update, and an unknown id still answers 200.
   */
  function HospitalStatusUpdate(hospitals: seq<Hospital>, id: Id, status: Option<string>): (r: (int, seq<Hospital>))
  {
    match HospitalIndex(hospitals, id)
    case None => (200, hospitals)
    case Some(i) =>
      if status.None? then (200, hospitals) else (200, hospitals[i := hospitals[i].(status := status.value)])
  }

  method UpdateHospitalStatus(db: Database, id: Id, status: Option<string>) returns (code: int)
    requires db.Valid()
    modifies db
    ensures db.Valid()
    ensures (code, db.hospitals) == HospitalStatusUpdate(old(db.hospitals), id, status)
    ensures db.requests == old(db.requests) && db.users == old(db.users) && db.donors == old(db.donors)
    ensures db.admins == old(db.admins) && db.nextId == old(db.nextId)
  {
    var found := HospitalIndex(db.hospitals, id);
    if found.Some? && status.Some? {
      var i := found.value;
      UniqueOthers(db.hospitals, i, HospitalPhone);
      db.SetHospital(i, db.hospitals[i].(status := status.value));
    }
    code := 200;
  }

  /**
   * Any status can follow any other, including strings outside the
   * schema's enum: exactly that hospital's status is overwritten.
   */
  lemma StatusAnyToAny(hospitals: seq<Hospital>, i: nat, s: string)
    requires i < |hospitals| && UniqueBy(hospitals, HospitalId)
    ensures var r := HospitalStatusUpdate(hospitals, hospitals[i].id, Some(s));
      r.0 == 200 && r.1 == hospitals[i := hospitals[i].(status := s)]
  {
    UniqueOthers(hospitals, i, HospitalId);
  }
}
