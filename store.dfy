// The database the controllers share: one collection per model, each kept
// in natural (insertion) order, and the id counter new documents draw from.
// `Valid` collects what every handler preserves: ids are distinct and issued,
// the unique indexes hold, stored requests pass their validators, every
// hospital inventory has its eight counters, and there is at most one admin.
module Store {
  import opened Common
  import opened Otp
  import opened RequestSchema
  import opened HospitalSchema
  import opened DonorSchema
  import opened UserSchema

  /** An Admin document (name, normalised e-mail, password, role, OTP fields). */
  datatype Admin = Admin(id: Id, fullName: string, email: string, password: string, role: string, otp: OtpState)

  /** No two elements share the projected value (a unique index, or distinct ids). */
  ghost predicate UniqueBy<T, K>(xs: seq<T>, f: T -> K)
  {
    forall i, j :: 0 <= i < j < |xs| ==> f(xs[i]) != f(xs[j])
  }

  /** Every element's id was issued before `next`. */
  ghost predicate IdsBelow<T>(xs: seq<T>, id: T -> Id, next: nat)
  {
    forall i :: 0 <= i < |xs| ==> id(xs[i]) < next
  }

  /** Replacing one element by one with a projection no other element has keeps the index unique. */
  lemma UniqueAfterUpdate<T, K>(xs: seq<T>, i: nat, x: T, f: T -> K)
    requires i < |xs| && UniqueBy(xs, f)
    requires forall j :: 0 <= j < |xs| && j != i ==> f(xs[j]) != f(x)
    ensures UniqueBy(xs[i := x], f)
  {
    var ys := xs[i := x];
    forall a, b | 0 <= a < b < |ys|
      ensures f(ys[a]) != f(ys[b])
    {
      if a == i {
        assert f(xs[b]) != f(x);
      } else if b == i {
        assert f(xs[a]) != f(x);
      }
    }
  }

  /** In a unique index, no other element shares the projection of element `k`. */
  lemma UniqueOthers<T, K>(xs: seq<T>, k: nat, f: T -> K)
    requires k < |xs| && UniqueBy(xs, f)
    ensures forall j :: 0 <= j < |xs| && j != k ==> f(xs[j]) != f(xs[k])
  {
    forall j | 0 <= j < |xs| && j != k
      ensures f(xs[j]) != f(xs[k])
    {
      if j < k { assert f(xs[j]) != f(xs[k]); } else { assert f(xs[k]) != f(xs[j]); }
    }
  }

  /** Replacing one element by one with the same projection keeps the index unique. */
  lemma UniqueAfterSameKey<T, K>(xs: seq<T>, i: nat, x: T, f: T -> K)
    requires i < |xs| && UniqueBy(xs, f) && f(x) == f(xs[i])
    ensures UniqueBy(xs[i := x], f)
  {
    UniqueAfterUpdate(xs, i, x, f);
  }

  /** Appending an element whose projection is new keeps the index unique. */
  lemma UniqueAfterAppend<T, K>(xs: seq<T>, x: T, f: T -> K)
    requires UniqueBy(xs, f)
    requires forall j :: 0 <= j < |xs| ==> f(xs[j]) != f(x)
    ensures UniqueBy(xs + [x], f)
  {
    var ys := xs + [x];
    forall a, b | 0 <= a < b < |ys|
      ensures f(ys[a]) != f(ys[b])
    {
      if b == |xs| {
        assert f(xs[a]) != f(x);
      }
    }
  }

  /** Removing an element keeps the index unique. */
  lemma UniqueAfterRemove<T, K>(xs: seq<T>, i: nat, f: T -> K)
    requires i < |xs| && UniqueBy(xs, f)
    ensures UniqueBy(xs[..i] + xs[i + 1..], f)
  {
    var ys := xs[..i] + xs[i + 1..];
    forall a, b | 0 <= a < b < |ys|
      ensures f(ys[a]) != f(ys[b])
    {
      var a', b' := if a < i then a else a + 1, if b < i then b else b + 1;
      assert ys[a] == xs[a'] && ys[b] == xs[b'];
    }
  }

  function RequestId(r: BloodRequest): Id { r.id }
  function UserId(u: User): Id { u.id }
  function UserEmail(u: User): string { u.email }
  function UserMobile(u: User): string { u.mobile }
  function DonorId(d: Donor): Id { d.id }
  function DonorEmail(d: Donor): string { d.email }
  function DonorMobile(d: Donor): string { d.mobile }
  function HospitalId(h: Hospital): Id { h.id }
  function HospitalEmail(h: Hospital): string { h.email }
  function HospitalLicense(h: Hospital): string { h.licenseNumber }
  function HospitalPhone(h: Hospital): string { h.phone }
  function AdminId(a: Admin): Id { a.id }

  /** The position of the request with this id (`findById`). */
  function RequestIndex(rs: seq<BloodRequest>, id: Id): (r: Option<nat>)
    ensures r.Some? ==> r.value < |rs| && rs[r.value].id == id
    ensures r.None? ==> forall j :: 0 <= j < |rs| ==> rs[j].id != id
  {
    FirstIndex(rs, (x: BloodRequest) => x.id == id)
  }

  function UserIndex(us: seq<User>, id: Id): (r: Option<nat>)
    ensures r.Some? ==> r.value < |us| && us[r.value].id == id
    ensures r.None? ==> forall j :: 0 <= j < |us| ==> us[j].id != id
  {
    FirstIndex(us, (x: User) => x.id == id)
  }

  function DonorIndex(ds: seq<Donor>, id: Id): (r: Option<nat>)
    ensures r.Some? ==> r.value < |ds| && ds[r.value].id == id
    ensures r.None? ==> forall j :: 0 <= j < |ds| ==> ds[j].id != id
  {
    FirstIndex(ds, (x: Donor) => x.id == id)
  }

  function HospitalIndex(hs: seq<Hospital>, id: Id): (r: Option<nat>)
    ensures r.Some? ==> r.value < |hs| && hs[r.value].id == id
    ensures r.None? ==> forall j :: 0 <= j < |hs| ==> hs[j].id != id
  {
    FirstIndex(hs, (x: Hospital) => x.id == id)
  }

  /** In hospitals with distinct ids, looking up the id of element `i` finds `i`. */
  lemma HospitalAt(hs: seq<Hospital>, i: nat)
    requires i < |hs| && UniqueBy(hs, HospitalId)
    ensures HospitalIndex(hs, hs[i].id) == Some(i)
  {
    UniqueOthers(hs, i, HospitalId);
    var r := HospitalIndex(hs, hs[i].id);
    assert r.Some? ==> HospitalId(hs[r.value]) == HospitalId(hs[i]);
  }

  /** `findOne({ email })`: the query value goes through the same trim/lowercase setters as stored e-mails. */
  function UserByEmail(us: seq<User>, email: string): (r: Option<nat>)
    ensures r.Some? ==> r.value < |us| && us[r.value].email == NormEmail(email)
    ensures r.None? ==> forall j :: 0 <= j < |us| ==> us[j].email != NormEmail(email)
  {
    FirstIndex(us, (x: User) => x.email == NormEmail(email))
  }

  function DonorByEmail(ds: seq<Donor>, email: string): (r: Option<nat>)
    ensures r.Some? ==> r.value < |ds| && ds[r.value].email == NormEmail(email)
    ensures r.None? ==> forall j :: 0 <= j < |ds| ==> ds[j].email != NormEmail(email)
  {
    FirstIndex(ds, (x: Donor) => x.email == NormEmail(email))
  }

  function HospitalByEmail(hs: seq<Hospital>, email: string): (r: Option<nat>)
    ensures r.Some? ==> r.value < |hs| && hs[r.value].email == NormEmail(email)
    ensures r.None? ==> forall j :: 0 <= j < |hs| ==> hs[j].email != NormEmail(email)
  {
    FirstIndex(hs, (x: Hospital) => x.email == NormEmail(email))
  }

  function AdminByEmail(xs: seq<Admin>, email: string): (r: Option<nat>)
    ensures r.Some? ==> r.value < |xs| && xs[r.value].email == NormEmail(email)
    ensures r.None? ==> forall j :: 0 <= j < |xs| ==> xs[j].email != NormEmail(email)
  {
    FirstIndex(xs, (x: Admin) => x.email == NormEmail(email))
  }

  /** The abstract password check standing for `bcrypt.compare` against the stored hash. */
  predicate PasswordMatches(entered: string, stored: string)
  {
    entered == stored
  }

  /** The invariant of the collections every handler preserves. */
  ghost predicate Consistent(users: seq<User>, donors: seq<Donor>, hospitals: seq<Hospital>, admins: seq<Admin>,
                             requests: seq<BloodRequest>, nextId: nat)
  {
    UniqueBy(requests, RequestId) && IdsBelow(requests, RequestId, nextId)
    && (forall i :: 0 <= i < |requests| ==> RequestSchema.Valid(requests[i]))
    && UniqueBy(users, UserId) && IdsBelow(users, UserId, nextId)
    && (forall i :: 0 <= i < |users| ==> UserSchema.Valid(users[i]))
    && UniqueBy(users, UserEmail) && UniqueBy(users, UserMobile)
    && UniqueBy(donors, DonorId) && IdsBelow(donors, DonorId, nextId)
    && (forall i :: 0 <= i < |donors| ==> DonorSchema.Valid(donors[i]))
    && UniqueBy(donors, DonorEmail) && UniqueBy(donors, DonorMobile)
    && UniqueBy(hospitals, HospitalId) && IdsBelow(hospitals, HospitalId, nextId)
    && UniqueBy(hospitals, HospitalEmail) && UniqueBy(hospitals, HospitalLicense)
    && UniqueBy(hospitals, HospitalPhone)
    && (forall i :: 0 <= i < |hospitals| ==> Shaped(hospitals[i].inventory))
    && IdsBelow(admins, AdminId, nextId) && |admins| <= 1
  }

  class Database {
    var users: seq<User>
    var donors: seq<Donor>
    var hospitals: seq<Hospital>
    var admins: seq<Admin>
    var requests: seq<BloodRequest>
    var nextId: nat

    ghost predicate Valid()
      reads this
    {
      Consistent(users, donors, hospitals, admins, requests, nextId)
    }

    constructor ()
      ensures Valid()
      ensures users == [] && donors == [] && hospitals == [] && admins == [] && requests == []
    {
      users, donors, hospitals, admins, requests := [], [], [], [], [];
      nextId := 0;
    }

    // Writes of single documents. Each keeps `Valid` and changes one collection.

    /** `BloodRequest.create` once validation has passed: the new document takes the next id. */
    method AddRequest(r: BloodRequest)
      requires Valid() && RequestSchema.Valid(r) && r.id == nextId
      modifies this
      ensures Valid()
      ensures requests == old(requests) + [r] && nextId == old(nextId) + 1
      ensures users == old(users) && donors == old(donors) && hospitals == old(hospitals) && admins == old(admins)
    {
      UniqueAfterAppend(requests, r, RequestId);
      requests := requests + [r];
      nextId := nextId + 1;
    }

    /** `request.save()` of a loaded request that still passes its validators. */
    method SetRequest(i: nat, r: BloodRequest)
      requires Valid() && i < |requests| && r.id == requests[i].id && RequestSchema.Valid(r)
      modifies this
      ensures Valid()
      ensures requests == old(requests)[i := r]
      ensures users == old(users) && donors == old(donors) && hospitals == old(hospitals)
      ensures admins == old(admins) && nextId == old(nextId)
    {
      UniqueAfterSameKey(requests, i, r, RequestId);
      requests := requests[i := r];
    }

    /** `request.deleteOne()` */
    method RemoveRequest(i: nat)
      requires Valid() && i < |requests|
      modifies this
      ensures Valid()
      ensures requests == old(requests)[..i] + old(requests)[i + 1..]
      ensures users == old(users) && donors == old(donors) && hospitals == old(hospitals)
      ensures admins == old(admins) && nextId == old(nextId)
    {
      UniqueAfterRemove(requests, i, RequestId);
      requests := requests[..i] + requests[i + 1..];
    }

    method AddUser(u: User)
      requires Valid() && UserSchema.Valid(u) && u.id == nextId
      requires forall j :: 0 <= j < |users| ==> users[j].email != u.email && users[j].mobile != u.mobile
      modifies this
      ensures Valid()
      ensures users == old(users) + [u] && nextId == old(nextId) + 1
      ensures requests == old(requests) && donors == old(donors) && hospitals == old(hospitals) && admins == old(admins)
    {
      UniqueAfterAppend(users, u, UserId);
      UniqueAfterAppend(users, u, UserEmail);
      UniqueAfterAppend(users, u, UserMobile);
      users := users + [u];
      nextId := nextId + 1;
    }

    /** A validated save of a user whose e-mail is unchanged and whose mobile number no other user has. */
    method SetUser(i: nat, u: User)
      requires Valid() && i < |users| && UserSchema.Valid(u)
      requires u.id == users[i].id && u.email == users[i].email
      requires forall j :: 0 <= j < |users| && j != i ==> users[j].mobile != u.mobile
      modifies this
      ensures Valid()
      ensures users == old(users)[i := u]
      ensures requests == old(requests) && donors == old(donors) && hospitals == old(hospitals)
      ensures admins == old(admins) && nextId == old(nextId)
    {
      UniqueAfterSameKey(users, i, u, UserId);
      UniqueAfterSameKey(users, i, u, UserEmail);
      UniqueAfterUpdate(users, i, u, UserMobile);
      users := users[i := u];
    }

    method AddDonor(d: Donor)
      requires Valid() && DonorSchema.Valid(d) && d.id == nextId
      requires forall j :: 0 <= j < |donors| ==> donors[j].email != d.email && donors[j].mobile != d.mobile
      modifies this
      ensures Valid()
      ensures donors == old(donors) + [d] && nextId == old(nextId) + 1
      ensures requests == old(requests) && users == old(users) && hospitals == old(hospitals) && admins == old(admins)
    {
      UniqueAfterAppend(donors, d, DonorId);
      UniqueAfterAppend(donors, d, DonorEmail);
      UniqueAfterAppend(donors, d, DonorMobile);
      donors := donors + [d];
      nextId := nextId + 1;
    }

    /** A save of a donor that passes the validators, keeps its e-mail and takes a mobile number no other donor has. */
    method SetDonor(i: nat, d: Donor)
      requires Valid() && i < |donors| && DonorSchema.Valid(d)
      requires d.id == donors[i].id && d.email == donors[i].email
      requires forall j :: 0 <= j < |donors| && j != i ==> donors[j].mobile != d.mobile
      modifies this
      ensures Valid()
      ensures donors == old(donors)[i := d]
      ensures requests == old(requests) && users == old(users) && hospitals == old(hospitals)
      ensures admins == old(admins) && nextId == old(nextId)
    {
      UniqueAfterSameKey(donors, i, d, DonorId);
      UniqueAfterSameKey(donors, i, d, DonorEmail);
      UniqueAfterUpdate(donors, i, d, DonorMobile);
      donors := donors[i := d];
    }

    method AddHospital(h: Hospital)
      requires Valid() && Shaped(h.inventory) && h.id == nextId
      requires forall j :: 0 <= j < |hospitals| ==>
        (hospitals[j].email != h.email && hospitals[j].licenseNumber != h.licenseNumber
         && hospitals[j].phone != h.phone)
      modifies this
      ensures Valid()
      ensures hospitals == old(hospitals) + [h] && nextId == old(nextId) + 1
      ensures requests == old(requests) && users == old(users) && donors == old(donors) && admins == old(admins)
    {
      UniqueAfterAppend(hospitals, h, HospitalId);
      UniqueAfterAppend(hospitals, h, HospitalEmail);
      UniqueAfterAppend(hospitals, h, HospitalLicense);
      UniqueAfterAppend(hospitals, h, HospitalPhone);
      hospitals := hospitals + [h];
      nextId := nextId + 1;
    }

    /** A save of a hospital that keeps e-mail and licence, takes a phone no other hospital has, and keeps the eight counters. */
    method SetHospital(i: nat, h: Hospital)
      requires Valid() && i < |hospitals| && Shaped(h.inventory)
      requires h.id == hospitals[i].id && h.email == hospitals[i].email
      requires h.licenseNumber == hospitals[i].licenseNumber
      requires forall j :: 0 <= j < |hospitals| && j != i ==> hospitals[j].phone != h.phone
      modifies this
      ensures Valid()
      ensures hospitals == old(hospitals)[i := h]
      ensures requests == old(requests) && users == old(users) && donors == old(donors)
      ensures admins == old(admins) && nextId == old(nextId)
    {
      UniqueAfterSameKey(hospitals, i, h, HospitalId);
      UniqueAfterSameKey(hospitals, i, h, HospitalEmail);
      UniqueAfterSameKey(hospitals, i, h, HospitalLicense);
      UniqueAfterUpdate(hospitals, i, h, HospitalPhone);
      hospitals := hospitals[i := h];
    }

    method AddAdmin(a: Admin)
      requires Valid() && admins == [] && a.id == nextId
      modifies this
      ensures Valid()
      ensures admins == [a] && nextId == old(nextId) + 1
      ensures requests == old(requests) && users == old(users) && donors == old(donors) && hospitals == old(hospitals)
    {
      admins := [a];
      nextId := nextId + 1;
    }

    method SetAdmin(i: nat, a: Admin)
      requires Valid() && i < |admins| && a.id == admins[i].id
      modifies this
      ensures Valid()
      ensures admins == old(admins)[i := a]
      ensures requests == old(requests) && users == old(users) && donors == old(donors)
      ensures hospitals == old(hospitals) && nextId == old(nextId)
    {
      admins := admins[i := a];
    }
  }
}
