// The User (patient / requester) document: the 18-year age minimum, the
// gender enum, the 10-digit mobile number, the normalised e-mail, the
// 6-character pincode and the 6-character password minimum.
module UserSchema {
  import opened Common

  const MinAge: int := 18

  datatype User = User(
    id: Id,
    fullName: string,
    age: int,
    gender: Gender,
    mobile: string,
    email: string,
    address: string,
    city: string,
    state: string,
    pincode: string,
    password: string)

  /** The validators a save re-runs (the gender enum is enforced by its type). */
  predicate Valid(u: User)
  {
    u.fullName != "" && u.age >= MinAge
    && DigitsBetween(u.mobile, 10, 10)
    && u.email != "" && SchemaEmail(u.email)
    && u.address != "" && u.city != "" && u.state != ""
    && |u.pincode| == 6
    && |u.password| >= 6
  }

  /** The registration body as `User.create` receives it. */
  datatype Body = Body(
    fullName: Option<string>,
    age: Option<int>,
    gender: Option<string>,
    mobile: Option<string>,
    email: Option<string>,
    address: Option<string>,
    city: Option<string>,
    state: Option<string>,
    pincode: Option<string>,
    password: Option<string>)

  /** The required fields are present and the gender is inside its enum. */
  predicate Present(b: Body)
  {
    b.fullName.Some? && b.mobile.Some? && b.email.Some? && b.address.Some?
    && b.city.Some? && b.state.Some? && b.pincode.Some? && b.password.Some? && b.age.Some? && b.gender.Some? && ParseGender(b.gender.value).Some?
  }

  function Val(v: Option<string>): string
  {
    if v.Some? then v.value else ""
  }

  /** The document before validation: setters applied. */
  function Candidate(b: Body, id: Id): User
    requires Present(b)
  {
    User(
      id := id,
      fullName := Trim(Val(b.fullName)),
      age := b.age.value,
      gender := ParseGender(b.gender.value).value,
      mobile := Val(b.mobile),
      email := NormEmail(Val(b.email)),
      address := Trim(Val(b.address)),
      city := Trim(Val(b.city)),
      state := Trim(Val(b.state)),
      pincode := Trim(Val(b.pincode)),
      password := Val(b.password))
  }

  /** `User.create(body)`: `None` when a validator fails. */
  function Create(b: Body, id: Id): (r: Option<User>)
    ensures r.Some? ==> Valid(r.value) && Present(b) && r.value.id == id
    ensures r.Some? ==> b.age == Some(r.value.age) && r.value.age >= MinAge
    ensures r.Some? ==> b.email.Some? && r.value.email == NormEmail(b.email.value)
    ensures r.Some? ==> b.mobile.Some? && r.value.mobile == b.mobile.value
    ensures r.Some? ==> b.pincode.Some? && |Trim(b.pincode.value)| == 6
  {
    if !Present(b) then None
    else
      var u := Candidate(b, id);
      if Valid(u) then Some(u) else None
  }

  /** An age of 17 is refused and 18 is the smallest accepted. */
  lemma AgeThreshold(b: Body, id: Id)
    requires Create(b, id).Some?
    ensures Create(b.(age := Some(17)), id).None?
    ensures Create(b.(age := Some(18)), id).Some?
  {
    var u := Candidate(b, id);
    CandidateWithAge(b, id, 17);
    CandidateWithAge(b, id, 18);
    ValidWithAge(u, 17);
    ValidWithAge(u, 18);
  }

  /** Changing the body's age changes only the candidate's age. */
  lemma CandidateWithAge(b: Body, id: Id, a: int)
    requires Present(b)
    ensures Present(b.(age := Some(a)))
    ensures Candidate(b.(age := Some(a)), id) == Candidate(b, id).(age := a)
  {
  }

  /** Apart from the age minimum, validity does not depend on the age. */
  lemma ValidWithAge(u: User, a: int)
    requires Valid(u)
    ensures Valid(u.(age := a)) <==> a >= MinAge
  {
  }

  /** The pincode is trimmed before its length check, so surrounding blanks are tolerated. */
  lemma PincodeTrimmed(b: Body, id: Id)
    requires Create(b, id).Some?
    ensures Create(b, id).value.pincode == Trim(b.pincode.value)
  {
  }

  /** A pincode that is not 6 characters once trimmed is refused. */
  lemma PincodeLength(b: Body, id: Id)
    requires b.pincode.Some? && |Trim(b.pincode.value)| != 6
    ensures Create(b, id).None?
  {
  }

  /** A gender outside the enum (the check is case-sensitive) is refused. */
  lemma GenderEnum(b: Body, id: Id)
    requires b.gender.Some? && b.gender.value !in {"Male", "Female", "Other"}
    ensures Create(b, id).None?
  {
  }
}
