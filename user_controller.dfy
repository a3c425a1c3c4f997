// The user (patient / requester) controller: registration with its
// duplicate check, login, the profile read and the profile merge.
module UserController {
  import opened Common
  import opened UserSchema
  import opened Store

  /** A status code with the user collection it leaves behind. */
  datatype Reply = Reply(code: int, users: seq<User>)

  // ---------------------------------------------------------------------
  // registerUser
  // ---------------------------------------------------------------------

  /** `$or: [{ email }, { mobile }]`, the e-mail normalised by its setters. */
  predicate Clashes(u: User, b: Body)
  {
    (b.email.Some? && u.email == NormEmail(b.email.value)) || (b.mobile.Some? && u.mobile == b.mobile.value)
  }

  function Registration(users: seq<User>, b: Body, id: Id): Reply
  {
    if exists j :: 0 <= j < |users| && Clashes(users[j], b) then Reply(400, users)
    else match UserSchema.Create(b, id)
      case None => Reply(500, users)
      case Some(u) => Reply(201, users + [u])
  }

  method RegisterUser(db: Database, b: Body) returns (code: int)
    requires db.Valid()
    modifies db
    ensures db.Valid()
    ensures Reply(code, db.users) == Registration(old(db.users), b, old(db.nextId))
    ensures db.requests == old(db.requests) && db.donors == old(db.donors)
    ensures db.hospitals == old(db.hospitals) && db.admins == old(db.admins)
  {
    if exists j :: 0 <= j < |db.users| && Clashes(db.users[j], b) {
      code := 400;
      return;
    }
    var u := UserSchema.Create(b, db.nextId);
    if u.None? {
      code := 500;
      return;
    }
    db.AddUser(u.value);
    code := 201;
  }

  /**
   * A registration either stores nothing or appends one valid user, and
   * keeps e-mail and mobile number unique.
   */
  lemma RegistrationAppends(users: seq<User>, b: Body, id: Id)
    requires UniqueBy(users, UserEmail) && UniqueBy(users, UserMobile)
    ensures var o := Registration(users, b, id);
      o.code != 201 ==> o.users == users
    ensures var o := Registration(users, b, id);
      o.code == 201 ==> (|o.users| == |users| + 1 && o.users[..|users|] == users
        && UserSchema.Valid(o.users[|users|])
        && UniqueBy(o.users, UserEmail) && UniqueBy(o.users, UserMobile))
  {
    var o := Registration(users, b, id);
    if o.code == 201 {
      var u := UserSchema.Create(b, id).value;
      assert o.users == users + [u];
      UniqueAfterAppend(users, u, UserEmail);
      UniqueAfterAppend(users, u, UserMobile);
    }
  }

  /** A mobile number already registered is refused, whatever the e-mail. */
  lemma RegistrationRefusesTakenMobile(users: seq<User>, b: Body, id: Id, j: nat)
    requires j < |users| && b.mobile == Some(users[j].mobile)
    ensures Registration(users, b, id) == Reply(400, users)
  {
  }

  // ---------------------------------------------------------------------
  // loginUser
  // ---------------------------------------------------------------------

  /** 401 for an unknown e-mail or a wrong password; 500 when no password is sent (the comparison throws). */
  function Login(users: seq<User>, email: Option<string>, password: Option<string>): int
  {
    if email.None? then 401
    else match UserByEmail(users, email.value)
      case None => 401
      case Some(i) =>
        if password.None? then 500
        else if PasswordMatches(password.value, users[i].password) then 200
        else 401
  }

  /** Login succeeds exactly for a user with that e-mail and password. */
  lemma LoginSucceeds(users: seq<User>, email: string, password: string)
    requires UniqueBy(users, UserEmail)
    ensures Login(users, Some(email), Some(password)) == 200 <==>
      exists j :: 0 <= j < |users| && users[j].email == NormEmail(email) && users[j].password == password
  {
    var f := UserByEmail(users, email);
    if f.Some? {
      UniqueOthers(users, f.value, UserEmail);
    }
  }

  // ---------------------------------------------------------------------
  // getUserProfile
  // ---------------------------------------------------------------------

  /** The fields the profile read returns: everything but the password. */
  datatype View = View(id: Id, fullName: string, email: string, mobile: string, address: string,
                       city: string, state: string, pincode: string, age: int, gender: Gender)

  /** 200 with the caller's view, or 404 when the account does not exist. */
  function Profile(users: seq<User>, actor: Id): (r: (int, Option<View>))
    ensures r.0 == 404 <==> (forall j :: 0 <= j < |users| ==> users[j].id != actor)
    ensures r.0 == 404 <==> r.1.None?
    ensures r.0 == 200 || r.0 == 404
    ensures r.1.Some? ==> exists j :: (0 <= j < |users| && users[j].id == actor
      && r.1.value == View(actor, users[j].fullName, users[j].email, users[j].mobile, users[j].address,
                           users[j].city, users[j].state, users[j].pincode, users[j].age, users[j].gender))
  {
    match UserIndex(users, actor)
    case None => (404, None)
    case Some(i) =>
      var u := users[i];
      (200, Some(View(u.id, u.fullName, u.email, u.mobile, u.address, u.city, u.state, u.pincode, u.age, u.gender)))
  }

  // ---------------------------------------------------------------------
  // updateUserProfile
  // ---------------------------------------------------------------------

  /** The fields `updateUserProfile` reads from the body. */
  datatype ProfileBody = ProfileBody(
    fullName: Option<string>,
    mobile: Option<string>,
    address: Option<string>,
    city: Option<string>,
    state: Option<string>,
    pincode: Option<string>,
    password: Option<string>)

  /**
   * The document after the assignments: each non-empty body value replaces
   * the stored one (the trimming setters applied), a non-empty password
   * replaces the old one, and age, gender and e-mail never change.
   */
  function MergeProfile(u: User, b: ProfileBody): (r: User)
    ensures r.id == u.id && r.age == u.age && r.gender == u.gender && r.email == u.email
  {
    u.(fullName := Trim(OrString(b.fullName, u.fullName)),
       mobile := OrString(b.mobile, u.mobile),
       address := Trim(OrString(b.address, u.address)),
       city := Trim(OrString(b.city, u.city)),
       state := Trim(OrString(b.state, u.state)),
       pincode := Trim(OrString(b.pincode, u.pincode)),
       password := OrString(b.password, u.password))
  }

  /** Another user already holds this mobile number (the unique index refuses the save). */
  predicate MobileTaken(users: seq<User>, i: nat, mobile: string)
  {
    exists j :: 0 <= j < |users| && j != i && users[j].mobile == mobile
  }

  function ProfileUpdate(users: seq<User>, actor: Id, b: ProfileBody): Reply
  {
    match UserIndex(users, actor)
    case None => Reply(404, users)
    case Some(i) =>
      var u := MergeProfile(users[i], b);
      if !UserSchema.Valid(u) || MobileTaken(users, i, u.mobile) then Reply(500, users)
      else Reply(200, users[i := u])
  }

  method UpdateUserProfile(db: Database, actor: Id, b: ProfileBody) returns (code: int)
    requires db.Valid()
    modifies db
    ensures db.Valid()
    ensures Reply(code, db.users) == ProfileUpdate(old(db.users), actor, b)
    ensures db.requests == old(db.requests) && db.donors == old(db.donors)
    ensures db.hospitals == old(db.hospitals) && db.admins == old(db.admins) && db.nextId == old(db.nextId)
  {
    var found := UserIndex(db.users, actor);
    if found.None? {
      code := 404;
      return;
    }
    var i := found.value;
    var user := db.users[i];
    user := user.(fullName := Trim(OrString(b.fullName, user.fullName)));
    user := user.(mobile := OrString(b.mobile, user.mobile));
    user := user.(address := Trim(OrString(b.address, user.address)));
    user := user.(city := Trim(OrString(b.city, user.city)));
    user := user.(state := Trim(OrString(b.state, user.state)));
    user := user.(pincode := Trim(OrString(b.pincode, user.pincode)));
    if b.password.Some? && b.password.value != "" {
      user := user.(password := b.password.value);
    }
    assert user == MergeProfile(db.users[i], b);
    if !UserSchema.Valid(user) || MobileTaken(db.users, i, user.mobile) {
      code := 500;
      return;
    }
    UniqueOthers(db.users, i, UserEmail);
    db.SetUser(i, user);
    code := 200;
  }

  /** Sending the same profile twice changes nothing the second time. */
  lemma MergeProfileIdempotent(u: User, b: ProfileBody)
    ensures MergeProfile(MergeProfile(u, b), b) == MergeProfile(u, b)
  {
    var m := MergeProfile(u, b);
    TrimmedOrIdempotent(b.fullName, u.fullName);
    TrimmedOrIdempotent(b.address, u.address);
    TrimmedOrIdempotent(b.city, u.city);
    TrimmedOrIdempotent(b.state, u.state);
    TrimmedOrIdempotent(b.pincode, u.pincode);
    var mm := MergeProfile(m, b);
    assert mm.fullName == m.fullName && mm.address == m.address && mm.city == m.city;
    assert mm.state == m.state && mm.pincode == m.pincode;
  }

  /** The body sends nothing, or an empty string, for this field. */
  predicate Blank(v: Option<string>)
  {
    v.None? || v == Some("")
  }

  /** Blank values never erase a stored field, so an all-blank body leaves a stored (trimmed) user as it is. */
  lemma ProfileBlanksKeep(u: User, b: ProfileBody)
    requires Trim(u.fullName) == u.fullName && Trim(u.address) == u.address
    requires Trim(u.city) == u.city && Trim(u.state) == u.state && Trim(u.pincode) == u.pincode
    requires Blank(b.fullName) && Blank(b.mobile) && Blank(b.address) && Blank(b.city)
    requires Blank(b.state) && Blank(b.pincode) && Blank(b.password)
    ensures MergeProfile(u, b) == u
  {
  }

  /** A pincode that is not 6 characters once trimmed is refused and nothing is written. */
  lemma ProfilePincodeLength(users: seq<User>, actor: Id, b: ProfileBody)
    requires b.pincode.Some? && b.pincode.value != "" && |Trim(b.pincode.value)| != 6
    ensures ProfileUpdate(users, actor, b).users == users
    ensures ProfileUpdate(users, actor, b).code != 200
  {
    match UserIndex(users, actor)
    case None =>
    case Some(i) =>
      var u := MergeProfile(users[i], b);
      assert u.pincode == Trim(b.pincode.value);
      assert !UserSchema.Valid(u);
  }

  /** A successful update keeps the user's identity and leaves every other user alone. */
  lemma ProfileUpdateKeeps(users: seq<User>, actor: Id, b: ProfileBody, i: nat)
    requires i < |users| && users[i].id == actor && UniqueBy(users, UserId)
    ensures var o := ProfileUpdate(users, actor, b);
      o.code == 200 ==> (|o.users| == |users| && UserSchema.Valid(o.users[i])
        && o.users[i].email == users[i].email && o.users[i].age == users[i].age
        && (b.password.Some? && b.password.value != "" ==> o.users[i].password == b.password.value)
        && (Blank(b.password) ==> o.users[i].password == users[i].password)
        && (forall j :: 0 <= j < |users| && j != i ==> o.users[j] == users[j]))
    ensures var o := ProfileUpdate(users, actor, b);
      o.code != 200 ==> o.users == users
  {
    UniqueOthers(users, i, UserId);
  }
}
