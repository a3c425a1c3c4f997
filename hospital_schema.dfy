// The Hospital document: its approval-status and ownership enums, the
// 8-counter blood inventory with zero defaults, the OTP fields, the setters
// (trim, lowercase) and the validators run on create and on every save.
module HospitalSchema {
  import opened Common
  import opened BloodGroups
  import opened Otp

  const OwnershipTypes: seq<string> := ["Government", "Private", "Non-Profit", "Military", "Other"]
  const ApprovalStatuses: seq<string> := ["pending", "approved", "rejected"]

  /** `bloodInventory`: stock counts by inventory key. */
  type Inventory = map<string, int>

  function InventoryKeySet(): set<string>
  {
    set k | k in InventoryKeys
  }

  /** Each of the eight counters defaults to 0. */
  function DefaultInventory(): (inv: Inventory)
    ensures inv.Keys == InventoryKeySet()
    ensures forall k :: k in inv ==> inv[k] == 0
  {
    map k | k in InventoryKeys :: 0
  }

  /** An inventory holding exactly the eight schema counters. */
  predicate Shaped(inv: Inventory)
  {
    inv.Keys == InventoryKeySet()
  }

  /** A shaped inventory has a counter for every blood group. */
  lemma ShapedHasKey(inv: Inventory, g: BloodGroup)
    requires Shaped(inv)
    ensures Key(g) in inv
  {
    KeysDistinct(g, g);
  }

  datatype Hospital = Hospital(
    id: Id,
    hospitalName: string,
    licenseNumber: string,
    ownershipType: string,
    email: string,
    phone: string,
    emergencyPhone: string,
    website: string,
    address: string,
    city: string,
    state: string,
    zipCode: string,
    totalBeds: int,
    password: string,
    hasBloodBank: bool,
    hasAmbulance: bool,
    status: string,
    inventory: Inventory,
    otp: OtpState)

  /** The schema's validators (required, enum, match, minLength). */
  predicate Valid(h: Hospital)
  {
    h.hospitalName != "" && h.licenseNumber != ""
    && h.ownershipType in OwnershipTypes
    && h.email != "" && SchemaEmail(h.email)
    && DigitsBetween(h.phone, 10, 12)
    && h.address != "" && h.city != "" && h.state != "" && h.zipCode != ""
    && |h.password| >= 6
    && h.status in ApprovalStatuses
  }

  /** The registration body as `Hospital.create` receives it. */
  datatype Body = Body(
    hospitalName: Option<string>,
    licenseNumber: Option<string>,
    ownershipType: Option<string>,
    email: Option<string>,
    phone: Option<string>,
    emergencyPhone: Option<string>,
    website: Option<string>,
    address: Option<string>,
    city: Option<string>,
    state: Option<string>,
    zipCode: Option<string>,
    totalBeds: Option<int>,
    password: Option<string>,
    hasBloodBank: Option<bool>,
    hasAmbulance: Option<bool>)

  /** The required fields are present (`required` refuses a missing value). */
  predicate Present(b: Body)
  {
    b.hospitalName.Some? && b.licenseNumber.Some? && b.ownershipType.Some? && b.email.Some?
    && b.phone.Some? && b.address.Some? && b.city.Some? && b.state.Some? && b.zipCode.Some?
    && b.password.Some?
  }

  /** A missing optional string reads as "". */
  function Val(v: Option<string>): string
  {
    if v.Some? then v.value else ""
  }

  /** The document `Hospital.create` builds before validation: setters applied, defaults filled. */
  function Candidate(b: Body, id: Id): Hospital
  {
    Hospital(
      id := id,
      hospitalName := Trim(Val(b.hospitalName)),
      licenseNumber := Trim(Val(b.licenseNumber)),
      ownershipType := Val(b.ownershipType),
      email := NormEmail(Val(b.email)),
      phone := Val(b.phone),
      emergencyPhone := Val(b.emergencyPhone),
      website := Trim(Val(b.website)),
      address := Trim(Val(b.address)),
      city := Trim(Val(b.city)),
      state := Trim(Val(b.state)),
      zipCode := Trim(Val(b.zipCode)),
      totalBeds := if b.totalBeds.Some? then b.totalBeds.value else 0,
      password := Val(b.password),
      hasBloodBank := b.hasBloodBank == Some(true),
      hasAmbulance := b.hasAmbulance == Some(true),
      status := "pending",
      inventory := DefaultInventory(),
      otp := Cleared)
  }

  /** `Hospital.create(body)`: `None` when a validator fails. */
  function Create(b: Body, id: Id): (r: Option<Hospital>)
    ensures r.Some? ==> Valid(r.value) && Shaped(r.value.inventory)
    ensures r.Some? ==> (r.value.id == id && r.value.status == "pending"
      && r.value.inventory == DefaultInventory() && r.value.otp == Cleared)
    ensures r.Some? ==> b.email.Some? && r.value.email == NormEmail(b.email.value)
    ensures r.Some? ==> b.phone.Some? && r.value.phone == b.phone.value
    ensures r.Some? ==> b.licenseNumber.Some? && r.value.licenseNumber == Trim(b.licenseNumber.value)
    ensures r.Some? ==> b.password.Some? && r.value.password == b.password.value
  {
    if !Present(b) then None
    else
      var h := Candidate(b, id);
      if Valid(h) then Some(h) else None
  }

  /** Each required field, when missing, makes registration fail validation. */
  lemma CreateNeedsRequired(b: Body, id: Id)
    requires b.hospitalName.None? || b.licenseNumber.None? || b.ownershipType.None? || b.email.None?
      || b.phone.None? || b.address.None? || b.city.None? || b.state.None? || b.zipCode.None?
      || b.password.None?
    ensures Create(b, id).None?
  {
  }

  /** A phone number of 9 or 13 digits, or with a non-digit, is refused. */
  lemma CreatePhoneRule(b: Body, id: Id)
    requires b.phone.Some? && !DigitsBetween(b.phone.value, 10, 12)
    ensures Create(b, id).None?
  {
  }

  /** An ownership type outside the enum is refused; the enum check is case-sensitive. */
  lemma CreateOwnershipRule(b: Body, id: Id)
    requires b.ownershipType == Some("government")
    ensures Create(b, id).None?
  {
    var h := Candidate(b, id);
    assert h.ownershipType == "government";
    LowerCaseOwnership();
    ValidNeedsOwnership(h);
  }

  lemma ValidNeedsOwnership(h: Hospital)
    requires h.ownershipType !in OwnershipTypes
    ensures !Valid(h)
  {
  }

  lemma LowerCaseOwnership()
    ensures "government" !in OwnershipTypes
  {
    assert forall t <- OwnershipTypes :: t[0] != 'g';
  }

  /** Optional fields take their defaults: empty strings, no beds, no blood bank or ambulance. */
  lemma CreateDefaults(b: Body, id: Id)
    requires Create(b, id).Some?
    requires b.emergencyPhone.None? && b.website.None? && b.totalBeds.None?
      && b.hasBloodBank.None? && b.hasAmbulance.None?
    ensures var h := Create(b, id).value;
      h.emergencyPhone == "" && h.website == "" && h.totalBeds == 0
      && !h.hasBloodBank && !h.hasAmbulance
  {
    assert Trim("") == "";
  }

  /** A fresh inventory holds zero units of every group. */
  lemma DefaultStock(g: BloodGroup)
    ensures Key(g) in DefaultInventory() && DefaultInventory()[Key(g)] == 0
  {
    KeysDistinct(g, g);
  }
}
