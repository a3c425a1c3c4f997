// The requester's blood-bank screen: every hospital with its stock badges,
// narrowed by a search term and a blood-group filter, and a dialog that
// sends a request for blood straight to one hospital.
module BloodBankPage {
  import opened Common
  import Numbers
  import opened BloodGroups
  import opened HospitalSchema
  import opened Store
  import RequestSchema
  import RequestController

  // ---------------------------------------------------------------------
  // The hospital list
  // ---------------------------------------------------------------------

  /** The city or the hospital name contains the term, both lower-cased. */
  predicate MatchesSearch(h: Hospital, term: string)
  {
    Contains(ToLower(h.city), ToLower(term)) || Contains(ToLower(h.hospitalName), ToLower(term))
  }

  /** 'All' passes every hospital; a group needs a positive counter under its converted key. */
  predicate MatchesBlood(h: Hospital, filter: string)
  {
    filter == "All"
    || (var key := KeyOfLabel(filter); key in h.inventory && h.inventory[key] > 0)
  }

  /** `filteredHospitals` */
  function FilteredHospitals(hospitals: seq<Hospital>, term: string, filter: string): seq<Hospital>
  {
    Filter(hospitals, (h: Hospital) => MatchesSearch(h, term) && MatchesBlood(h, filter))
  }

  /** A hospital is listed exactly when both the search and the blood filter pass it. */
  lemma FilteredExact(hospitals: seq<Hospital>, term: string, filter: string, h: Hospital)
    ensures h in FilteredHospitals(hospitals, term, filter) <==>
      h in hospitals
      && (Contains(ToLower(h.city), ToLower(term)) || Contains(ToLower(h.hospitalName), ToLower(term)))
      && (filter == "All" || (KeyOfLabel(filter) in h.inventory && h.inventory[KeyOfLabel(filter)] > 0))
  {
    FilterMember(hospitals, (x: Hospital) => MatchesSearch(x, term) && MatchesBlood(x, filter), h);
  }

  lemma ContainsEmpty(s: string)
    ensures Contains(s, "")
  {
    assert OccursAt(s, "", 0);
  }

  /** With an empty search and 'All', the whole list is shown, in the order the server sent it. */
  lemma NoFilterShowsAll(hospitals: seq<Hospital>)
    ensures FilteredHospitals(hospitals, "", "All") == hospitals
  {
    forall i | 0 <= i < |hospitals| ensures MatchesSearch(hospitals[i], "") {
      ContainsEmpty(ToLower(hospitals[i].city));
    }
    FilterKeepsAll(hospitals, (h: Hospital) => MatchesSearch(h, "") && MatchesBlood(h, "All"));
  }

  /** Lower-casing forgets whether a letter was upper-cased first. */
  lemma LowerOfUpper(t: string)
    ensures ToLower(ToUpper(t)) == ToLower(t)
  {
    forall i | 0 <= i < |t| ensures LowerChar(UpperChar(t[i])) == LowerChar(t[i]) {
    }
  }

  /** The search ignores the case of the term. */
  lemma SearchIgnoresCase(h: Hospital, term: string)
    ensures MatchesSearch(h, ToUpper(term)) == MatchesSearch(h, term)
    ensures MatchesSearch(h, ToLower(term)) == MatchesSearch(h, term)
  {
    LowerOfUpper(term);
    ToLowerIdempotent(term);
  }

  /** Filtering by a group's label reads exactly that group's counter. */
  lemma GroupFilter(h: Hospital, g: BloodGroup)
    requires Shaped(h.inventory)
    ensures MatchesBlood(h, Label(g)) <==> h.inventory[Key(g)] > 0
  {
    KeyOfLabelIsKey(g);
    KeysDistinct(g, g);
  }

  // ---------------------------------------------------------------------
  // The stock badges of a card
  // ---------------------------------------------------------------------

  /** One badge: the displayed group, its count, and whether it is lit as available. */
  datatype Badge = Badge(group: string, count: int, available: bool)

  /**
   * `Object.entries(hospital.bloodInventory).map(...)`: a stored inventory
   * lists the eight counters in schema order, each shown under its key
   * converted back to a label.
   */
  function Badges(inv: Inventory): (b: seq<Badge>)
    requires Shaped(inv)
    ensures |b| == 8
    ensures forall k :: 0 <= k < 8 ==>
      b[k].count == inv[InventoryKeys[k]] && (b[k].available <==> inv[InventoryKeys[k]] > 0)
  {
    seq(8, k requires 0 <= k < 8 =>
      Badge(LabelOfKey(InventoryKeys[k]), inv[InventoryKeys[k]], inv[InventoryKeys[k]] > 0))
  }

  /**
   * Each badge shows its group's label, the label converts back to the
   * counter's key, and a badge is lit exactly when filtering by its label
   * keeps the hospital.
   */
  lemma BadgeRoundTrip(h: Hospital, k: nat)
    requires Shaped(h.inventory) && k < 8
    ensures var b := Badges(h.inventory)[k];
      b.group == Label(AllGroups[k]) && KeyOfLabel(b.group) == InventoryKeys[k]
      && (b.available <==> MatchesBlood(h, b.group))
  {
    var g := AllGroups[k];
    assert Key(g) == InventoryKeys[k];
    LabelOfKeyIsLabel(g);
    KeyOfLabelIsKey(g);
    GroupFilter(h, g);
  }

  // ---------------------------------------------------------------------
  // The request dialog
  // ---------------------------------------------------------------------

  /** `requestForm`; `units` holds the text of the input (the reset's number 1 reads as "1"). */
  datatype RequestForm = RequestForm(patientName: string, age: string, gender: string, bloodGroup: string,
                                     units: string, reason: string, urgency: string)

  const InitialForm := RequestForm("", "", "Male", "", "1", "", "moderate")

  /** The inputs of the dialog, by their `name` attribute. */
  datatype Field = PatientName | Age | GenderField | BloodGroupField | Units | Reason | UrgencyField

  /** The masks of `handleFormChange`; the selects and the reason take any value. */
  predicate Accepts(field: Field, value: string)
  {
    match field
    case PatientName => LettersAndSpaces(value)
    case Age => AllDigits(value) && |value| <= 3
    case Units => AllDigits(value) && |value| <= 2
    case _ => true
  }

  /** `{ ...requestForm, [name]: value }` */
  function SetField(f: RequestForm, field: Field, value: string): RequestForm
  {
    match field
    case PatientName => f.(patientName := value)
    case Age => f.(age := value)
    case GenderField => f.(gender := value)
    case BloodGroupField => f.(bloodGroup := value)
    case Units => f.(units := value)
    case Reason => f.(reason := value)
    case UrgencyField => f.(urgency := value)
  }

  /** What the masks guarantee of the form at every moment. */
  predicate Masked(f: RequestForm)
  {
    LettersAndSpaces(f.patientName) && AllDigits(f.age) && |f.age| <= 3 && AllDigits(f.units) && |f.units| <= 2
  }

  /** The browser's `required` check on the patient name, the blood group and the age. */
  predicate Complete(f: RequestForm)
  {
    f.patientName != "" && f.bloodGroup != "" && f.age != ""
  }

  /** The body sent for a form and the chosen hospital. */
  function Payload(f: RequestForm, h: Hospital): RequestController.DirectBody
  {
    RequestController.DirectBody(Some(f.patientName), Numbers.Cast(f.age), Some(f.gender), Some(f.bloodGroup),
                                 Some(f.units), Some(f.reason), Some(h.id), Some(h.hospitalName),
                                 Some(h.address + ", " + h.city), Some(f.urgency))
  }

  lemma SmallDigits(s: string)
    requires AllDigits(s) && |s| <= 3
    ensures DecimalValue(s) < 1000
    ensures |s| <= 2 ==> DecimalValue(s) < 100
  {
    DecimalValueBound(s);
    assert Pow10(0) == 1 && Pow10(1) == 10 && Pow10(2) == 100 && Pow10(3) == 1000;
  }

  /** A masked form asks the server for between 1 and 99 units and gives an age below 1000. */
  lemma MaskedBounds(f: RequestForm, h: Hospital)
    requires Masked(f)
    ensures var n := RequestController.RequestedUnits(Payload(f, h).units); 1 <= n <= 99
    ensures Numbers.Cast(f.age).Some? ==> Numbers.Cast(f.age).value < 1000
  {
    SmallDigits(f.age);
    if f.age != "" {
      Numbers.CastDigits(f.age);
    }
    if f.units != "" {
      ParseIntOfDigits(f.units);
      SmallDigits(f.units);
    }
  }

  /**
   * A request the server accepts from this dialog is stored as Pending,
   * sent by the caller, addressed to the chosen hospital under its name and
   * the address followed by the city, and asks for no more units than the
   * hospital held of the group.
   */
  lemma SentToChosenHospital(requests: seq<RequestSchema.BloodRequest>, hospitals: seq<Hospital>,
                             f: RequestForm, h: Hospital, id: Id, actor: Id, now: int)
    requires RequestController.DirectRequest(requests, hospitals, Payload(f, h), id, actor, now).code == 201
    ensures var o := RequestController.DirectRequest(requests, hospitals, Payload(f, h), id, actor, now);
      var k := HospitalIndex(hospitals, h.id);
      |o.requests| == |requests| + 1 && k.Some?
      && var r := o.requests[|requests|];
      r.status == Some(RequestSchema.Pending) && r.requester == actor && r.targetHospital == Some(h.id)
      && r.hospitalName == h.hospitalName && r.hospitalAddress == h.address + ", " + h.city
      && var stock := RequestController.Stock(hospitals[k.value].inventory, KeyOfLabel(f.bloodGroup));
      stock.Some? && r.units <= stock.value
  {
    RequestController.DirectRequestCreated(requests, hospitals, Payload(f, h), id, actor, now);
  }

  // ---------------------------------------------------------------------
  // The page
  // ---------------------------------------------------------------------

  /** The `axios.post` of the form and the chosen hospital to `createHospitalRequest`. */
  method Post(db: Database, actor: Id, f: RequestForm, h: Hospital, now: int) returns (c: int)
    requires db.Valid()
    modifies db
    ensures db.Valid()
    ensures RequestController.Reply(c, db.requests)
      == RequestController.DirectRequest(old(db.requests), old(db.hospitals), Payload(f, h), old(db.nextId), actor, now)
    ensures db.users == old(db.users) && db.donors == old(db.donors) && db.hospitals == old(db.hospitals)
    ensures db.admins == old(db.admins)
  {
    c := RequestController.CreateHospitalRequest(db, actor, Payload(f, h), now);
  }

  class Page {
    var loading: bool
    var hospitals: seq<Hospital>
    var searchCity: string
    var filterBlood: string
    var isModalOpen: bool
    var selected: Option<Hospital>
    var submitLoading: bool
    var form: RequestForm

    /** The masks hold, and an open dialog belongs to a hospital. */
    ghost predicate Valid()
      reads this
    {
      Masked(form) && (isModalOpen ==> selected.Some?)
    }

    constructor ()
      ensures Valid() && loading && hospitals == [] && searchCity == "" && filterBlood == "All"
      ensures !isModalOpen && selected.None? && !submitLoading && form == InitialForm
    {
      loading, hospitals, searchCity, filterBlood := true, [], "", "All";
      isModalOpen, selected, submitLoading, form := false, None, false, InitialForm;
    }

    /** `fetchHospitals`: every stored hospital, in store order. */
    method Load(db: Database)
      modifies this
      ensures hospitals == db.hospitals && !loading
      ensures searchCity == old(searchCity) && filterBlood == old(filterBlood) && isModalOpen == old(isModalOpen)
      ensures selected == old(selected) && submitLoading == old(submitLoading) && form == old(form)
    {
      hospitals := db.hospitals;
      loading := false;
    }

    /** The search box and the group select. */
    method SetFilters(term: string, filter: string)
      modifies this
      ensures searchCity == term && filterBlood == filter
      ensures loading == old(loading) && hospitals == old(hospitals) && isModalOpen == old(isModalOpen)
      ensures selected == old(selected) && submitLoading == old(submitLoading) && form == old(form)
    {
      searchCity, filterBlood := term, filter;
    }

    /**
     * `openRequestModal`: clears the patient's name, age and reason, sets
     * one unit and preselects the filtered group ('' for 'All'); gender and
     * urgency stay as they were.
     */
    method OpenRequestModal(h: Hospital)
      requires Valid()
      modifies this
      ensures Valid() && isModalOpen && selected == Some(h)
      ensures form == old(form).(bloodGroup := if filterBlood != "All" then filterBlood else "",
                                 patientName := "", age := "", units := "1", reason := "")
      ensures loading == old(loading) && hospitals == old(hospitals) && searchCity == old(searchCity)
      ensures filterBlood == old(filterBlood) && submitLoading == old(submitLoading)
    {
      selected := Some(h);
      form := form.(bloodGroup := if filterBlood != "All" then filterBlood else "",
                    patientName := "", age := "", units := "1", reason := "");
      isModalOpen := true;
    }

    /** `closeModal` */
    method CloseModal()
      requires Valid()
      modifies this
      ensures Valid() && !isModalOpen && selected.None? && form == old(form)
      ensures loading == old(loading) && hospitals == old(hospitals) && searchCity == old(searchCity)
      ensures filterBlood == old(filterBlood) && submitLoading == old(submitLoading)
    {
      isModalOpen := false;
      selected := None;
    }

    /** `handleFormChange`: an edit the field's mask refuses leaves the form as it was. */
    method FormChange(field: Field, value: string)
      requires Valid()
      modifies this
      ensures Valid()
      ensures form == if Accepts(field, value) then SetField(old(form), field, value) else old(form)
      ensures loading == old(loading) && hospitals == old(hospitals) && searchCity == old(searchCity)
      ensures filterBlood == old(filterBlood) && isModalOpen == old(isModalOpen) && selected == old(selected)
      ensures submitLoading == old(submitLoading)
    {
      if field == PatientName {
        if LettersAndSpaces(value) {
          form := form.(patientName := value);
        }
      } else if field == Age {
        if AllDigits(value) && |value| <= 3 {
          form := form.(age := value);
        }
      } else if field == Units {
        if AllDigits(value) && |value| <= 2 {
          form := form.(units := value);
        }
      } else {
        form := SetField(form, field, value);
      }
    }

    /**
     * `handleRequestSubmit`, once the browser's required check passes: the
     * form with the chosen hospital goes to `createHospitalRequest`; on
     * success the dialog closes and the form is reset, on an error it stays.
     */
    method Submit(db: Database, actor: Id, now: int) returns (code: Option<int>)
      requires Valid() && isModalOpen && db.Valid()
      modifies this, db
      ensures Valid() && db.Valid()
      ensures code.Some? <==> Complete(old(form))
      ensures code.Some? ==> !submitLoading
      ensures code.None? ==> db.requests == old(db.requests) && db.nextId == old(db.nextId)
      ensures code.None? ==> submitLoading == old(submitLoading)
      ensures code.Some? ==>
        RequestController.Reply(code.value, db.requests)
        == RequestController.DirectRequest(old(db.requests), old(db.hospitals), Payload(old(form), old(selected).value),
                                           old(db.nextId), actor, now)
      ensures db.users == old(db.users) && db.donors == old(db.donors) && db.hospitals == old(db.hospitals)
      ensures db.admins == old(db.admins)
      ensures var sent := code.Some? && Succeeded(code.value);
        (sent ==> !isModalOpen && selected.None? && form == InitialForm)
        && (!sent ==> isModalOpen == old(isModalOpen) && selected == old(selected) && form == old(form))
      ensures loading == old(loading) && hospitals == old(hospitals) && searchCity == old(searchCity)
      ensures filterBlood == old(filterBlood)
    {
      if !Complete(form) {
        code := None;
        return;
      }
      var f, h := form, selected.value;
      submitLoading := true;
      var c := Post(db, actor, f, h, now);
      code := Some(c);
      Finish(c);
    }

    /** After the answer: a success closes the dialog and resets the form; the spinner stops either way. */
    method Finish(c: int)
      requires Valid()
      modifies this
      ensures Valid() && !submitLoading
      ensures Succeeded(c) ==> !isModalOpen && selected.None? && form == InitialForm
      ensures !Succeeded(c) ==> isModalOpen == old(isModalOpen) && selected == old(selected) && form == old(form)
      ensures loading == old(loading) && hospitals == old(hospitals) && searchCity == old(searchCity)
      ensures filterBlood == old(filterBlood)
    {
      if Succeeded(c) {
        isModalOpen := false;
        selected := None;
        form := InitialForm;
      }
      submitLoading := false;
    }
  }
}
