// The blood-request controller: creating requests (free-standing and
// hospital-directed, the latter after a stock check), the status update with
// its donor stamp, deletion by the requester, a donor scheduling a donation,
// and the filter-and-sort queries. Each state-changing handler is a method on
// the database proved equal to a pure function of the old state; the
// properties of the handlers are lemmas about those functions.
module RequestController {
  import opened Common
  import opened BloodGroups
  import opened RequestSchema
  import opened RequestOrder
  import opened HospitalSchema
  import opened DonorSchema
  import opened UserSchema
  import opened Store

  /** A status code with the request collection it leaves behind. */
  datatype Reply = Reply(code: int, requests: seq<BloodRequest>)

  // ---------------------------------------------------------------------
  // createRequest
  // ---------------------------------------------------------------------

  /**
   * The body of `createRequest`: the fields it destructures, plus fields a
   * client may add that the handler never reads.
   */
  datatype RequestBody = RequestBody(
    draft: Draft,
    status: Option<string>,
    requester: Option<Id>,
    fulfilledBy: Option<Id>,
    targetHospital: Option<Id>)

  /** The document `createRequest` stores: requester is the caller and status "Pending". */
  function NewRequest(body: RequestBody, id: Id, actor: Id, now: int): (r: Option<BloodRequest>)
    ensures r.Some? <==> Accepts(body.draft)
    ensures r.Some? ==> (r.value.status == Some(Pending) && r.value.requester == actor
      && r.value.fulfilledBy.None? && r.value.targetHospital.None? && RequestSchema.Valid(r.value))
  {
    RequestSchema.Create(body.draft, id, actor, None, now)
  }

  /** Status, requester, donor or hospital fields in the body change nothing. */
  lemma NewRequestIgnoresControls(b1: RequestBody, b2: RequestBody, id: Id, actor: Id, now: int)
    requires b1.draft == b2.draft
    ensures NewRequest(b1, id, actor, now) == NewRequest(b2, id, actor, now)
  {
  }

  method CreateRequest(db: Database, actor: Id, body: RequestBody, now: int) returns (code: int)
    requires db.Valid()
    modifies db
    ensures db.Valid()
    ensures var r := NewRequest(body, old(db.nextId), actor, now);
      if r.Some? then code == 201 && db.requests == old(db.requests) + [r.value]
      else code == 500 && db.requests == old(db.requests)
    ensures db.users == old(db.users) && db.donors == old(db.donors)
    ensures db.hospitals == old(db.hospitals) && db.admins == old(db.admins)
  {
    var r := NewRequest(body, db.nextId, actor, now);
    if r.None? {
      code := 500;
      return;
    }
    db.AddRequest(r.value);
    code := 201;
  }

  // ---------------------------------------------------------------------
  // updateRequestStatus
  // ---------------------------------------------------------------------

  /** The caller is the requester or the hospital the request is addressed to. */
  predicate Authorized(r: BloodRequest, actor: Id)
  {
    r.requester == actor || r.targetHospital == Some(actor)
  }

  /**
   * The donor write made before the request is saved: for status "Fulfilled"
   * and a recorded donor that still exists, its last donation date becomes
   * now. The donor's other fields are untouched, so the save's validators
   * pass again.
   */
  function Stamp(donors: seq<Donor>, r: BloodRequest, status: Option<string>, now: int): seq<Donor>
  {
    if status == Some("Fulfilled") && r.fulfilledBy.Some? then
      match DonorIndex(donors, r.fulfilledBy.value)
      case None => donors
      case Some(k) => donors[k := donors[k].(lastDonationDate := Some(now))]
    else donors
  }

  /**
   * `request.status = status; request.save()`: `None` when the enum validator
   * refuses the value (the empty string included); an absent value removes
   * the field. The document is written, and `updatedAt` moves, only when
   * the value differs from the loaded one (where an absent status reads as
   * the default "Pending").
   */
  function AssignStatus(r: BloodRequest, status: Option<string>, now: int): Option<BloodRequest>
  {
    if status.Some? && ParseStatus(status.value).None? then None
    else
      var s := if status.Some? then Some(ParseStatus(status.value).value) else None;
      Some(if s == Some(LoadedStatus(r)) then r else r.(status := s, updatedAt := now))
  }

  datatype StatusOutcome = StatusOutcome(code: int, requests: seq<BloodRequest>, donors: seq<Donor>)

  function StatusUpdate(requests: seq<BloodRequest>, donors: seq<Donor>, actor: Id, id: Id,
                        status: Option<string>, now: int): StatusOutcome
  {
    match RequestIndex(requests, id)
    case None => StatusOutcome(404, requests, donors)
    case Some(i) =>
      if !Authorized(requests[i], actor) then StatusOutcome(401, requests, donors)
      else
        var ds := Stamp(donors, requests[i], status, now);
        match AssignStatus(requests[i], status, now)
        case None => StatusOutcome(500, requests, ds)
        case Some(r) => StatusOutcome(200, requests[i := r], ds)
  }

  method UpdateRequestStatus(db: Database, actor: Id, id: Id, status: Option<string>, now: int)
    returns (code: int)
    requires db.Valid()
    modifies db
    ensures db.Valid()
    ensures StatusOutcome(code, db.requests, db.donors)
      == StatusUpdate(old(db.requests), old(db.donors), actor, id, status, now)
    ensures db.users == old(db.users) && db.hospitals == old(db.hospitals)
    ensures db.admins == old(db.admins) && db.nextId == old(db.nextId)
  {
    var found := RequestIndex(db.requests, id);
    if found.None? {
      code := 404;
      return;
    }
    var i := found.value;
    var request := db.requests[i];
    if !(request.requester == actor || request.targetHospital == Some(actor)) {
      code := 401;
      return;
    }
    StampDonor(db, request, status, now);
    if status.Some? && ParseStatus(status.value).None? {
      code := 500;
      return;
    }
    var newStatus := if status.Some? then Some(ParseStatus(status.value).value) else None;
    if newStatus != Some(LoadedStatus(request)) {
      request := request.(status := newStatus, updatedAt := now);
      db.SetRequest(i, request);
    }
    code := 200;
  }

  /** The donor write of `updateRequestStatus`, made before the status is checked. */
  method StampDonor(db: Database, request: BloodRequest, status: Option<string>, now: int)
    requires db.Valid()
    modifies db
    ensures db.Valid()
    ensures db.donors == Stamp(old(db.donors), request, status, now)
    ensures db.requests == old(db.requests) && db.users == old(db.users) && db.hospitals == old(db.hospitals)
    ensures db.admins == old(db.admins) && db.nextId == old(db.nextId)
  {
    if status == Some("Fulfilled") && request.fulfilledBy.Some? {
      var k := DonorIndex(db.donors, request.fulfilledBy.value);
      if k.Some? {
        var donor := db.donors[k.value];
        donor := donor.(lastDonationDate := Some(now));
        UniqueOthers(db.donors, k.value, DonorMobile);
        db.SetDonor(k.value, donor);
      }
    }
  }

  /** An unknown id is answered 404 and nothing is written. */
  lemma StatusUpdateNotFound(requests: seq<BloodRequest>, donors: seq<Donor>, actor: Id, id: Id,
                             status: Option<string>, now: int)
    requires forall j :: 0 <= j < |requests| ==> requests[j].id != id
    ensures StatusUpdate(requests, donors, actor, id, status, now) == StatusOutcome(404, requests, donors)
  {
  }

  /** A caller who is neither requester nor target hospital gets 401; neither request nor donor is written. */
  lemma StatusUpdateUnauthorized(requests: seq<BloodRequest>, donors: seq<Donor>, actor: Id, i: nat,
                                 status: Option<string>, now: int)
    requires i < |requests| && UniqueBy(requests, RequestId)
    requires requests[i].requester != actor && requests[i].targetHospital != Some(actor)
    ensures StatusUpdate(requests, donors, actor, requests[i].id, status, now)
      == StatusOutcome(401, requests, donors)
  {
    UniqueOthers(requests, i, RequestId);
  }

  /**
   * Any status of the enum is accepted from any current status (Cancelled to
   * Cancelled, Fulfilled to Pending, ...): only the caller is checked.
   */
  lemma StatusUpdateAnyToAny(requests: seq<BloodRequest>, donors: seq<Donor>, actor: Id, i: nat,
                             s: Status, now: int)
    requires i < |requests| && UniqueBy(requests, RequestId) && Authorized(requests[i], actor)
    ensures var o := StatusUpdate(requests, donors, actor, requests[i].id, Some(StatusName(s)), now);
      o.code == 200 && |o.requests| == |requests| && LoadedStatus(o.requests[i]) == s
      && o.requests[i].id == requests[i].id && o.requests[i].requester == requests[i].requester
      && (forall j :: 0 <= j < |requests| && j != i ==> o.requests[j] == requests[j])
  {
    UniqueOthers(requests, i, RequestId);
    assert ParseStatus(StatusName(s)) == Some(s);
  }

  /** "Fulfilled" on a request with a recorded, existing donor stamps that donor's last donation date with now. */
  lemma StatusUpdateStampsDonor(requests: seq<BloodRequest>, donors: seq<Donor>, actor: Id, i: nat,
                                k: nat, now: int)
    requires i < |requests| && UniqueBy(requests, RequestId) && Authorized(requests[i], actor)
    requires k < |donors| && UniqueBy(donors, DonorId) && requests[i].fulfilledBy == Some(donors[k].id)
    ensures StatusUpdate(requests, donors, actor, requests[i].id, Some("Fulfilled"), now).donors
      == donors[k := donors[k].(lastDonationDate := Some(now))]
  {
    UniqueOthers(requests, i, RequestId);
    UniqueOthers(donors, k, DonorId);
  }

  /** Any other status, or a request with no donor, leaves every donor as it was. */
  lemma StatusUpdateKeepsDonors(requests: seq<BloodRequest>, donors: seq<Donor>, actor: Id, id: Id,
                                status: Option<string>, now: int)
    requires status != Some("Fulfilled")
      || (forall j :: 0 <= j < |requests| && requests[j].id == id ==> requests[j].fulfilledBy.None?)
    ensures StatusUpdate(requests, donors, actor, id, status, now).donors == donors
  {
  }

  /** A value outside the enum fails validation: 500, and the request keeps its status. */
  lemma StatusUpdateRejectsUnknown(requests: seq<BloodRequest>, donors: seq<Donor>, actor: Id, id: Id,
                                   v: string, now: int)
    requires v !in {"Pending", "Fulfilled", "Rejected", "Cancelled", "Scheduled"}
    ensures var o := StatusUpdate(requests, donors, actor, id, Some(v), now);
      o.requests == requests && o.donors == donors && o.code in {404, 401, 500}
  {
  }

  /** Cancelling an already cancelled request succeeds again and changes nothing. */
  lemma CancelTwice(requests: seq<BloodRequest>, donors: seq<Donor>, actor: Id, i: nat, now: int)
    requires i < |requests| && UniqueBy(requests, RequestId) && Authorized(requests[i], actor)
    requires requests[i].status == Some(Cancelled)
    ensures StatusUpdate(requests, donors, actor, requests[i].id, Some("Cancelled"), now)
      == StatusOutcome(200, requests, donors)
  {
    UniqueOthers(requests, i, RequestId);
    assert requests[i := requests[i]] == requests;
  }

  // ---------------------------------------------------------------------
  // deleteRequest
  // ---------------------------------------------------------------------

  function Deletion(requests: seq<BloodRequest>, actor: Id, id: Id): Reply
  {
    match RequestIndex(requests, id)
    case None => Reply(404, requests)
    case Some(i) =>
      if requests[i].requester != actor then Reply(401, requests)
      else Reply(200, requests[..i] + requests[i + 1..])
  }

  method DeleteRequest(db: Database, actor: Id, id: Id) returns (code: int)
    requires db.Valid()
    modifies db
    ensures db.Valid()
    ensures Reply(code, db.requests) == Deletion(old(db.requests), actor, id)
    ensures db.users == old(db.users) && db.donors == old(db.donors) && db.hospitals == old(db.hospitals)
    ensures db.admins == old(db.admins) && db.nextId == old(db.nextId)
  {
    var found := RequestIndex(db.requests, id);
    if found.None? {
      code := 404;
      return;
    }
    if db.requests[found.value].requester != actor {
      code := 401;
      return;
    }
    db.RemoveRequest(found.value);
    code := 200;
  }

  /**
   * Only the requester can delete, and a deletion removes exactly the
   * request with that id, keeping every other request.
   */
  lemma DeletionOnlyByRequester(requests: seq<BloodRequest>, actor: Id, id: Id)
    requires UniqueBy(requests, RequestId)
    ensures var o := Deletion(requests, actor, id);
      o.code == 200 <==> exists j :: 0 <= j < |requests| && requests[j].id == id && requests[j].requester == actor
    ensures var o := Deletion(requests, actor, id);
      o.code == 200 ==> (|o.requests| == |requests| - 1
        && (forall r :: r in o.requests <==> r in requests && r.id != id))
    ensures var o := Deletion(requests, actor, id);
      o.code != 200 ==> o.requests == requests
  {
    var found := RequestIndex(requests, id);
    if found.Some? {
      var i := found.value;
      UniqueOthers(requests, i, RequestId);
      assert requests == requests[..i] + [requests[i]] + requests[i + 1..];
      forall r | r in requests[..i] + requests[i + 1..]
        ensures r.id != id
      {
        var m :| 0 <= m < |requests[..i] + requests[i + 1..]| && (requests[..i] + requests[i + 1..])[m] == r;
        if m < i { assert r == requests[m]; } else { assert r == requests[m + 1]; }
      }
    }
  }

  // ---------------------------------------------------------------------
  // scheduleDonation
  // ---------------------------------------------------------------------

  /**
   * The caller (a donor) books the request: status "Scheduled", the caller
   * as `fulfilledBy`, the slot and the comments, saved together. The save
   * comes before the e-mail; building the e-mail reads the requester and the
   * donor, so when either account is missing the reply is 500 although the
   * request has been saved. A failed delivery is caught and ignored. The
   * donor's eligibility is not checked.
   */
  function Schedule(requests: seq<BloodRequest>, users: seq<User>, donors: seq<Donor>, actor: Id, id: Id,
                    date: Option<string>, time: Option<string>, comments: Option<string>, now: int): Reply
  {
    match RequestIndex(requests, id)
    case None => Reply(404, requests)
    case Some(i) =>
      var r := requests[i];
      if LoadedStatus(r) != Pending then Reply(400, requests)
      else
        var booked := r.(fulfilledBy := Some(actor), status := Some(Scheduled),
                         appointmentSlot := Some(Slot(date, time)), donorMessage := comments,
                         updatedAt := now);
        var mailed := UserIndex(users, r.requester).Some? && DonorIndex(donors, actor).Some?;
        Reply(if mailed then 200 else 500, requests[i := booked])
  }

  method ScheduleDonation(db: Database, actor: Id, id: Id, date: Option<string>, time: Option<string>,
                          comments: Option<string>, emailDelivered: bool, now: int) returns (code: int)
    requires db.Valid()
    modifies db
    ensures db.Valid()
    ensures Reply(code, db.requests)
      == Schedule(old(db.requests), old(db.users), old(db.donors), actor, id, date, time, comments, now)
    ensures db.users == old(db.users) && db.donors == old(db.donors) && db.hospitals == old(db.hospitals)
    ensures db.admins == old(db.admins) && db.nextId == old(db.nextId)
  {
    var found := RequestIndex(db.requests, id);
    if found.None? {
      code := 404;
      return;
    }
    var i := found.value;
    var request := db.requests[i];
    if LoadedStatus(request) != Pending {
      code := 400;
      return;
    }
    var requesterFound := UserIndex(db.users, request.requester);
    var donorFound := DonorIndex(db.donors, actor);
    request := request.(fulfilledBy := Some(actor));
    request := request.(status := Some(Scheduled));
    request := request.(appointmentSlot := Some(Slot(date, time)));
    request := request.(donorMessage := comments);
    request := request.(updatedAt := now);
    db.SetRequest(i, request);
    if requesterFound.None? || donorFound.None? {
      code := 500;
      return;
    }
    // Whether or not `emailDelivered`, the failure is swallowed.
    code := 200;
  }

  /** An unknown id is answered 404 and nothing is written. */
  lemma ScheduleNotFound(requests: seq<BloodRequest>, users: seq<User>, donors: seq<Donor>, actor: Id, id: Id,
                         date: Option<string>, time: Option<string>, comments: Option<string>, now: int)
    requires forall j :: 0 <= j < |requests| ==> requests[j].id != id
    ensures Schedule(requests, users, donors, actor, id, date, time, comments, now) == Reply(404, requests)
  {
  }

  /**
   * A request that is not pending is refused with 400 and left alone; a
   * pending one is booked for the caller, with status, donor, slot and
   * message set together and every other request kept. The reply is 200
   * exactly when the requester's account and the caller's donor record both
   * exist.
   */
  lemma ScheduleBooks(requests: seq<BloodRequest>, users: seq<User>, donors: seq<Donor>, actor: Id, i: nat,
                      date: Option<string>, time: Option<string>, comments: Option<string>, now: int)
    requires i < |requests| && UniqueBy(requests, RequestId)
    ensures var o := Schedule(requests, users, donors, actor, requests[i].id, date, time, comments, now);
      LoadedStatus(requests[i]) != Pending ==> o == Reply(400, requests)
    ensures var o := Schedule(requests, users, donors, actor, requests[i].id, date, time, comments, now);
      LoadedStatus(requests[i]) == Pending ==> (
        |o.requests| == |requests| && o.requests[i].id == requests[i].id
        && o.requests[i].status == Some(Scheduled) && o.requests[i].fulfilledBy == Some(actor)
        && o.requests[i].appointmentSlot == Some(Slot(date, time)) && o.requests[i].donorMessage == comments
        && o.requests[i].units == requests[i].units && o.requests[i].requester == requests[i].requester
        && (forall j :: 0 <= j < |requests| && j != i ==> o.requests[j] == requests[j])
        && (o.code == 200 <==> UserIndex(users, requests[i].requester).Some? && DonorIndex(donors, actor).Some?)
        && (o.code != 200 ==> o.code == 500))
  {
    UniqueOthers(requests, i, RequestId);
  }

  /**
   * Only the existence of the caller's donor record matters: weight, last
   * donation date, availability and blood group are never looked at.
   */
  lemma ScheduleIgnoresEligibility(requests: seq<BloodRequest>, users: seq<User>, d1: seq<Donor>, d2: seq<Donor>,
                                   actor: Id, id: Id, date: Option<string>, time: Option<string>,
                                   comments: Option<string>, now: int)
    requires DonorIndex(d1, actor).Some? == DonorIndex(d2, actor).Some?
    ensures Schedule(requests, users, d1, actor, id, date, time, comments, now)
      == Schedule(requests, users, d2, actor, id, date, time, comments, now)
  {
  }

  // ---------------------------------------------------------------------
  // The list queries
  // ---------------------------------------------------------------------

  /** A filtered and sorted list holds exactly the matching requests, as many as match. */
  lemma Selected(xs: seq<BloodRequest>, p: BloodRequest -> bool, k: SortKey)
    ensures forall x :: x in Sort(Filter(xs, p), k) <==> x in xs && p(x)
    ensures |Sort(Filter(xs, p), k)| == Count(xs, p)
  {
    var f := Filter(xs, p);
    var s := Sort(f, k);
    forall x
      ensures x in s <==> x in xs && p(x)
    {
      FilterMember(xs, p, x);
      assert x in s <==> x in multiset(s);
      assert x in f <==> x in multiset(f);
    }
    CountIsFilterLength(xs, p);
  }

  /** `getUserRequests`: the caller's own requests, newest first. */
  function UserRequests(requests: seq<BloodRequest>, actor: Id): (r: seq<BloodRequest>)
    ensures Sorted(r, NewestCreated)
    ensures forall x :: x in r <==> x in requests && x.requester == actor
    ensures |r| == Count(requests, (x: BloodRequest) => x.requester == actor)
  {
    var p := (x: BloodRequest) => x.requester == actor;
    Selected(requests, p, NewestCreated);
    Sort(Filter(requests, p), NewestCreated)
  }

  /**
   * `getAllRequests`: every request whose status is not "Cancelled" (a
   * request without a status is listed too), critical first, then low, then
   * moderate, newest first within an urgency.
   */
  function AllRequests(requests: seq<BloodRequest>): (r: seq<BloodRequest>)
    ensures Sorted(r, UrgencyThenNewest)
    ensures forall x :: x in r <==> x in requests && x.status != Some(Cancelled)
    ensures |r| == Count(requests, (x: BloodRequest) => x.status != Some(Cancelled))
  {
    var p := (x: BloodRequest) => x.status != Some(Cancelled);
    Selected(requests, p, UrgencyThenNewest);
    Sort(Filter(requests, p), UrgencyThenNewest)
  }

  /** The `getMatchingRequests` reply: the count, the caller's group and the list. */
  datatype Matching = Matching(count: nat, bloodGroup: BloodGroup, requests: seq<BloodRequest>)

  /**
   * `getMatchingRequests`: for a caller with a donor record, the requests
   * stored as "Pending" for exactly that donor's group, in urgency order;
   * `None` (404) for any other caller.
   */
  function MatchingRequests(requests: seq<BloodRequest>, donors: seq<Donor>, actor: Id): (r: Option<Matching>)
    ensures r.Some? <==> exists j :: 0 <= j < |donors| && donors[j].id == actor
    ensures r.Some? ==> (r.value.bloodGroup == donors[DonorIndex(donors, actor).value].bloodGroup
      && r.value.count == |r.value.requests| && Sorted(r.value.requests, UrgencyThenNewest)
      && (forall x :: x in r.value.requests <==>
            x in requests && x.status == Some(Pending) && x.bloodGroup == r.value.bloodGroup))
  {
    match DonorIndex(donors, actor)
    case None => None
    case Some(k) =>
      var g := donors[k].bloodGroup;
      var p := (x: BloodRequest) => x.status == Some(Pending) && x.bloodGroup == g;
      Selected(requests, p, UrgencyThenNewest);
      var list := Sort(Filter(requests, p), UrgencyThenNewest);
      Some(Matching(|list|, g, list))
  }

  /** `getDonorHistory`: the requests the caller is recorded on, most recently updated first. */
  function DonorHistory(requests: seq<BloodRequest>, actor: Id): (r: seq<BloodRequest>)
    ensures Sorted(r, NewestUpdated)
    ensures forall x :: x in r <==> x in requests && x.fulfilledBy == Some(actor)
    ensures |r| == Count(requests, (x: BloodRequest) => x.fulfilledBy == Some(actor))
  {
    var p := (x: BloodRequest) => x.fulfilledBy == Some(actor);
    Selected(requests, p, NewestUpdated);
    Sort(Filter(requests, p), NewestUpdated)
  }

  /**
   * Once booked, a request leaves every donor's matching list, stays in the
   * general list, and enters the booking donor's history.
   */
  lemma BookingMovesRequest(requests: seq<BloodRequest>, users: seq<User>, donors: seq<Donor>, actor: Id, i: nat,
                            date: Option<string>, time: Option<string>, comments: Option<string>, now: int,
                            other: Id)
    requires i < |requests| && UniqueBy(requests, RequestId) && LoadedStatus(requests[i]) == Pending
    ensures var o := Schedule(requests, users, donors, actor, requests[i].id, date, time, comments, now);
      var m := MatchingRequests(o.requests, donors, other);
      (m.Some? ==> o.requests[i] !in m.value.requests)
      && o.requests[i] in AllRequests(o.requests)
      && o.requests[i] in DonorHistory(o.requests, actor)
  {
    ScheduleBooks(requests, users, donors, actor, i, date, time, comments, now);
  }

  /**
   * A request stored without a status reads as "Pending" when loaded, so it
   * can be booked, yet the matching query compares the stored field and
   * never offers it to a donor.
   */
  lemma StatuslessRequest(requests: seq<BloodRequest>, users: seq<User>, donors: seq<Donor>, actor: Id, i: nat,
                          date: Option<string>, time: Option<string>, comments: Option<string>, now: int)
    requires i < |requests| && UniqueBy(requests, RequestId) && requests[i].status.None?
    ensures Schedule(requests, users, donors, actor, requests[i].id, date, time, comments, now).code != 400
    ensures var m := MatchingRequests(requests, donors, actor);
      m.Some? ==> requests[i] !in m.value.requests
    ensures requests[i] in AllRequests(requests)
  {
    ScheduleBooks(requests, users, donors, actor, i, date, time, comments, now);
  }

  // ---------------------------------------------------------------------
  // createHospitalRequest
  // ---------------------------------------------------------------------

  /** The body of a request addressed to a hospital; `units` arrives as text. */
  datatype DirectBody = DirectBody(
    patientName: Option<string>,
    age: Option<int>,
    gender: Option<string>,
    bloodGroup: Option<string>,
    units: Option<string>,
    reason: Option<string>,
    hospitalId: Option<Id>,
    hospitalName: Option<string>,
    hospitalAddress: Option<string>,
    urgency: Option<string>)

  /** `parseInt(units) || 1`: a missing, non-numeric or zero value asks for one unit. */
  function RequestedUnits(units: Option<string>): (n: int)
    ensures n != 0
  {
    OrNumber(if units.Some? then ParseInt(units.value) else None, 1)
  }

  /**
   * `hospital.bloodInventory[key] || 0`: the counter, 0 for a key the
   * inventory lacks, and `None` for an object member, whose value is a
   * function that no unit count exceeds (the comparison reads it as `NaN`).
   */
  function Stock(inv: Inventory, key: string): (r: Option<int>)
    ensures key in inv ==> r == Some(inv[key])
    ensures key !in inv ==> (r.None? <==> key in ObjectMembers)
    ensures r.Some? && key !in inv ==> r.value == 0
  {
    if key in inv then Some(inv[key]) else if key in ObjectMembers then None else Some(0)
  }

  /** The stock refusal: more units asked for than a counter holds. */
  predicate OverStock(units: int, stock: Option<int>)
  {
    stock.Some? && units > stock.value
  }

  function DirectDraft(b: DirectBody): Draft
  {
    Draft(b.patientName, b.age, b.gender, b.bloodGroup, Some(RequestedUnits(b.units)), b.reason,
          b.hospitalName, None, b.hospitalAddress, None, b.urgency)
  }

  /**
   * The outcome of `createHospitalRequest`: 400 without a hospital id, 404
   * for an unknown hospital, 500 without a blood group (the key mapping
   * throws), 400 when more units are asked for than the hospital's counter
   * for the key holds (never for an object member's name), then the create
   * (201, or 500 when validation fails). The stock is checked but not reserved.
   */
  function DirectRequest(requests: seq<BloodRequest>, hospitals: seq<Hospital>, b: DirectBody, id: Id,
                         actor: Id, now: int): Reply
  {
    if b.hospitalId.None? then Reply(400, requests)
    else match HospitalIndex(hospitals, b.hospitalId.value)
      case None => Reply(404, requests)
      case Some(k) =>
        if b.bloodGroup.None? then Reply(500, requests)
        else if OverStock(RequestedUnits(b.units), Stock(hospitals[k].inventory, KeyOfLabel(b.bloodGroup.value))) then
          Reply(400, requests)
        else match RequestSchema.Create(DirectDraft(b), id, actor, b.hospitalId, now)
          case None => Reply(500, requests)
          case Some(r) => Reply(201, requests + [r])
  }

  method CreateHospitalRequest(db: Database, actor: Id, b: DirectBody, now: int) returns (code: int)
    requires db.Valid()
    modifies db
    ensures db.Valid()
    ensures Reply(code, db.requests) == DirectRequest(old(db.requests), old(db.hospitals), b, old(db.nextId), actor, now)
    ensures db.users == old(db.users) && db.donors == old(db.donors)
    ensures db.hospitals == old(db.hospitals) && db.admins == old(db.admins)
  {
    if b.hospitalId.None? {
      code := 400;
      return;
    }
    var found := HospitalIndex(db.hospitals, b.hospitalId.value);
    if found.None? {
      code := 404;
      return;
    }
    if b.bloodGroup.None? {
      code := 500;
      return;
    }
    var inventoryKey := KeyOfLabel(b.bloodGroup.value);
    var availableStock := Stock(db.hospitals[found.value].inventory, inventoryKey);
    var requestedUnits := RequestedUnits(b.units);
    if availableStock.Some? && requestedUnits > availableStock.value {
      code := 400;
      return;
    }
    var r := RequestSchema.Create(DirectDraft(b), db.nextId, actor, b.hospitalId, now);
    if r.None? {
      code := 500;
      return;
    }
    db.AddRequest(r.value);
    code := 201;
  }

  /**
   * A successful direct request is pending, addressed to the hospital named
   * in the body, asks for the parsed unit count, and was within the stock
   * the hospital's counter held for the submitted label.
   */
  lemma DirectRequestCreated(requests: seq<BloodRequest>, hospitals: seq<Hospital>, b: DirectBody, id: Id,
                             actor: Id, now: int)
    requires DirectRequest(requests, hospitals, b, id, actor, now).code == 201
    ensures var o := DirectRequest(requests, hospitals, b, id, actor, now);
      var k := HospitalIndex(hospitals, b.hospitalId.value);
      |o.requests| == |requests| + 1 && o.requests[..|requests|] == requests
      && k.Some? && b.bloodGroup.Some?
      && var r := o.requests[|requests|];
      r.status == Some(Pending) && r.requester == actor && r.targetHospital == b.hospitalId
      && r.units == RequestedUnits(b.units) >= 1
      && var stock := Stock(hospitals[k.value].inventory, KeyOfLabel(b.bloodGroup.value));
      stock.Some? && r.units <= stock.value
  {
    UpperLabelNoMember(b.bloodGroup.value);
  }

  /** For a label as the pages send it, the counter checked is the group's own. */
  lemma DirectStockOfLabel(inv: Inventory, g: BloodGroup)
    requires Shaped(inv)
    ensures Stock(inv, KeyOfLabel(Label(g))) == Some(inv[Key(g)])
  {
    KeyOfLabelIsKey(g);
    KeysDistinct(g, g);
  }

  /**
   * The stock check reads the label as submitted while the schema upper-cases
   * it afterwards: a lower-case "a+" finds no counter, the stock reads 0,
   * and the request is refused although "A+" would be stored.
   */
  lemma DirectLowerCaseRefused(requests: seq<BloodRequest>, hospitals: seq<Hospital>, b: DirectBody, id: Id,
                               actor: Id, now: int)
    requires b.hospitalId.Some? && b.bloodGroup == Some("a+")
    requires forall j :: 0 <= j < |hospitals| ==> Shaped(hospitals[j].inventory)
    ensures DirectRequest(requests, hospitals, b, id, actor, now).code != 201
  {
    var s := b.bloodGroup.value;
    KeyOfBadLabel(s);
    assert ParseLabel(s).None? && s !in InventoryKeys;
    match HospitalIndex(hospitals, b.hospitalId.value)
    case None =>
    case Some(k) =>
      ObjectMembersNoCounters(KeyOfLabel(s));
      assert Stock(hospitals[k].inventory, KeyOfLabel(s)) == Some(0);
      if RequestedUnits(b.units) < 0 {
        assert !RequestSchema.Accepts(DirectDraft(b));
      }
  }

  /**
   * A blood group naming an object member ("constructor", "toString", ...)
   * reads a function as the stock, so no unit count is refused for stock;
   * the create then refuses the group, and the answer is 500 with nothing
   * stored, whatever the units.
   */
  lemma DirectObjectMemberFails(requests: seq<BloodRequest>, hospitals: seq<Hospital>, b: DirectBody, id: Id,
                                actor: Id, now: int)
    requires b.hospitalId.Some? && HospitalIndex(hospitals, b.hospitalId.value).Some?
    requires b.bloodGroup.Some? && KeyOfLabel(b.bloodGroup.value) in ObjectMembers
    requires forall j :: 0 <= j < |hospitals| ==> Shaped(hospitals[j].inventory)
    ensures Stock(hospitals[HospitalIndex(hospitals, b.hospitalId.value).value].inventory,
                  KeyOfLabel(b.bloodGroup.value)).None?
    ensures DirectRequest(requests, hospitals, b, id, actor, now) == Reply(500, requests)
  {
    ObjectMembersNoCounters(KeyOfLabel(b.bloodGroup.value));
    UpperLabelNoMember(b.bloodGroup.value);
  }

  /** Missing, non-numeric and zero unit counts all ask for one unit; "3 bags" asks for 3. */
  lemma RequestedUnitsCases()
    ensures RequestedUnits(None) == 1 && RequestedUnits(Some("")) == 1
    ensures RequestedUnits(Some("0")) == 1 && RequestedUnits(Some("x2")) == 1
    ensures RequestedUnits(Some("3 bags")) == 3
  {
    NoUnitText();
    ZeroUnitText();
    ThreeBagsUnits();
  }

  lemma NoUnitText()
    ensures RequestedUnits(Some("")) == 1 && RequestedUnits(Some("x2")) == 1
  {
    ParseIntNaN("");
    ParseIntNaN("x2");
  }

  lemma ZeroUnitText()
    ensures RequestedUnits(Some("0")) == 1
  {
    ParseIntOfDigits("0");
  }

  lemma ThreeBagsUnits()
    ensures RequestedUnits(Some("3 bags")) == 3
  {
    ThreeBags();
  }

  lemma ThreeBags()
    ensures ParseInt("3 bags") == Some(3)
  {
    var s := "3 bags";
    assert !IsSpace(s[0]);
    assert TrimStart(s) == s;
    assert DigitPrefix(s[1..]) == [] by { assert !IsDigit(s[1]); }
    assert DigitPrefix(s) == "3";
    assert DecimalValue("3") == 3 by { assert "3"[..0] == ""; }
  }

  /**
   * A negative count (such as "-2", below) passes the stock check but not the
   * schema's minimum: 500, nothing stored.
   */
  lemma DirectNegativeUnits(requests: seq<BloodRequest>, hospitals: seq<Hospital>, b: DirectBody, id: Id,
                            actor: Id, now: int)
    requires RequestedUnits(b.units) < 0
    ensures DirectRequest(requests, hospitals, b, id, actor, now).code != 201
  {
    RequestSchema.CreateRejectsFewUnits(DirectDraft(b), id, actor, b.hospitalId, now);
  }

  /** The text "-2" asks for minus two units. */
  lemma MinusTwo()
    ensures RequestedUnits(Some("-2")) == -2
  {
    MinusTwoParsed();
  }

  lemma MinusTwoParsed()
    ensures ParseInt("-2") == Some(-2)
  {
    ParseIntOfNumber(-2);
    assert Digits(2) == "2";
    assert NumberText(-2) == "-2";
  }
}
