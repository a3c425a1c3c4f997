// The requester's history screen: the caller's requests with a search box
// and a status filter, a Cancel button on pending rows, a detail dialog
// that lets the requester confirm or reject a scheduled donation, and a
// confirmation step in front of every status change.
module UserHistoryPage {
  import opened Common
  import opened BloodGroups
  import opened RequestSchema
  import opened DonorSchema
  import opened Store
  import RequestController

  // ---------------------------------------------------------------------
  // The list
  // ---------------------------------------------------------------------

  /** A row as the server sends it: `fulfilledBy` populated, `null` when that donor is gone. */
  datatype Entry = Entry(request: BloodRequest, donor: Option<Donor>)

  function Populated(r: BloodRequest, donors: seq<Donor>): (e: Entry)
    ensures e.request == r
    ensures e.donor.Some? <==> r.fulfilledBy.Some? && DonorIndex(donors, r.fulfilledBy.value).Some?
  {
    if r.fulfilledBy.None? then Entry(r, None)
    else match DonorIndex(donors, r.fulfilledBy.value)
      case None => Entry(r, None)
      case Some(k) => Entry(r, Some(donors[k]))
  }

  /** `fetchRequests`: the caller's requests, newest first, with their donors. */
  function History(requests: seq<BloodRequest>, donors: seq<Donor>, actor: Id): (h: seq<Entry>)
    ensures |h| == |RequestController.UserRequests(requests, actor)|
    ensures forall k :: 0 <= k < |h| ==> h[k] == Populated(RequestController.UserRequests(requests, actor)[k], donors)
  {
    PopulateAll(RequestController.UserRequests(requests, actor), donors)
  }

  /** `.populate("fulfilledBy", …)` over a whole list. */
  function PopulateAll(rs: seq<BloodRequest>, donors: seq<Donor>): (h: seq<Entry>)
    ensures |h| == |rs|
    ensures forall k :: 0 <= k < |h| ==> h[k] == Populated(rs[k], donors)
  {
    if rs == [] then [] else [Populated(rs[0], donors)] + PopulateAll(rs[1..], donors)
  }

  /** The hospital name or the blood group contains the term, both lower-cased. */
  predicate MatchesSearch(e: Entry, term: string)
  {
    Contains(ToLower(e.request.hospitalName), ToLower(term))
    || Contains(ToLower(Label(e.request.bloodGroup)), ToLower(term))
  }

  /** 'all', or the status compared without regard to case. */
  predicate MatchesStatus(e: Entry, filter: string)
  {
    filter == "all" || ToLower(StatusName(LoadedStatus(e.request))) == ToLower(filter)
  }

  /** `filteredData` */
  function FilteredData(history: seq<Entry>, term: string, filter: string): seq<Entry>
  {
    Filter(history, (e: Entry) => MatchesSearch(e, term) && MatchesStatus(e, filter))
  }

  /** A row is kept exactly when the search and the status filter both pass it. */
  lemma FilteredExact(history: seq<Entry>, term: string, filter: string, e: Entry)
    ensures e in FilteredData(history, term, filter) <==>
      e in history
      && (Contains(ToLower(e.request.hospitalName), ToLower(term))
          || Contains(ToLower(Label(e.request.bloodGroup)), ToLower(term)))
      && (filter == "all" || ToLower(StatusName(LoadedStatus(e.request))) == ToLower(filter))
  {
    FilterMember(history, (x: Entry) => MatchesSearch(x, term) && MatchesStatus(x, filter), e);
  }

  /** The five status names differ already in their lower-cased first letter. */
  lemma StatusNamesDiffer(s: Status, t: Status)
    ensures ToLower(StatusName(s)) == ToLower(StatusName(t)) <==> s == t
  {
    if ToLower(StatusName(s)) == ToLower(StatusName(t)) {
      assert ToLower(StatusName(s))[0] == ToLower(StatusName(t))[0];
    }
  }

  /** Choosing a status in the select keeps exactly the rows with that status. */
  lemma StatusOptionExact(e: Entry, s: Status)
    ensures MatchesStatus(e, StatusName(s)) <==> LoadedStatus(e.request) == s
  {
    StatusNamesDiffer(LoadedStatus(e.request), s);
  }

  // ---------------------------------------------------------------------
  // The action buttons
  // ---------------------------------------------------------------------

  /** The row's button: Cancel, on a pending request only. */
  function RowActions(r: BloodRequest): (a: seq<Status>)
    ensures Cancelled in a <==> LoadedStatus(r) == Pending
    ensures forall s :: s in a ==> s == Cancelled
  {
    if LoadedStatus(r) == Pending then [Cancelled] else []
  }

  /** The detail dialog's two buttons, for a scheduled request whose donor is known. */
  function DetailActions(e: Entry): (a: seq<Status>)
    ensures forall s :: s in a <==> (s == Fulfilled || s == Rejected)
                                    && LoadedStatus(e.request) == Scheduled && e.donor.Some?
  {
    if LoadedStatus(e.request) == Scheduled && e.donor.Some? then [Fulfilled, Rejected] else []
  }

  /** No request is offered both a cancellation and a resolution. */
  lemma ActionsExclusive(e: Entry)
    ensures RowActions(e.request) == [] || DetailActions(e) == []
  {
  }

  /** Every action the page offers to the requester is accepted by the server and sets that status. */
  lemma OfferedActionAccepted(requests: seq<BloodRequest>, donors: seq<Donor>, actor: Id, i: nat, s: Status,
                              now: int)
    requires i < |requests| && UniqueBy(requests, RequestId) && requests[i].requester == actor
    requires s in RowActions(requests[i]) || s in DetailActions(Populated(requests[i], donors))
    ensures var o := RequestController.StatusUpdate(requests, donors, actor, requests[i].id, Some(StatusName(s)), now);
      o.code == 200 && LoadedStatus(o.requests[i]) == s
  {
    RequestController.StatusUpdateAnyToAny(requests, donors, actor, i, s, now);
  }

  /**
   * The guard lives only on the page: the server accepts the requester's
   * cancellation of a request that is already fulfilled, a button the page
   * never shows.
   */
  lemma GuardOnlyOnPage(requests: seq<BloodRequest>, donors: seq<Donor>, actor: Id, i: nat, now: int)
    requires i < |requests| && UniqueBy(requests, RequestId) && requests[i].requester == actor
    requires LoadedStatus(requests[i]) == Fulfilled
    ensures Cancelled !in RowActions(requests[i])
    ensures RequestController.StatusUpdate(requests, donors, actor, requests[i].id, Some("Cancelled"), now).code == 200
  {
    RequestController.StatusUpdateAnyToAny(requests, donors, actor, i, Cancelled, now);
  }

  /**
   * After the requester confirms an offered action, the list fetched again
   * shows that request, with the new status, as a row of the history.
   */
  lemma RefetchShowsNewStatus(requests: seq<BloodRequest>, donors: seq<Donor>, actor: Id, i: nat, s: Status,
                              now: int)
    requires i < |requests| && UniqueBy(requests, RequestId) && requests[i].requester == actor
    requires s in RowActions(requests[i]) || s in DetailActions(Populated(requests[i], donors))
    ensures var o := RequestController.StatusUpdate(requests, donors, actor, requests[i].id, Some(StatusName(s)), now);
      exists e :: e in History(o.requests, o.donors, actor)
                  && e.request.id == requests[i].id && LoadedStatus(e.request) == s
  {
    RequestController.StatusUpdateAnyToAny(requests, donors, actor, i, s, now);
    var o := RequestController.StatusUpdate(requests, donors, actor, requests[i].id, Some(StatusName(s)), now);
    var mine := RequestController.UserRequests(o.requests, actor);
    var r := o.requests[i];
    assert r in mine;
    var k :| 0 <= k < |mine| && mine[k] == r;
    var h := History(o.requests, o.donors, actor);
    assert h[k].request == r;
  }

  // ---------------------------------------------------------------------
  // The page
  // ---------------------------------------------------------------------

  /** `confirmAction`: the request and the status a confirmation would send. */
  datatype ConfirmAction = ConfirmAction(id: Option<Id>, status: Option<Status>)

  class Page {
    var loading: bool
    var history: seq<Entry>
    var searchTerm: string
    var filterStatus: string
    var selected: Option<Entry>
    var isDetailModalOpen: bool
    var isConfirmModalOpen: bool
    var confirmAction: ConfirmAction

    /** The confirmation dialog always has a request and a status to send. */
    ghost predicate Valid()
      reads this
    {
      isConfirmModalOpen ==> confirmAction.id.Some? && confirmAction.status.Some?
    }

    constructor ()
      ensures Valid() && loading && history == [] && searchTerm == "" && filterStatus == "all"
      ensures selected.None? && !isDetailModalOpen && !isConfirmModalOpen && confirmAction == ConfirmAction(None, None)
    {
      loading, history, searchTerm, filterStatus := true, [], "", "all";
      selected, isDetailModalOpen, isConfirmModalOpen, confirmAction := None, false, false, ConfirmAction(None, None);
    }

    /** The fetch on mount. */
    method Load(db: Database, actor: Id)
      modifies this
      ensures history == History(db.requests, db.donors, actor) && !loading
      ensures searchTerm == old(searchTerm) && filterStatus == old(filterStatus) && selected == old(selected)
      ensures isDetailModalOpen == old(isDetailModalOpen) && isConfirmModalOpen == old(isConfirmModalOpen)
      ensures confirmAction == old(confirmAction)
    {
      Show(History(db.requests, db.donors, actor));
    }

    /** `handleViewDetails` */
    method ViewDetails(e: Entry)
      modifies this
      ensures selected == Some(e) && isDetailModalOpen
      ensures loading == old(loading) && history == old(history) && searchTerm == old(searchTerm)
      ensures filterStatus == old(filterStatus) && isConfirmModalOpen == old(isConfirmModalOpen)
      ensures confirmAction == old(confirmAction)
    {
      selected := Some(e);
      isDetailModalOpen := true;
    }

    /**
     * `initiateStatusUpdate`: only records what to send and opens the
     * confirmation; nothing reaches the server yet.
     */
    method InitiateStatusUpdate(id: Id, status: Status)
      modifies this
      ensures Valid() && isConfirmModalOpen && confirmAction == ConfirmAction(Some(id), Some(status))
      ensures loading == old(loading) && history == old(history) && searchTerm == old(searchTerm)
      ensures filterStatus == old(filterStatus) && selected == old(selected)
      ensures isDetailModalOpen == old(isDetailModalOpen)
    {
      confirmAction := ConfirmAction(Some(id), Some(status));
      isConfirmModalOpen := true;
    }

    /** The confirmation's Cancel: closes it and sends nothing. */
    method DismissConfirm()
      modifies this
      ensures Valid() && !isConfirmModalOpen && confirmAction == old(confirmAction)
      ensures loading == old(loading) && history == old(history) && searchTerm == old(searchTerm)
      ensures filterStatus == old(filterStatus) && selected == old(selected)
      ensures isDetailModalOpen == old(isDetailModalOpen)
    {
      isConfirmModalOpen := false;
    }

    /**
     * `executeStatusUpdate`: closes the confirmation and sends the recorded
     * status; on success the detail dialog closes and the list is fetched
     * again, on an error the page stays as it was.
     */
    method ExecuteStatusUpdate(db: Database, actor: Id, now: int) returns (code: int)
      requires Valid() && isConfirmModalOpen && db.Valid()
      modifies this, db
      ensures Valid() && db.Valid() && !isConfirmModalOpen
      ensures RequestController.StatusOutcome(code, db.requests, db.donors)
        == RequestController.StatusUpdate(old(db.requests), old(db.donors), actor, old(confirmAction).id.value,
                                          Some(StatusName(old(confirmAction).status.value)), now)
      ensures db.users == old(db.users) && db.hospitals == old(db.hospitals)
      ensures db.admins == old(db.admins) && db.nextId == old(db.nextId)
      ensures Succeeded(code) ==> !isDetailModalOpen && history == History(db.requests, db.donors, actor)
      ensures !Succeeded(code) ==> isDetailModalOpen == old(isDetailModalOpen) && history == old(history)
      ensures confirmAction == old(confirmAction) && selected == old(selected) && loading == old(loading)
      ensures searchTerm == old(searchTerm) && filterStatus == old(filterStatus)
    {
      var id, status := confirmAction.id.value, confirmAction.status.value;
      isConfirmModalOpen := false;
      code := Send(db, actor, id, status, now);
      Refresh(code, History(db.requests, db.donors, actor));
    }

    /** `setHistory(data)` and `setLoading(false)` once the list has arrived. */
    method Show(fetched: seq<Entry>)
      modifies this
      ensures history == fetched && !loading
      ensures searchTerm == old(searchTerm) && filterStatus == old(filterStatus) && selected == old(selected)
      ensures isDetailModalOpen == old(isDetailModalOpen) && isConfirmModalOpen == old(isConfirmModalOpen)
      ensures confirmAction == old(confirmAction)
    {
      history, loading := fetched, false;
    }

    /** What follows the server's answer: close the dialog and show the refetched list on success. */
    method Refresh(code: int, fetched: seq<Entry>)
      modifies this
      ensures Succeeded(code) ==> !isDetailModalOpen && history == fetched
      ensures !Succeeded(code) ==> isDetailModalOpen == old(isDetailModalOpen) && history == old(history)
      ensures confirmAction == old(confirmAction) && selected == old(selected) && loading == old(loading)
      ensures searchTerm == old(searchTerm) && filterStatus == old(filterStatus)
      ensures isConfirmModalOpen == old(isConfirmModalOpen)
    {
      if Succeeded(code) {
        isDetailModalOpen := false;
        history := fetched;
      }
    }
  }

  /** The PUT of `{ status }` for one request. */
  method Send(db: Database, actor: Id, id: Id, status: Status, now: int) returns (code: int)
    requires db.Valid()
    modifies db
    ensures db.Valid()
    ensures RequestController.StatusOutcome(code, db.requests, db.donors)
      == RequestController.StatusUpdate(old(db.requests), old(db.donors), actor, id, Some(StatusName(status)), now)
    ensures db.users == old(db.users) && db.hospitals == old(db.hospitals)
    ensures db.admins == old(db.admins) && db.nextId == old(db.nextId)
  {
    code := RequestController.UpdateRequestStatus(db, actor, id, Some(StatusName(status)), now);
  }
}
