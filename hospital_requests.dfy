// The hospital's request screen: two tabs over the requests addressed to
// the hospital, and a confirmation dialog that first sets a request's
// status and then, for a fulfilment with the box ticked, removes the
// requested units from the hospital's stock.
module HospitalRequestsPage {
  import opened Common
  import opened BloodGroups
  import opened RequestSchema
  import opened DonorSchema
  import opened HospitalSchema
  import opened Store
  import RequestController
  import HospitalController

  datatype Tab = PendingTab | HistoryTab

  /** The tab filter, read on the status a loaded document reports. */
  predicate OnTab(r: BloodRequest, tab: Tab)
  {
    match tab
    case PendingTab => LoadedStatus(r) == Pending
    case HistoryTab => LoadedStatus(r) == Fulfilled || LoadedStatus(r) == Rejected || LoadedStatus(r) == Cancelled
  }

  /** The cards of a tab, in the order the server sent them. */
  function Visible(requests: seq<BloodRequest>, tab: Tab): (r: seq<BloodRequest>)
    ensures forall x :: x in r <==> x in requests && OnTab(x, tab)
  {
    var p := (x: BloodRequest) => OnTab(x, tab);
    forall x | true ensures x in Filter(requests, p) <==> x in requests && p(x) {
      FilterMember(requests, p, x);
    }
    Filter(requests, p)
  }

  /** No request shows on both tabs, and a Scheduled one shows on neither. */
  lemma TabsSplit(r: BloodRequest)
    ensures !(OnTab(r, PendingTab) && OnTab(r, HistoryTab))
    ensures OnTab(r, PendingTab) || OnTab(r, HistoryTab) <==> LoadedStatus(r) != Scheduled
  {
  }

  /** The buttons on each card: Reject and Fulfil on the pending tab, none (a status badge) on the history tab. */
  function Buttons(tab: Tab): (r: seq<Status>)
    ensures tab == HistoryTab ==> r == []
    ensures forall s :: s in r <==> tab == PendingTab && (s == Rejected || s == Fulfilled)
  {
    if tab == PendingTab then [Rejected, Fulfilled] else []
  }

  /** What the dialog acts on: `selectedAction`. */
  datatype Action = Action(id: Option<Id>, status: string, bloodGroup: string, units: int)

  /** The two remote writes of the dialog and the collections they leave. */
  datatype Confirmation = Confirmation(statusCode: int, stockCode: Option<int>, requests: seq<BloodRequest>,
                                       donors: seq<Donor>, hospitals: seq<Hospital>)

  /**
   * `handleConfirmAction`: the status update is sent first; only when it
   * succeeds, the status is "Fulfilled" and the box is ticked, the units are
   * sent to the inventory as a removal at the key spelt from the label.
   */
  function Confirm(requests: seq<BloodRequest>, donors: seq<Donor>, hospitals: seq<Hospital>, actor: Id,
                   a: Action, deduct: bool, now: int): (c: Confirmation)
    requires a.id.Some?
  {
    var s := RequestController.StatusUpdate(requests, donors, actor, a.id.value, Some(a.status), now);
    if !Succeeded(s.code) || !(a.status == "Fulfilled" && deduct) then
      Confirmation(s.code, None, s.requests, s.donors, hospitals)
    else
      var inv := HospitalController.InventoryUpdate(hospitals, actor, KeyOfLabel(a.bloodGroup),
                                                    Some(NumberText(a.units)), Some("remove"));
      Confirmation(s.code, Some(inv.code), s.requests, s.donors, inv.hospitals)
  }

  /** Nothing threw, so the list is fetched again. */
  predicate Completed(statusCode: int, stockCode: Option<int>)
  {
    Succeeded(statusCode) && (stockCode.None? || Succeeded(stockCode.value))
  }

  /**
   * The stock is touched only after a successful status update of a
   * fulfilment with the box ticked; otherwise the hospitals are as before.
   * The status write stays whatever the removal answers.
   */
  lemma DeductOnlyAfterStatus(requests: seq<BloodRequest>, donors: seq<Donor>, hospitals: seq<Hospital>,
                              actor: Id, a: Action, deduct: bool, now: int)
    requires a.id.Some?
    ensures var c := Confirm(requests, donors, hospitals, actor, a, deduct, now);
      c.stockCode.Some? <==> Succeeded(c.statusCode) && a.status == "Fulfilled" && deduct
    ensures var c := Confirm(requests, donors, hospitals, actor, a, deduct, now);
      c.stockCode.None? ==> c.hospitals == hospitals
    ensures var c := Confirm(requests, donors, hospitals, actor, a, deduct, now);
      var s := RequestController.StatusUpdate(requests, donors, actor, a.id.value, Some(a.status), now);
      c.statusCode == s.code && c.requests == s.requests && c.donors == s.donors
  {
  }

  /** A rejection never changes the stock, ticked box or not. */
  lemma RejectKeepsStock(requests: seq<BloodRequest>, donors: seq<Donor>, hospitals: seq<Hospital>,
                         actor: Id, a: Action, deduct: bool, now: int)
    requires a.id.Some? && a.status == "Rejected"
    ensures Confirm(requests, donors, hospitals, actor, a, deduct, now).hospitals == hospitals
    ensures Confirm(requests, donors, hospitals, actor, a, deduct, now).stockCode.None?
  {
  }

  /**
   * A deduction removes the request's units from the counter of its blood
   * group, stopping at zero, and changes no other counter or hospital.
   */
  lemma DeductRemovesUnits(requests: seq<BloodRequest>, donors: seq<Donor>, hospitals: seq<Hospital>,
                           actor: Id, a: Action, now: int, i: nat, g: BloodGroup)
    requires a.id.Some? && a.bloodGroup == Label(g)
    requires i < |hospitals| && hospitals[i].id == actor && UniqueBy(hospitals, HospitalId)
    requires Shaped(hospitals[i].inventory)
    ensures var c := Confirm(requests, donors, hospitals, actor, a, true, now);
      var before := hospitals[i].inventory[Key(g)];
      c.stockCode == Some(200) ==>
        (|c.hospitals| == |hospitals| && Key(g) in c.hospitals[i].inventory
         && c.hospitals[i].inventory[Key(g)] == (if before - a.units < 0 then 0 else before - a.units)
         && (forall k :: k in hospitals[i].inventory && k != Key(g) ==>
               k in c.hospitals[i].inventory && c.hospitals[i].inventory[k] == hospitals[i].inventory[k])
         && (forall j :: 0 <= j < |hospitals| && j != i ==> c.hospitals[j] == hospitals[j]))
  {
    var c := Confirm(requests, donors, hospitals, actor, a, true, now);
    if c.stockCode == Some(200) {
      KeyOfLabelIsKey(g);
      var o := HospitalController.InventoryUpdate(hospitals, actor, Key(g), Some(NumberText(a.units)), Some("remove"));
      assert c.hospitals == o.hospitals && o.code == 200;
      RemovalLowersCounter(hospitals, actor, g, a.units, i);
    }
  }

  /** The removal the dialog sends, on its own: the group's counter drops by `units`, stopping at zero. */
  lemma RemovalLowersCounter(hospitals: seq<Hospital>, actor: Id, g: BloodGroup, units: int, i: nat)
    requires i < |hospitals| && hospitals[i].id == actor && UniqueBy(hospitals, HospitalId)
    requires Shaped(hospitals[i].inventory)
    ensures var o := HospitalController.InventoryUpdate(hospitals, actor, Key(g), Some(NumberText(units)), Some("remove"));
      var before := hospitals[i].inventory[Key(g)];
      o.code == 200 ==>
        (|o.hospitals| == |hospitals| && Key(g) in o.hospitals[i].inventory
         && o.hospitals[i].inventory[Key(g)] == (if before - units < 0 then 0 else before - units)
         && (forall k :: k in hospitals[i].inventory && k != Key(g) ==>
               k in o.hospitals[i].inventory && o.hospitals[i].inventory[k] == hospitals[i].inventory[k])
         && (forall j :: 0 <= j < |hospitals| && j != i ==> o.hospitals[j] == hospitals[j]))
  {
    var q := Some(NumberText(units));
    var key := Key(g);
    KeysDistinct(g, g);
    ObjectMembersNoCounters(key);
    HospitalController.InventoryUpdateWritesOneCounter(hospitals, actor, key, q, Some("remove"), i);
    ParseIntOfNumber(units);
    var before := hospitals[i].inventory[key];
    assert HospitalController.Adjust(before, q, Some("remove"))
        == Some(if before - units < 0 then 0 else before - units);
  }

  /** The page's state. */
  class Page {
    var requests: seq<BloodRequest>
    var activeTab: Tab
    var modalOpen: bool
    var selected: Action
    var deductInventory: bool

    /** The dialog is open only on an action that names a request. */
    ghost predicate Valid()
      reads this
    {
      modalOpen ==> selected.id.Some?
    }

    constructor ()
      ensures Valid()
      ensures requests == [] && activeTab == PendingTab && !modalOpen
      ensures selected == Action(None, "", "", 1) && deductInventory
    {
      requests := [];
      activeTab := PendingTab;
      modalOpen := false;
      selected := Action(None, "", "", 1);
      deductInventory := true;
    }

    /** The list fetched on mount: the server's `getHospitalRequests`. */
    method Load(db: Database, actor: Id)
      modifies this
      ensures requests == HospitalController.HospitalRequests(db.requests, actor)
      ensures activeTab == old(activeTab) && modalOpen == old(modalOpen)
      ensures selected == old(selected) && deductInventory == old(deductInventory)
    {
      requests := HospitalController.HospitalRequests(db.requests, actor);
    }

    method SetTab(tab: Tab)
      modifies this
      ensures activeTab == tab
      ensures requests == old(requests) && modalOpen == old(modalOpen)
      ensures selected == old(selected) && deductInventory == old(deductInventory)
    {
      activeTab := tab;
    }

    /** The dialog's check box. */
    method SetDeduct(checked: bool)
      modifies this
      ensures deductInventory == checked
      ensures requests == old(requests) && activeTab == old(activeTab)
      ensures modalOpen == old(modalOpen) && selected == old(selected)
    {
      deductInventory := checked;
    }

    /**
     * `initiateAction`, reached from a button of a card on the current tab:
     * records the action, ticks the box again and opens the dialog.
     */
    method InitiateAction(req: BloodRequest, status: Status)
      requires req in Visible(requests, activeTab) && status in Buttons(activeTab)
      modifies this
      ensures Valid() && modalOpen && deductInventory
      ensures selected == Action(Some(req.id), StatusName(status), Label(req.bloodGroup), req.units)
      ensures requests == old(requests) && activeTab == old(activeTab)
    {
      selected := Action(Some(req.id), StatusName(status), Label(req.bloodGroup), req.units);
      deductInventory := true;
      modalOpen := true;
    }

    /**
     * `handleConfirmAction`: closes the dialog, sends the status, maybe the
     * deduction, and refetches the list when neither call failed.
     */
    method ConfirmAction(db: Database, actor: Id, now: int) returns (statusCode: int, stockCode: Option<int>)
      requires Valid() && modalOpen && db.Valid()
      modifies this, db
      ensures Valid() && !modalOpen && db.Valid()
      ensures var c := Confirm(old(db.requests), old(db.donors), old(db.hospitals), actor, old(selected),
                               old(deductInventory), now);
        statusCode == c.statusCode && stockCode == c.stockCode
        && db.requests == c.requests && db.donors == c.donors && db.hospitals == c.hospitals
      ensures db.users == old(db.users) && db.admins == old(db.admins) && db.nextId == old(db.nextId)
      ensures requests == (if Completed(statusCode, stockCode)
                           then HospitalController.HospitalRequests(db.requests, actor) else old(requests))
      ensures selected == old(selected) && deductInventory == old(deductInventory) && activeTab == old(activeTab)
    {
      statusCode, stockCode := Submit(db, actor, selected, deductInventory, now);
      Close(if Completed(statusCode, stockCode)
            then HospitalController.HospitalRequests(db.requests, actor) else requests);
    }

    /** The dialog closed over the list `shown`. */
    method Close(shown: seq<BloodRequest>)
      modifies this
      ensures Valid() && !modalOpen && requests == shown
      ensures selected == old(selected) && deductInventory == old(deductInventory) && activeTab == old(activeTab)
    {
      modalOpen := false;
      requests := shown;
    }
  }

  /** The two server calls behind the dialog's confirm button: the status, then the stock removal. */
  method Submit(db: Database, actor: Id, a: Action, deduct: bool, now: int)
    returns (statusCode: int, stockCode: Option<int>)
    requires a.id.Some? && db.Valid()
    modifies db
    ensures db.Valid()
    ensures var c := Confirm(old(db.requests), old(db.donors), old(db.hospitals), actor, a, deduct, now);
      statusCode == c.statusCode && stockCode == c.stockCode
      && db.requests == c.requests && db.donors == c.donors && db.hospitals == c.hospitals
    ensures db.users == old(db.users) && db.admins == old(db.admins) && db.nextId == old(db.nextId)
  {
    statusCode := RequestController.UpdateRequestStatus(db, actor, a.id.value, Some(a.status), now);
    stockCode := None;
    if !Succeeded(statusCode) {
      return;
    }
    if a.status == "Fulfilled" && deduct {
      var key := KeyOfLabel(a.bloodGroup);
      var code := HospitalController.UpdateInventory(db, actor, key, Some(NumberText(a.units)), Some("remove"));
      stockCode := Some(code);
    }
  }
}
