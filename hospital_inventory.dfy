// The hospital's stock screen: one card per blood group with its count, a
// low-stock badge and a plus and a minus button that each move the counter
// by one unit through the server.
module HospitalInventoryPage {
  import opened Common
  import opened BloodGroups
  import opened HospitalSchema
  import opened Store
  import HospitalController

  /** One entry of `bloodTypes`. */
  datatype BloodType = BloodType(key: string, name: string)

  const BloodTypes: seq<BloodType> := [
    BloodType("A_pos", "A+"), BloodType("A_neg", "A-"), BloodType("B_pos", "B+"), BloodType("B_neg", "B-"),
    BloodType("AB_pos", "AB+"), BloodType("AB_neg", "AB-"), BloodType("O_pos", "O+"), BloodType("O_neg", "O-")]

  /** The table lists the eight groups, in schema order, under their own key and label. */
  lemma BloodTypesAreGroups(k: nat)
    requires k < |BloodTypes|
    ensures |BloodTypes| == 8
    ensures BloodTypes[k] == BloodType(Key(AllGroups[k]), Label(AllGroups[k]))
    ensures BloodTypes[k].key == InventoryKeys[k]
  {
  }

  /** `inventory[type.key] || 0` */
  function Shown(inventory: map<string, int>, key: string): int
  {
    if key in inventory then inventory[key] else 0
  }

  /** What one card shows and which of its buttons respond. */
  datatype Card = Card(key: string, name: string, count: int, lowStock: bool, spinner: bool,
                       removeEnabled: bool, addEnabled: bool)

  function CardFor(t: BloodType, inventory: map<string, int>, updating: Option<string>): Card
  {
    var count := Shown(inventory, t.key);
    Card(t.key, t.name, count, count < 5, updating == Some(t.key),
         !(updating == Some(t.key) || count == 0), updating != Some(t.key))
  }

  function Cards(inventory: map<string, int>, updating: Option<string>): (cs: seq<Card>)
    ensures |cs| == |BloodTypes|
    ensures forall k :: 0 <= k < |cs| ==> cs[k] == CardFor(BloodTypes[k], inventory, updating)
  {
    seq(|BloodTypes|, k requires 0 <= k < |BloodTypes| => CardFor(BloodTypes[k], inventory, updating))
  }

  /**
   * The badge and the buttons: LOW STOCK exactly below five units; minus
   * off at zero and during the card's own update; plus off only during it.
   * A counter absent from the inventory shows as zero.
   */
  lemma CardRules(inventory: map<string, int>, updating: Option<string>, k: nat)
    requires k < 8
    ensures var c := Cards(inventory, updating)[k];
      var count := if InventoryKeys[k] in inventory then inventory[InventoryKeys[k]] else 0;
      c.key == InventoryKeys[k] && c.count == count
      && (c.lowStock <==> count < 5)
      && (c.removeEnabled <==> count != 0 && updating != Some(InventoryKeys[k]))
      && (c.addEnabled <==> updating != Some(InventoryKeys[k]))
  {
    BloodTypesAreGroups(k);
  }

  /**
   * The minus button is only disabled at exactly zero: a counter driven
   * negative by an unclamped "set" on the server keeps it enabled.
   */
  lemma NegativeCountStaysRemovable(inventory: map<string, int>, k: nat)
    requires k < 8 && InventoryKeys[k] in inventory && inventory[InventoryKeys[k]] < 0
    ensures Cards(inventory, None)[k].removeEnabled && Cards(inventory, None)[k].lowStock
  {
    BloodTypesAreGroups(k);
  }

  /** A click moves the caller's counter by one unit; a removal never goes below zero. */
  lemma ClickMovesByOne(hospitals: seq<Hospital>, actor: Id, i: nat, g: BloodGroup, action: string)
    requires i < |hospitals| && hospitals[i].id == actor && UniqueBy(hospitals, HospitalId)
    requires Shaped(hospitals[i].inventory)
    requires action == "add" || action == "remove"
    ensures var o := HospitalController.InventoryUpdate(hospitals, actor, Key(g), Some(NumberText(1)), Some(action));
      var before := Shown(hospitals[i].inventory, Key(g));
      o.code == 200 ==>
        Shown(o.hospitals[i].inventory, Key(g))
        == if action == "add" then before + 1 else if before - 1 < 0 then 0 else before - 1
  {
    HospitalAt(hospitals, i);
    ShapedHasKey(hospitals[i].inventory, g);
    var before := hospitals[i].inventory[Key(g)];
    AdjustByOne(before, action);
    ClickCounter(hospitals, actor, i, Key(g), Some(NumberText(1)), Some(action),
                 if action == "add" then before + 1 else if before - 1 < 0 then 0 else before - 1);
  }

  /** A successful update whose counter computation gives `v` shows `v` on the caller's card. */
  lemma ClickCounter(hospitals: seq<Hospital>, actor: Id, i: nat, key: string, quantity: Option<string>,
                     action: Option<string>, v: int)
    requires HospitalIndex(hospitals, actor) == Some(i) && key in hospitals[i].inventory
    requires HospitalController.Adjust(hospitals[i].inventory[key], quantity, action) == Some(v)
    ensures var o := HospitalController.InventoryUpdate(hospitals, actor, key, quantity, action);
      o.code == 200 ==> Shown(o.hospitals[i].inventory, key) == v
  {
    HospitalController.InventoryUpdateAt(hospitals, actor, key, quantity, action, i);
  }

  /** One unit sent as the quantity moves a counter by one, clamped at zero on removal. */
  lemma AdjustByOne(before: int, action: string)
    requires action == "add" || action == "remove"
    ensures HospitalController.Adjust(before, Some(NumberText(1)), Some(action))
         == Some(if action == "add" then before + 1 else if before - 1 < 0 then 0 else before - 1)
  {
    ParseIntOfNumber(1);
  }

  /** A written counter leaves the caller's profile where it was found. */
  lemma SuccessKeepsCaller(hospitals: seq<Hospital>, actor: Id, key: string, quantity: Option<string>,
                           action: Option<string>)
    ensures var o := HospitalController.InventoryUpdate(hospitals, actor, key, quantity, action);
      Succeeded(o.code) ==> o.code == 200 && HospitalIndex(o.hospitals, actor).Some?
  {
    var found := HospitalIndex(hospitals, actor);
    var o := HospitalController.InventoryUpdate(hospitals, actor, key, quantity, action);
    if found.Some? && o.code == 200 {
      assert o.hospitals[found.value].id == actor;
    }
  }

  /** `PUT /Hospitals/inventory` with one unit of `key` and the action. */
  method SendUpdate(db: Database, actor: Id, key: string, action: string) returns (code: int)
    requires db.Valid()
    modifies db
    ensures db.Valid()
    ensures HospitalController.Reply(code, db.hospitals)
      == HospitalController.InventoryUpdate(old(db.hospitals), actor, key, Some(NumberText(1)), Some(action))
    ensures db.requests == old(db.requests) && db.users == old(db.users) && db.donors == old(db.donors)
    ensures db.admins == old(db.admins) && db.nextId == old(db.nextId)
    ensures Succeeded(code) ==> HospitalIndex(db.hospitals, actor).Some?
  {
    SuccessKeepsCaller(db.hospitals, actor, key, Some(NumberText(1)), Some(action));
    code := HospitalController.UpdateInventory(db, actor, key, Some(NumberText(1)), Some(action));
  }

  /** The page's state. */
  class Page {
    var loading: bool
    var inventory: map<string, int>
    var updating: Option<string>

    constructor ()
      ensures loading && inventory == map[] && updating.None?
    {
      loading := true;
      inventory := map[];
      updating := None;
    }

    /**
     * `fetchInventory`: the counters of the caller's stored profile; a failed
     * load keeps what was shown.
     */
    method FetchInventory(db: Database, actor: Id)
      modifies this
      ensures !loading && updating == old(updating)
      ensures var i := HospitalIndex(db.hospitals, actor);
        inventory == if i.Some? then db.hospitals[i.value].inventory else old(inventory)
    {
      loading := true;
      var found := HospitalIndex(db.hospitals, actor);
      if found.Some? {
        inventory := db.hospitals[found.value].inventory;
      }
      loading := false;
    }

    /**
     * `handleUpdate(key, action)`: one unit as quantity, then the inventory
     * the server answers with replaces the local one; on an error the local
     * counts stay. The spinner is cleared either way.
     */
    method HandleUpdate(db: Database, actor: Id, key: string, action: string) returns (code: int)
      requires db.Valid()
      modifies this, db
      ensures db.Valid() && updating.None? && loading == old(loading)
      ensures HospitalController.Reply(code, db.hospitals)
        == HospitalController.InventoryUpdate(old(db.hospitals), actor, key, Some(NumberText(1)), Some(action))
      ensures db.requests == old(db.requests) && db.users == old(db.users) && db.donors == old(db.donors)
      ensures db.admins == old(db.admins) && db.nextId == old(db.nextId)
      ensures Succeeded(code) ==> HospitalIndex(db.hospitals, actor).Some?
      ensures inventory == if Succeeded(code) then db.hospitals[HospitalIndex(db.hospitals, actor).value].inventory
                           else old(inventory)
    {
      updating := Some(key);
      code := SendUpdate(db, actor, key, action);
      var shown := inventory;
      if Succeeded(code) {
        var found := HospitalIndex(db.hospitals, actor);
        shown := db.hospitals[found.value].inventory;
      }
      Show(shown);
    }

    /** `setInventory(...)` and `setUpdating(null)` once the answer is in. */
    method Show(shown: map<string, int>)
      modifies this
      ensures inventory == shown && updating.None? && loading == old(loading)
    {
      inventory, updating := shown, None;
    }
  }

  /**
   * After a successful click the screen shows exactly the server's
   * counters: the chosen one moved by one unit, the other seven as stored.
   */
  lemma ShownAfterClick(hospitals: seq<Hospital>, actor: Id, i: nat, g: BloodGroup, action: string)
    requires i < |hospitals| && hospitals[i].id == actor && UniqueBy(hospitals, HospitalId)
    requires Shaped(hospitals[i].inventory)
    requires action == "add" || action == "remove"
    ensures var o := HospitalController.InventoryUpdate(hospitals, actor, Key(g), Some(NumberText(1)), Some(action));
      o.code == 200 ==>
        HospitalIndex(o.hospitals, actor) == Some(i)
        && (forall h :: h != Key(g) ==> Shown(o.hospitals[i].inventory, h) == Shown(hospitals[i].inventory, h))
  {
    ShownAfterUpdate(hospitals, actor, i, Key(g), Some(NumberText(1)), Some(action));
  }

  /** Any written counter leaves the caller at its index and the other counters as stored. */
  lemma ShownAfterUpdate(hospitals: seq<Hospital>, actor: Id, i: nat, key: string, quantity: Option<string>,
                         action: Option<string>)
    requires i < |hospitals| && hospitals[i].id == actor && UniqueBy(hospitals, HospitalId)
    ensures var o := HospitalController.InventoryUpdate(hospitals, actor, key, quantity, action);
      o.code == 200 ==>
        HospitalIndex(o.hospitals, actor) == Some(i)
        && (forall h :: h != key ==> Shown(o.hospitals[i].inventory, h) == Shown(hospitals[i].inventory, h))
  {
    HospitalAt(hospitals, i);
    HospitalController.InventoryUpdateAt(hospitals, actor, key, quantity, action, i);
    var o := HospitalController.InventoryUpdate(hospitals, actor, key, quantity, action);
    if o.code == 200 {
      UniqueAfterSameKey(hospitals, i, o.hospitals[i], HospitalId);
      HospitalAt(o.hospitals, i);
    }
  }
}
