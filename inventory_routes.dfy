/** routes/inventory.js: the older stock pages. No query is scoped to a shop, and every
    outcome is a flash message followed by a redirect to the inventory page. */
module InventoryRoutes {
  import opened Basics
  import opened Collections
  import opened InventoryModel
  import opened Store
  import opened Sorting
  import opened AdminInventoryApi

  /** `${n}` for an integer. */
  function IntText(n: int): (s: string)
    ensures |s| >= 1
    ensures s[0] == '-' <==> n < 0
    ensures n >= 0 ==> s == Decimal(n)
  {
    if n < 0 then "-" + Decimal(-n) else Decimal(n)
  }

  /** GET /: every item of every shop, by name. */
  function AllItems(items: seq<Doc<Item>>): (r: seq<Doc<Item>>)
    ensures SortedBy(r, ItemName)
    ensures multiset(r) == multiset(items)
  {
    SortBy(items, ItemName)
  }

  /** POST /:id/increment: `$inc` by the amount (1 when missing or empty) on the item with
      that id, whatever its shop; NaN from a rejected amount fails the cast. */
  method Increment(db: Db, id: Id, amount: Parsed<int>) returns (r: Result<string>)
    requires db.Valid()
    modifies db`items
    ensures db.Valid()
    ensures amount.Invalid? ==> r == Err(302, "Failed to update inventory") && db.items == old(db.items)
    ensures !amount.Invalid? && First(old(db.items), HasId, id).None? ==>
              r == Err(302, "Item not found") && db.items == old(db.items)
    ensures r.Ok? <==> !amount.Invalid? && First(old(db.items), HasId, id).Some?
    ensures !amount.Invalid? && First(old(db.items), HasId, id).Some? ==>
              var k := First(old(db.items), HasId, id).value;
              var i := old(db.items)[k].val;
              var step := ParsedOr(amount, 1).value;
              && db.items == old(db.items)[k := Doc(id, Restocked(i, step))]
              && r.value == i.itemName + " quantity increased by " + IntText(step)
  {
    var step := ParsedOr(amount, 1);
    if step.None? {
      return Err(302, "Failed to update inventory");
    }
    var k := First(db.items, HasId, id);
    if k.None? {
      return Err(302, "Item not found");
    }
    var i := db.items[k.value].val;
    IncrementAt(db, k.value, step.value);
    r := Ok(i.itemName + " quantity increased by " + IntText(step.value));
  }

  /** POST /:id/decrement: the item with that id (not found is reported), its quantity
      lowered by the amount (1 when missing or empty) but not below zero, then saved; a
      save the schema refuses, NaN included, is reported as a failed update. */
  method Decrement(db: Db, id: Id, amount: Parsed<int>) returns (r: Result<string>)
    requires db.Valid()
    modifies db`items
    ensures db.Valid()
    ensures First(old(db.items), HasId, id).None? ==> r == Err(302, "Item not found") && db.items == old(db.items)
    ensures First(old(db.items), HasId, id).Some? && amount.Invalid? ==>
              r == Err(302, "Failed to update inventory") && db.items == old(db.items)
    ensures First(old(db.items), HasId, id).Some? && !amount.Invalid? ==>
              var k := First(old(db.items), HasId, id).value;
              var i := old(db.items)[k].val;
              var step := ParsedOr(amount, 1).value;
              var v := i.(quantity := Clamped(i.quantity, step));
              && (ValidItem(v) ==> db.items == old(db.items)[k := Doc(id, v)]
                                   && r == Ok(i.itemName + " quantity decreased by " + IntText(step)))
              && (!ValidItem(v) ==> r == Err(302, "Failed to update inventory") && db.items == old(db.items))
    ensures forall j :: 0 <= j < |db.items| && db.items[j] !in old(db.items) ==> db.items[j].val.quantity >= 0
  {
    var k := First(db.items, HasId, id);
    if k.None? {
      return Err(302, "Item not found");
    }
    var step := ParsedOr(amount, 1);
    if step.None? {
      return Err(302, "Failed to update inventory");
    }
    var i := db.items[k.value].val;
    var saved := DecrementAt(db, k.value, step.value);
    if !saved {
      return Err(302, "Failed to update inventory");
    }
    r := Ok(i.itemName + " quantity decreased by " + IntText(step.value));
  }

  /** The save of the lowered stock at position `k`: refused by the schema, nothing changes;
      otherwise the document holds the new quantity. */
  method DecrementAt(db: Db, k: nat, step: int) returns (saved: bool)
    requires db.Valid() && k < |db.items|
    modifies db`items
    ensures db.Valid()
    ensures var i := old(db.items)[k].val;
            var v := i.(quantity := Clamped(i.quantity, step));
            && (saved <==> ValidItem(v))
            && (saved ==> db.items == old(db.items)[k := Doc(old(db.items)[k].id, v)])
            && (!saved ==> db.items == old(db.items))
    ensures forall j :: 0 <= j < |db.items| && db.items[j] !in old(db.items) ==> db.items[j].val.quantity >= 0
  {
    var i := db.items[k].val;
    var v := i.(quantity := Clamped(i.quantity, step));
    QuantityOnly(i, v.quantity);
    SameKeySaves(db.items, db.nextId, ItemKey, "itemName", ValidItem, k, v);
    var e := db.SaveItemAt(k, v);
    saved := e.None?;
    if saved {
      NewOnlyAt(old(db.items), db.items, k, Doc(db.items[k].id, v));
    }
  }

  /** After one position is overwritten, the only document not found in the old list is
      the one written there. */
  lemma NewOnlyAt(s: seq<Doc<Item>>, t: seq<Doc<Item>>, k: nat, d: Doc<Item>)
    requires k < |s| && t == s[k := d] && d.val.quantity >= 0
    ensures forall j :: 0 <= j < |t| && t[j] !in s ==> t[j].val.quantity >= 0
  {
    assert forall j :: 0 <= j < |t| && j != k ==> t[j] == s[j] && s[j] in s;
  }
}
