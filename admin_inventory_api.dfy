/** routes/api/admin/inventory.js: the shop's stock list and its two counters. Every query is
    scoped to the caller's shop. */
module AdminInventoryApi {
  import opened Basics
  import opened Collections
  import opened InventoryModel
  import opened Store
  import opened Views
  import opened Sorting

  /** The JSON of one item (the timestamps are not modelled). */
  datatype FormattedItem = FormattedItem(id: Id, itemName: string, quantity: int, unit: string,
                                         lowStockThreshold: int, isLowStock: bool)

  /** `formatItem`: the stored fields and the low-stock flag computed from them. */
  function FormatItem(d: Doc<Item>, u: ()): (r: FormattedItem)
    ensures r.id == d.id && r.itemName == d.val.itemName && r.unit == d.val.unit
    ensures r.quantity == d.val.quantity && r.lowStockThreshold == d.val.lowStockThreshold
    ensures r.isLowStock <==> r.quantity <= r.lowStockThreshold
    ensures r.isLowStock == IsLowStock(d.val)
  {
    FormattedItem(d.id, d.val.itemName, d.val.quantity, d.val.unit, d.val.lowStockThreshold,
                  d.val.quantity <= d.val.lowStockThreshold)
  }

  function ItemName(d: Doc<Item>): string
  {
    d.val.itemName
  }

  // ---------------------------------------------------------------- list

  /** `find({ shop }).sort({ itemName: 1 })`: exactly the items of the shop, by name. */
  function ShopItems(items: seq<Doc<Item>>, shop: Id): (r: seq<Doc<Item>>)
    ensures SortedBy(r, ItemName)
    ensures forall d :: d in r <==> d in items && ItemOfShop(d, shop)
    ensures |r| == Count(items, ItemOfShop, shop)
  {
    var list := Select(items, ItemOfShop, shop);
    var r := SortBy(list, ItemName);
    assert forall d :: d in r <==> d in multiset(r);
    assert forall d :: d in list <==> d in multiset(list);
    assert |r| == |multiset(r)| == |multiset(list)| == |list|;
    r
  }

  /** GET /: the items of the caller's shop, formatted, in ascending order of name. */
  function ListItems(items: seq<Doc<Item>>, shop: Id): (r: seq<FormattedItem>)
    ensures |r| == Count(items, ItemOfShop, shop)
    ensures forall i, j :: 0 <= i < j < |r| ==> LexLeq(r[i].itemName, r[j].itemName)
  {
    MapAll(ShopItems(items, shop), FormatItem, ())
  }

  /** The list shows exactly the shop's items: each entry is a formatted item of the shop,
      and each item of the shop has its entry. */
  lemma ListedItems(items: seq<Doc<Item>>, shop: Id)
    ensures forall i :: 0 <= i < |ListItems(items, shop)| ==>
              exists d :: d in items && ItemOfShop(d, shop) && ListItems(items, shop)[i] == FormatItem(d, ())
    ensures forall d :: d in items && ItemOfShop(d, shop) ==> FormatItem(d, ()) in ListItems(items, shop)
  {
    var sorted := ShopItems(items, shop);
    var r := ListItems(items, shop);
    forall i | 0 <= i < |r|
      ensures exists d :: d in items && ItemOfShop(d, shop) && r[i] == FormatItem(d, ())
    {
      assert sorted[i] in sorted;
    }
    forall d | d in items && ItemOfShop(d, shop)
      ensures FormatItem(d, ()) in r
    {
      var i :| 0 <= i < |sorted| && sorted[i] == d;
      assert r[i] == FormatItem(d, ());
    }
  }

  // ---------------------------------------------------------------- the counters

  /** `Math.max(0, q - step)`: the quantity after taking `step` away, never below zero. */
  function Clamped(q: int, step: int): (r: int)
    ensures r >= 0
    ensures r >= q - step
    ensures q - step >= 0 ==> r == q - step
    ensures q - step < 0 ==> r == 0
  {
    if q - step > 0 then q - step else 0
  }

  /** Only the quantity changes: the unique index and the other fields are kept. */
  lemma QuantityOnly(i: Item, q: int)
    ensures ItemKey(i.(quantity := q)) == ItemKey(i)
    ensures i.(quantity := q).unit == i.unit && i.(quantity := q).lowStockThreshold == i.lowStockThreshold
    ensures ValidItem(i) && q >= 0 ==> ValidItem(i.(quantity := q))
  {
  }

  /** The `$inc` itself on the document at position `k`: its quantity moves by `step`. */
  method IncrementAt(db: Db, k: nat, step: int)
    requires db.Valid() && k < |db.items|
    modifies db`items
    ensures db.Valid()
    ensures db.items == old(db.items)[k := Doc(old(db.items)[k].id, Restocked(old(db.items)[k].val, step))]
  {
    var i := db.items[k].val;
    QuantityOnly(i, i.quantity + step);
    db.UpdateItemAt(k, Restocked(i, step));
  }

  function Restocked(i: Item, step: int): Item
  {
    i.(quantity := i.quantity + step)
  }

  /** POST /:id/increment: `$inc` by the amount (1 when it is missing or empty) on the item
      of the caller's shop, with no validation, so a negative amount can take the stock
      below zero; an amount `parseInt` rejects is NaN, which the cast refuses (500); an item
      outside the shop is 404. */
  method Increment(db: Db, shop: Id, id: Id, amount: Parsed<int>) returns (r: Result<FormattedItem>)
    requires db.Valid()
    modifies db`items
    ensures db.Valid()
    ensures amount.Invalid? ==> r == Err(500, "Server error") && db.items == old(db.items)
    ensures !amount.Invalid? && First(old(db.items), ItemAt, Scoped(id, shop)).None? ==>
              r == Err(404, "Item not found") && db.items == old(db.items)
    ensures r.Ok? <==> !amount.Invalid? && First(old(db.items), ItemAt, Scoped(id, shop)).Some?
    ensures r.Ok? ==> var k := First(old(db.items), ItemAt, Scoped(id, shop)).value;
                      var i := old(db.items)[k].val;
                      var step := ParsedOr(amount, 1).value;
                      && db.items == old(db.items)[k := Doc(id, Restocked(i, step))]
                      && r.value.quantity == i.quantity + step
                      && r.value == FormatItem(db.items[k], ())
  {
    var step := ParsedOr(amount, 1);
    if step.None? {
      return Err(500, "Server error");
    }
    var k := First(db.items, ItemAt, Scoped(id, shop));
    if k.None? {
      return Err(404, "Item not found");
    }
    IncrementAt(db, k.value, step.value);
    r := Ok(FormatItem(db.items[k.value], ()));
  }

  /** POST /:id/decrement: the item of the caller's shop (404), its quantity lowered by the
      amount (1 when missing or empty) but not below zero, then saved: NaN from a rejected
      amount, or any other field the schema refuses, fails the save (500) and the stock is
      left as it was. */
  method Decrement(db: Db, shop: Id, id: Id, amount: Parsed<int>) returns (r: Result<FormattedItem>)
    requires db.Valid()
    modifies db`items
    ensures db.Valid()
    ensures First(old(db.items), ItemAt, Scoped(id, shop)).None? ==>
              r == Err(404, "Item not found") && db.items == old(db.items)
    ensures First(old(db.items), ItemAt, Scoped(id, shop)).Some? && amount.Invalid? ==>
              r == Err(500, "Server error") && db.items == old(db.items)
    ensures First(old(db.items), ItemAt, Scoped(id, shop)).Some? && !amount.Invalid? ==>
              var k := First(old(db.items), ItemAt, Scoped(id, shop)).value;
              var i := old(db.items)[k].val;
              var v := i.(quantity := Clamped(i.quantity, ParsedOr(amount, 1).value));
              && (ValidItem(v) ==> db.items == old(db.items)[k := Doc(id, v)] && r == Ok(FormatItem(Doc(id, v), ())))
              && (!ValidItem(v) ==> r == Err(500, "Server error") && db.items == old(db.items))
    ensures r.Ok? ==> r.value.quantity >= 0
  {
    var k := First(db.items, ItemAt, Scoped(id, shop));
    if k.None? {
      return Err(404, "Item not found");
    }
    var step := ParsedOr(amount, 1);
    if step.None? {
      return Err(500, "Server error");
    }
    var i := db.items[k.value].val;
    var v := i.(quantity := Clamped(i.quantity, step.value));
    QuantityOnly(i, v.quantity);
    SameKeySaves(db.items, db.nextId, ItemKey, "itemName", ValidItem, k.value, v);
    var e := db.SaveItemAt(k.value, v);
    if e.Some? {
      return Err(500, "Server error");
    }
    r := Ok(FormatItem(Doc(id, v), ()));
  }
}
