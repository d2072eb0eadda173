/** The inventory record of models/Inventory.js: units, the non-negative quantity
    that `save()` enforces, and the `isLowStock` virtual. */
module InventoryModel {
  import opened Basics

  const Units: seq<string> := ["pieces", "boxes", "meters"]

  datatype Item = Item(itemName: string, shop: Option<Id>, quantity: int, unit: string, lowStockThreshold: int)

  /** What `save()` accepts. */
  predicate ValidItem(i: Item)
  {
    i.itemName != "" && i.shop.Some? && i.quantity >= 0 && i.unit in Units
  }

  /** `isLowStock`. */
  predicate IsLowStock(i: Item)
  {
    i.quantity <= i.lowStockThreshold
  }
}
