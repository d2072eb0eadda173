/** The MongoDB collections the routes read and write, as one object whose fields the route
    handlers update in place. A collection is the sequence of its documents in creation
    order; ids are handed out in increasing order, so `sort({ createdAt: -1 })` is the
    reverse of a collection. Each collection keeps the unique index its schema declares:
    (orderNumber, shop) sparse on orders, (phone, shop) on customers, (itemName, shop) on
    inventory, shopCode on shops and (username, shop) on admins, tailors and cutting
    masters. */
module Store {
  import opened Basics
  import opened Collections
  import opened OrderModel
  import opened CustomerModel
  import opened InventoryModel
  import opened ShopModel
  import opened StaffModel

  /** Why a write is refused: a schema rule fails (a `ValidationError`), or a unique index
      already holds the key (error code 11000, with the first field of the index). */
  datatype WriteError = ValidationFailed | DuplicateKey(field: string)

  /** The documents after a write, and the error if it was refused. */
  datatype Write<T> = Write(docs: seq<Doc<T>>, error: Option<WriteError>)

  // ---------------------------------------------------------------- the index keys

  /** The sparse (orderNumber, shop) index: an order with neither field is not indexed, and
      a missing field is indexed as null. */
  function OrderKey(o: Order): Option<(Option<string>, Option<Id>)>
  {
    if o.orderNumber.None? && o.shop.None? then None else Some((o.orderNumber, o.shop))
  }

  function CustomerKey(c: Customer): Option<(string, Option<Id>)>
  {
    Some((c.phone, c.shop))
  }

  function ItemKey(i: Item): Option<(string, Option<Id>)>
  {
    Some((i.itemName, i.shop))
  }

  function ShopKey(s: Shop): Option<string>
  {
    Some(s.shopCode)
  }

  function AdminKey(a: Admin): Option<(string, Option<Id>)>
  {
    Some((a.username, a.shop))
  }

  function StaffKey(s: Staff): Option<(string, Option<Id>)>
  {
    Some((s.username, s.shop))
  }

  // ---------------------------------------------------------------- one collection

  /** What every collection keeps: ids below the next one to be handed out, ids ascending
      in creation order, and no two indexed documents with the same key. */
  ghost predicate Table<T, K>(s: seq<Doc<T>>, next: nat, key: T -> Option<K>)
  {
    && (forall i :: 0 <= i < |s| ==> s[i].id < next)
    && (forall i, j :: 0 <= i < j < |s| ==> s[i].id < s[j].id)
    && (forall i, j :: 0 <= i < j < |s| && key(s[i].val).Some? ==> key(s[i].val) != key(s[j].val))
  }

  /** A document other than the one at position `skip` holds the key of `v`. */
  predicate KeyTaken<T, K(==)>(s: seq<Doc<T>>, key: T -> Option<K>, v: T, skip: int)
  {
    key(v).Some? && exists j :: 0 <= j < |s| && j != skip && key(s[j].val) == key(v)
  }

  /** `new Model(v).save()`: validation first, then the unique index, then the document is
      appended under the next id. */
  function Insert<T, K(==)>(s: seq<Doc<T>>, next: nat, key: T -> Option<K>, field: string, valid: T -> bool, v: T): (r: Write<T>)
    ensures r.error.None? <==> valid(v) && !KeyTaken(s, key, v, -1)
    ensures r.error == Some(ValidationFailed) <==> !valid(v)
    ensures r.error.Some? && r.error != Some(ValidationFailed) ==> r.error == Some(DuplicateKey(field))
    ensures r.error.None? ==> r.docs == s + [Doc(next, v)]
    ensures r.error.Some? ==> r.docs == s
  {
    if !valid(v) then Write(s, Some(ValidationFailed))
    else if KeyTaken(s, key, v, -1) then Write(s, Some(DuplicateKey(field)))
    else Write(s + [Doc(next, v)], None)
  }

  /** `doc.save()` on the document loaded from position `k`, holding `v` now. */
  function SaveAt<T, K(==)>(s: seq<Doc<T>>, key: T -> Option<K>, field: string, valid: T -> bool, k: nat, v: T): (r: Write<T>)
    requires k < |s|
    ensures r.error.None? <==> valid(v) && !KeyTaken(s, key, v, k)
    ensures r.error == Some(ValidationFailed) <==> !valid(v)
    ensures r.error.Some? && r.error != Some(ValidationFailed) ==> r.error == Some(DuplicateKey(field))
    ensures r.error.None? ==> r.docs == s[k := Doc(s[k].id, v)]
    ensures r.error.Some? ==> r.docs == s
  {
    if !valid(v) then Write(s, Some(ValidationFailed))
    else if KeyTaken(s, key, v, k) then Write(s, Some(DuplicateKey(field)))
    else Write(s[k := Doc(s[k].id, v)], None)
  }

  /** The position of the document with id `id` (`findById`). */
  predicate HasId<T>(d: Doc<T>, id: Id)
  {
    d.id == id
  }

  // ---------------------------------------------------------------- keeping a table

  /** A write the store accepted keeps the table, and the next id moves past the new one. */
  lemma InsertKeepsTable<T, K>(s: seq<Doc<T>>, next: nat, key: T -> Option<K>, field: string, valid: T -> bool, v: T)
    requires Table(s, next, key)
    ensures Table(Insert(s, next, key, field, valid, v).docs, next + 1, key)
  {
    var r := Insert(s, next, key, field, valid, v);
    if r.error.None? {
      var t := s + [Doc(next, v)];
      forall i, j | 0 <= i < j < |t| && key(t[i].val).Some?
        ensures key(t[i].val) != key(t[j].val)
      {
        if j == |s| {
          assert !(0 <= i < |s| && i != -1 && key(s[i].val) == key(v));
        }
      }
    }
  }

  lemma SaveKeepsTable<T, K>(s: seq<Doc<T>>, next: nat, key: T -> Option<K>, field: string, valid: T -> bool, k: nat, v: T)
    requires Table(s, next, key) && k < |s|
    ensures Table(SaveAt(s, key, field, valid, k, v).docs, next, key)
  {
    var r := SaveAt(s, key, field, valid, k, v);
    if r.error.None? {
      var t := s[k := Doc(s[k].id, v)];
      forall i, j | 0 <= i < j < |t| && key(t[i].val).Some?
        ensures key(t[i].val) != key(t[j].val)
      {
        if j == k {
          assert !(0 <= i < |s| && i != k && key(s[i].val) == key(v));
        } else if i == k {
          assert !(0 <= j < |s| && j != k && key(s[j].val) == key(v));
        }
      }
    }
  }

  /** An update that leaves the indexed fields as they are (`findOneAndUpdate` on other
      fields) keeps the table. */
  lemma UpdateKeepsTable<T, K>(s: seq<Doc<T>>, next: nat, key: T -> Option<K>, k: nat, v: T)
    requires Table(s, next, key) && k < |s| && key(v) == key(s[k].val)
    ensures Table(s[k := Doc(s[k].id, v)], next, key)
  {
  }

  /** Saving a document whose indexed fields are unchanged cannot hit the unique index:
      only validation can refuse it. */
  lemma SameKeySaves<T, K>(s: seq<Doc<T>>, next: nat, key: T -> Option<K>, field: string, valid: T -> bool, k: nat, v: T)
    requires Table(s, next, key) && k < |s| && key(v) == key(s[k].val)
    ensures SaveAt(s, key, field, valid, k, v).error.None? <==> valid(v)
  {
    forall j | 0 <= j < |s| && j != k && key(v).Some?
      ensures key(s[j].val) != key(v)
    {
      if j < k {
        assert key(s[j].val) != key(s[k].val);
      }
    }
  }

  lemma RemoveKeepsTable<T, K>(s: seq<Doc<T>>, next: nat, key: T -> Option<K>, k: nat)
    requires Table(s, next, key) && k < |s|
    ensures Table(RemoveAt(s, k), next, key)
  {
    var t := RemoveAt(s, k);
    forall i, j | 0 <= i < j < |t|
      ensures t[i].id < t[j].id
      ensures key(t[i].val).Some? ==> key(t[i].val) != key(t[j].val)
    {
      var i', j' := if i < k then i else i + 1, if j < k then j else j + 1;
      assert t[i] == s[i'] && t[j] == s[j'] && i' < j';
    }
  }

  /** Ids are unique, so removing the document at `k` removes its id from the collection. */
  lemma RemovedIdGone<T, K>(s: seq<Doc<T>>, next: nat, key: T -> Option<K>, k: nat)
    requires Table(s, next, key) && k < |s|
    ensures forall d :: d in RemoveAt(s, k) ==> d.id != s[k].id
  {
    var t := RemoveAt(s, k);
    forall d | d in t ensures d.id != s[k].id {
      var i :| 0 <= i < |t| && t[i] == d;
      if i < k { assert t[i] == s[i]; } else { assert t[i] == s[i + 1]; }
    }
  }

  /** Ids ascending, as a pairwise relation. */
  predicate IdBefore<T>(a: Doc<T>, b: Doc<T>)
  {
    a.id < b.id
  }

  lemma RejectKeepsTable<T, K, Q>(s: seq<Doc<T>>, next: nat, key: T -> Option<K>, m: (Doc<T>, Q) -> bool, q: Q)
    requires Table(s, next, key)
    ensures Table(Reject(s, m, q), next, key)
  {
    var t := Reject(s, m, q);
    assert Pairwise(s, IdBefore);
    RejectPairwise(s, m, q, IdBefore);
    assert Pairwise(s, Distinct(key));
    RejectPairwise(s, m, q, Distinct(key));
    forall i, j | 0 <= i < j < |t| && key(t[i].val).Some?
      ensures key(t[i].val) != key(t[j].val)
    {
      assert Distinct(key)(t[i], t[j]);
    }
  }

  /** The unique-index relation between an earlier and a later document. */
  function Distinct<T, K(==)>(key: T -> Option<K>): (Doc<T>, Doc<T>) -> bool
  {
    (a: Doc<T>, b: Doc<T>) => key(a.val).Some? ==> key(a.val) != key(b.val)
  }

  lemma TableGrows<T, K>(s: seq<Doc<T>>, next: nat, key: T -> Option<K>)
    requires Table(s, next, key)
    ensures Table(s, next + 1, key)
  {
  }

  // ---------------------------------------------------------------- the database

  class Db {
    var orders: seq<Doc<Order>>
    var customers: seq<Doc<Customer>>
    var items: seq<Doc<Item>>
    var shops: seq<Doc<Shop>>
    var admins: seq<Doc<Admin>>
    var tailors: seq<Doc<Staff>>
    var cuttingMasters: seq<Doc<Staff>>
    /** The next id to hand out. */
    var nextId: nat

    ghost predicate Valid()
      reads this
    {
      && Table(orders, nextId, OrderKey)
      && Table(customers, nextId, CustomerKey)
      && Table(items, nextId, ItemKey)
      && Table(shops, nextId, ShopKey)
      && Table(admins, nextId, AdminKey)
      && Table(tailors, nextId, StaffKey)
      && Table(cuttingMasters, nextId, StaffKey)
    }

    constructor ()
      ensures Valid()
      ensures orders == [] && customers == [] && items == [] && shops == []
      ensures admins == [] && tailors == [] && cuttingMasters == []
    {
      orders, customers, items, shops := [], [], [], [];
      admins, tailors, cuttingMasters := [], [], [];
      nextId := 0;
    }

    /** The next id moves on; every collection stays as it is. */
    method Allocate()
      requires Valid()
      modifies this`nextId
      ensures Valid() && nextId == old(nextId) + 1
    {
      TableGrows(orders, nextId, OrderKey);
      TableGrows(customers, nextId, CustomerKey);
      TableGrows(items, nextId, ItemKey);
      TableGrows(shops, nextId, ShopKey);
      TableGrows(admins, nextId, AdminKey);
      TableGrows(tailors, nextId, StaffKey);
      TableGrows(cuttingMasters, nextId, StaffKey);
      nextId := nextId + 1;
    }

    method InsertOrder(v: Order) returns (e: Option<WriteError>)
      requires Valid()
      modifies this`orders, this`nextId
      ensures Valid()
      ensures var w := Insert(old(orders), old(nextId), OrderKey, "orderNumber", ValidOrder, v);
              orders == w.docs && e == w.error
      ensures nextId == if e.None? then old(nextId) + 1 else old(nextId)
    {
      var w := Insert(orders, nextId, OrderKey, "orderNumber", ValidOrder, v);
      InsertKeepsTable(orders, nextId, OrderKey, "orderNumber", ValidOrder, v);
      e := w.error;
      if e.None? {
        AppendOrders(w.docs);
      }
    }

    method AppendOrders(s: seq<Doc<Order>>)
      requires Valid() && Table(s, nextId + 1, OrderKey)
      modifies this`orders, this`nextId
      ensures Valid() && orders == s && nextId == old(nextId) + 1
    {
      Allocate();
      orders := s;
    }

    method SaveOrderAt(k: nat, v: Order) returns (e: Option<WriteError>)
      requires Valid() && k < |orders|
      modifies this`orders
      ensures Valid()
      ensures var w := SaveAt(old(orders), OrderKey, "orderNumber", ValidOrder, k, v);
              orders == w.docs && e == w.error
    {
      var w := SaveAt(orders, OrderKey, "orderNumber", ValidOrder, k, v);
      SaveKeepsTable(orders, nextId, OrderKey, "orderNumber", ValidOrder, k, v);
      orders, e := w.docs, w.error;
    }

    /** `findOneAndUpdate` of fields outside the index. */
    method UpdateOrderAt(k: nat, v: Order)
      requires Valid() && k < |orders| && OrderKey(v) == OrderKey(orders[k].val)
      modifies this`orders
      ensures Valid()
      ensures orders == old(orders)[k := Doc(old(orders)[k].id, v)]
    {
      UpdateKeepsTable(orders, nextId, OrderKey, k, v);
      orders := orders[k := Doc(orders[k].id, v)];
    }

    method RemoveOrderAt(k: nat)
      requires Valid() && k < |orders|
      modifies this`orders
      ensures Valid() && orders == RemoveAt(old(orders), k)
    {
      RemoveKeepsTable(orders, nextId, OrderKey, k);
      orders := RemoveAt(orders, k);
    }

    /** `Order.deleteMany(q)`. */
    method RemoveOrders<Q>(m: (Doc<Order>, Q) -> bool, q: Q)
      requires Valid()
      modifies this`orders
      ensures Valid() && orders == Reject(old(orders), m, q)
    {
      RejectKeepsTable(orders, nextId, OrderKey, m, q);
      orders := Reject(orders, m, q);
    }

    method InsertCustomer(v: Customer) returns (e: Option<WriteError>)
      requires Valid()
      modifies this`customers, this`nextId
      ensures Valid()
      ensures var w := Insert(old(customers), old(nextId), CustomerKey, "phone", ValidCustomer, v);
              customers == w.docs && e == w.error
      ensures nextId == if e.None? then old(nextId) + 1 else old(nextId)
    {
      var w := Insert(customers, nextId, CustomerKey, "phone", ValidCustomer, v);
      InsertKeepsTable(customers, nextId, CustomerKey, "phone", ValidCustomer, v);
      e := w.error;
      if e.None? {
        AppendCustomers(w.docs);
      }
    }

    method AppendCustomers(s: seq<Doc<Customer>>)
      requires Valid() && Table(s, nextId + 1, CustomerKey)
      modifies this`customers, this`nextId
      ensures Valid() && customers == s && nextId == old(nextId) + 1
    {
      Allocate();
      customers := s;
    }

    method SaveCustomerAt(k: nat, v: Customer) returns (e: Option<WriteError>)
      requires Valid() && k < |customers|
      modifies this`customers
      ensures Valid()
      ensures var w := SaveAt(old(customers), CustomerKey, "phone", ValidCustomer, k, v);
              customers == w.docs && e == w.error
    {
      var w := SaveAt(customers, CustomerKey, "phone", ValidCustomer, k, v);
      SaveKeepsTable(customers, nextId, CustomerKey, "phone", ValidCustomer, k, v);
      customers, e := w.docs, w.error;
    }

    method RemoveCustomerAt(k: nat)
      requires Valid() && k < |customers|
      modifies this`customers
      ensures Valid() && customers == RemoveAt(old(customers), k)
    {
      RemoveKeepsTable(customers, nextId, CustomerKey, k);
      customers := RemoveAt(customers, k);
    }

    method SaveItemAt(k: nat, v: Item) returns (e: Option<WriteError>)
      requires Valid() && k < |items|
      modifies this`items
      ensures Valid()
      ensures var w := SaveAt(old(items), ItemKey, "itemName", ValidItem, k, v);
              items == w.docs && e == w.error
    {
      var w := SaveAt(items, ItemKey, "itemName", ValidItem, k, v);
      SaveKeepsTable(items, nextId, ItemKey, "itemName", ValidItem, k, v);
      items, e := w.docs, w.error;
    }

    /** `findOneAndUpdate` with `$inc`, which runs no validator. */
    method UpdateItemAt(k: nat, v: Item)
      requires Valid() && k < |items| && ItemKey(v) == ItemKey(items[k].val)
      modifies this`items
      ensures Valid()
      ensures items == old(items)[k := Doc(old(items)[k].id, v)]
    {
      UpdateKeepsTable(items, nextId, ItemKey, k, v);
      items := items[k := Doc(items[k].id, v)];
    }

    method InsertShop(v: Shop) returns (e: Option<WriteError>)
      requires Valid()
      modifies this`shops, this`nextId
      ensures Valid()
      ensures var w := Insert(old(shops), old(nextId), ShopKey, "shopCode", ValidShop, v);
              shops == w.docs && e == w.error
      ensures nextId == if e.None? then old(nextId) + 1 else old(nextId)
    {
      var w := Insert(shops, nextId, ShopKey, "shopCode", ValidShop, v);
      InsertKeepsTable(shops, nextId, ShopKey, "shopCode", ValidShop, v);
      e := w.error;
      if e.None? {
        AppendShops(w.docs);
      }
    }

    method AppendShops(s: seq<Doc<Shop>>)
      requires Valid() && Table(s, nextId + 1, ShopKey)
      modifies this`shops, this`nextId
      ensures Valid() && shops == s && nextId == old(nextId) + 1
    {
      Allocate();
      shops := s;
    }

    method RemoveShopAt(k: nat)
      requires Valid() && k < |shops|
      modifies this`shops
      ensures Valid() && shops == RemoveAt(old(shops), k)
    {
      RemoveKeepsTable(shops, nextId, ShopKey, k);
      shops := RemoveAt(shops, k);
    }

    method InsertAdmin(v: Admin) returns (e: Option<WriteError>)
      requires Valid()
      modifies this`admins, this`nextId
      ensures Valid()
      ensures var w := Insert(old(admins), old(nextId), AdminKey, "username", ValidAdmin, v);
              admins == w.docs && e == w.error
      ensures nextId == if e.None? then old(nextId) + 1 else old(nextId)
    {
      var w := Insert(admins, nextId, AdminKey, "username", ValidAdmin, v);
      InsertKeepsTable(admins, nextId, AdminKey, "username", ValidAdmin, v);
      e := w.error;
      if e.None? {
        AppendAdmins(w.docs);
      }
    }

    method AppendAdmins(s: seq<Doc<Admin>>)
      requires Valid() && Table(s, nextId + 1, AdminKey)
      modifies this`admins, this`nextId
      ensures Valid() && admins == s && nextId == old(nextId) + 1
    {
      Allocate();
      admins := s;
    }

    method InsertTailor(v: Staff) returns (e: Option<WriteError>)
      requires Valid()
      modifies this`tailors, this`nextId
      ensures Valid()
      ensures var w := Insert(old(tailors), old(nextId), StaffKey, "username", ValidStaff, v);
              tailors == w.docs && e == w.error
      ensures nextId == if e.None? then old(nextId) + 1 else old(nextId)
    {
      var w := Insert(tailors, nextId, StaffKey, "username", ValidStaff, v);
      InsertKeepsTable(tailors, nextId, StaffKey, "username", ValidStaff, v);
      e := w.error;
      if e.None? {
        AppendTailors(w.docs);
      }
    }

    method AppendTailors(s: seq<Doc<Staff>>)
      requires Valid() && Table(s, nextId + 1, StaffKey)
      modifies this`tailors, this`nextId
      ensures Valid() && tailors == s && nextId == old(nextId) + 1
    {
      Allocate();
      tailors := s;
    }

    method RemoveTailorAt(k: nat)
      requires Valid() && k < |tailors|
      modifies this`tailors
      ensures Valid() && tailors == RemoveAt(old(tailors), k)
    {
      RemoveKeepsTable(tailors, nextId, StaffKey, k);
      tailors := RemoveAt(tailors, k);
    }

    method InsertCuttingMaster(v: Staff) returns (e: Option<WriteError>)
      requires Valid()
      modifies this`cuttingMasters, this`nextId
      ensures Valid()
      ensures var w := Insert(old(cuttingMasters), old(nextId), StaffKey, "username", ValidStaff, v);
              cuttingMasters == w.docs && e == w.error
      ensures nextId == if e.None? then old(nextId) + 1 else old(nextId)
    {
      var w := Insert(cuttingMasters, nextId, StaffKey, "username", ValidStaff, v);
      InsertKeepsTable(cuttingMasters, nextId, StaffKey, "username", ValidStaff, v);
      e := w.error;
      if e.None? {
        AppendCuttingMasters(w.docs);
      }
    }

    method AppendCuttingMasters(s: seq<Doc<Staff>>)
      requires Valid() && Table(s, nextId + 1, StaffKey)
      modifies this`cuttingMasters, this`nextId
      ensures Valid() && cuttingMasters == s && nextId == old(nextId) + 1
    {
      Allocate();
      cuttingMasters := s;
    }

    method RemoveCuttingMasterAt(k: nat)
      requires Valid() && k < |cuttingMasters|
      modifies this`cuttingMasters
      ensures Valid() && cuttingMasters == RemoveAt(old(cuttingMasters), k)
    {
      RemoveKeepsTable(cuttingMasters, nextId, StaffKey, k);
      cuttingMasters := RemoveAt(cuttingMasters, k);
    }
  }
}
