/** routes/api/admin/orders.js: the shop admin's order list, creation, detail, partial
    update, status change and deletion. Every query is scoped to the admin's shop. */
module AdminOrdersApi {
  import opened Basics
  import opened Collections
  import opened OrderModel
  import opened CustomerModel
  import opened Store
  import opened Views

  /** The text of a 400 answer to a `ValidationError` (the route joins the schema's
      messages; their texts are not modelled). */
  const ValidationText: string := "Validation failed"

  /** `formatOrder(o)`: the stored fields the route copies, and the two it computes. */
  datatype FormattedOrder = FormattedOrder(
    id: Id, orderNumber: Option<string>, garmentType: string, description: string,
    status: string, statusIndex: int, price: real, advancePaid: real, balanceDue: real,
    dueDate: Option<Date>, isActive: bool, customer: Option<CustomerRef>)

  function FormatOrder(d: Doc<Order>, customers: seq<Doc<Customer>>): (r: FormattedOrder)
    ensures r.id == d.id && r.status == d.val.status && r.isActive == d.val.isActive
    ensures r.price == d.val.price && r.advancePaid == d.val.advancePaid
    ensures r.balanceDue == r.price - r.advancePaid
    ensures r.statusIndex == -1 <==> r.status !in OrderStatuses
    ensures r.statusIndex != -1 ==> 0 <= r.statusIndex < 5 && OrderStatuses[r.statusIndex] == r.status
    ensures r.customer.None? <==> forall k :: 0 <= k < |customers| ==> customers[k].id != d.val.customer
  {
    FormattedOrder(d.id, d.val.orderNumber, d.val.garmentType, d.val.description, d.val.status,
                   StatusIndex(d.val.status), d.val.price, d.val.advancePaid, BalanceDue(d.val),
                   d.val.dueDate, d.val.isActive, Populate(customers, d.val.customer))
  }

  // ---------------------------------------------------------------- list

  /** The `status` query parameter takes effect only when it is one of the five statuses;
      anything else (including 'all') is ignored, not refused. */
  function EffectiveStatus(status: Option<string>): (r: Option<string>)
    ensures r.Some? <==> status.Some? && status.value in OrderStatuses
    ensures r.Some? ==> r == status
  {
    if Given(status) && status.value != "all" && status.value in OrderStatuses then status else None
  }

  datatype ListFilter = ListFilter(shop: Id, status: Option<string>)

  /** `{ isActive: true, shop, status? }`. */
  predicate Listed(d: Doc<Order>, f: ListFilter)
  {
    d.val.isActive && d.val.shop == Some(f.shop) && (f.status.None? || d.val.status == f.status.value)
  }

  /** GET /: the active orders of the shop (of one status when asked), newest first, one
      page of them; `page` defaults to 1 and `limit` to 20. */
  function ListOrders(orders: seq<Doc<Order>>, customers: seq<Doc<Customer>>, shop: Id, status: Option<string>,
                      page: Option<int>, limit: Option<int>): (r: Result<Page<FormattedOrder>>)
    ensures var p := if page.Some? then page.value else 1;
            var l := if limit.Some? then limit.value else 20;
            && (r.Err? <==> (p - 1) * l < 0)
            && (r.Ok? ==> r.value.page == p)
            && (r.Ok? && l != 0 ==> |r.value.items| <= Abs(l))
    ensures var p := if page.Some? then page.value else 1;
            var l := if limit.Some? then limit.value else 20;
            var all := NewestFirst(orders, Listed, ListFilter(shop, EffectiveStatus(status)));
            r.Ok? ==> PageFrom(r.value.items, all, (p - 1) * l, l, FormatOrder, customers)
  {
    var p := if page.Some? then page.value else 1;
    var l := if limit.Some? then limit.value else 20;
    var f := ListFilter(shop, EffectiveStatus(status));
    NewestPage(orders, Listed, f, FormatOrder, customers, p, l)
  }

  /** The total counts the listed orders, and each entry of the page is a listed order of
      the shop, formatted. */
  lemma ListedOrders(orders: seq<Doc<Order>>, customers: seq<Doc<Customer>>, shop: Id, status: Option<string>,
                     page: Option<int>, limit: Option<int>)
    ensures var r := ListOrders(orders, customers, shop, status, page, limit);
            var f := ListFilter(shop, EffectiveStatus(status));
            && (r.Ok? ==> r.value.total == Count(orders, Listed, f))
            && (r.Ok? ==> forall i :: 0 <= i < |r.value.items| ==>
                  exists d :: d in orders && Listed(d, f) && r.value.items[i] == FormatOrder(d, customers))
  {
    var p := if page.Some? then page.value else 1;
    var l := if limit.Some? then limit.value else 20;
    var f := ListFilter(shop, EffectiveStatus(status));
    PagedMatches(orders, Listed, f, FormatOrder, customers, p, l);
  }

  /** A status outside the five is ignored: the answer is the unfiltered list. */
  lemma UnknownStatusIgnored(orders: seq<Doc<Order>>, customers: seq<Doc<Customer>>, shop: Id, status: string,
                             page: Option<int>, limit: Option<int>)
    requires status !in OrderStatuses
    ensures ListOrders(orders, customers, shop, Some(status), page, limit) == ListOrders(orders, customers, shop, None, page, limit)
  {
  }

  /** Every listed order is an active order of the shop. */
  lemma ListedInShop(d: Doc<Order>, f: ListFilter)
    requires Listed(d, f)
    ensures ActiveInShop(d, f.shop)
  {
  }

  // ---------------------------------------------------------------- create

  /** The body of POST /. */
  datatype OrderForm = OrderForm(customerId: Option<Id>, garmentType: Option<string>, description: Option<string>,
                                 price: Parsed<real>, advancePaid: Parsed<real>, dueDate: Parsed<Date>,
                                 status: Option<string>)

  /** `ORD-${timestamp}-${random}`, from the clock and `Math.floor(Math.random() * 10000)`. */
  function OrderCode(timestamp: nat, random: nat): string
  {
    "ORD-" + Decimal(timestamp) + "-" + Decimal(random)
  }

  /** `new Order({...})` from a form that passed the two presence checks: None when a price,
      an advance or a due date does not cast (the save then fails validation). */
  function Draft(f: OrderForm, shop: Id, number: string): (r: Option<Order>)
    requires f.customerId.Some? && Given(f.garmentType)
    ensures r.None? <==> f.price.Invalid? || f.advancePaid.Invalid? || f.dueDate.Invalid?
    ensures r.Some? ==> var o := r.value;
              && o.shop == Some(shop) && o.isActive && o.customer == f.customerId.value
              && o.orderNumber == Some(number) && o.garmentType == f.garmentType.value
              && o.description == Trim(OrElse(f.description, ""))
              && o.price == (if f.price.Value? then f.price.v else 0.0)
              && o.advancePaid == (if f.advancePaid.Value? then f.advancePaid.v else 0.0)
              && o.dueDate == (if f.dueDate.Value? then Some(f.dueDate.v) else None)
              && o.status == OrElse(f.status, "Order Placed")
              && !o.pendingApproval && o.cuttingStatus == Some("Pending")
              && o.assignedTailor.None? && o.assignedCuttingMaster.None? && o.readyPhotoUrl.None?
  {
    var price, advance, due := ParsedOr(f.price, 0.0), ParsedOr(f.advancePaid, 0.0), DateOr(f.dueDate, None);
    if price.None? || advance.None? || due.None? then None
    else
      Some(NewOrder(f.customerId.value, f.garmentType.value, Some(shop)).(
             orderNumber := Some(number), description := Trim(OrElse(f.description, "")),
             price := price.value, advancePaid := advance.value, dueDate := due.value,
             status := OrElse(f.status, "Order Placed")))
  }

  /** A form with only the customer and the garment gives the schema defaults, in the
      caller's shop. */
  lemma DraftDefaults(customer: Id, garmentType: string, shop: Id, number: string)
    requires garmentType != ""
    ensures var f := OrderForm(Some(customer), Some(garmentType), None, Absent, Absent, Absent, None);
            Draft(f, shop, number) == Some(NewOrder(customer, garmentType, Some(shop)).(orderNumber := Some(number)))
  {
    var o := NewOrder(customer, garmentType, Some(shop));
    assert Trim("") == "";
  }

  /** POST /: the two presence checks (400), the customer must belong to the shop (404),
      then the draft is inserted: a validation failure is 400, a duplicate order number 500. */
  method CreateOrder(db: Db, shop: Id, f: OrderForm, timestamp: nat, random: nat) returns (r: Result<FormattedOrder>)
    requires db.Valid()
    modifies db`orders, db`nextId
    ensures db.Valid()
    ensures f.customerId.None? ==> r == Err(400, "Customer is required") && db.orders == old(db.orders)
    ensures f.customerId.Some? && !Given(f.garmentType) ==>
              r == Err(400, "Garment type is required") && db.orders == old(db.orders)
    ensures f.customerId.Some? && Given(f.garmentType) && First(db.customers, CustomerAt, Scoped(f.customerId.value, shop)).None? ==>
              r == Err(404, "Customer not found") && db.orders == old(db.orders)
    ensures f.customerId.Some? && Given(f.garmentType) && First(db.customers, CustomerAt, Scoped(f.customerId.value, shop)).Some? ==>
              var d := Draft(f, shop, OrderCode(timestamp, random));
              && (d.None? ==> r == Err(400, ValidationText) && db.orders == old(db.orders))
              && (d.Some? ==>
                    var w := Insert(old(db.orders), old(db.nextId), OrderKey, "orderNumber", ValidOrder, d.value);
                    && db.orders == w.docs
                    && (w.error == Some(ValidationFailed) ==> r == Err(400, ValidationText))
                    && (w.error.Some? && w.error != Some(ValidationFailed) ==> r == Err(500, "Server error"))
                    && (w.error.None? ==> r == Ok(FormatOrder(Doc(old(db.nextId), d.value), db.customers))))
    ensures r.Ok? ==> |db.orders| == |old(db.orders)| + 1 && db.orders[|db.orders| - 1].val.shop == Some(shop)
  {
    if f.customerId.None? {
      return Err(400, "Customer is required");
    }
    if !Given(f.garmentType) {
      return Err(400, "Garment type is required");
    }
    var c := First(db.customers, CustomerAt, Scoped(f.customerId.value, shop));
    if c.None? {
      return Err(404, "Customer not found");
    }
    var d := Draft(f, shop, OrderCode(timestamp, random));
    if d.None? {
      return Err(400, ValidationText);
    }
    var id := db.nextId;
    var e := db.InsertOrder(d.value);
    if e == Some(ValidationFailed) {
      return Err(400, ValidationText);
    } else if e.Some? {
      return Err(500, "Server error");
    }
    r := Ok(FormatOrder(Doc(id, d.value), db.customers));
  }

  // ---------------------------------------------------------------- detail

  /** GET /:id: the formatted order, or 404 for an order of another shop. */
  function OrderDetail(orders: seq<Doc<Order>>, customers: seq<Doc<Customer>>, shop: Id, id: Id): (r: Result<FormattedOrder>)
    ensures r.Err? <==> forall d :: d in orders ==> !OrderAt(d, Scoped(id, shop))
    ensures r.Err? ==> r == Err(404, "Order not found")
    ensures r.Ok? ==> exists d :: d in orders && OrderAt(d, Scoped(id, shop)) && r.value == FormatOrder(d, customers)
  {
    var k := First(orders, OrderAt, Scoped(id, shop));
    if k.None? then Err(404, "Order not found") else Ok(FormatOrder(orders[k.value], customers))
  }

  // ---------------------------------------------------------------- partial update

  /** The body of PUT /:id; `None` and `Absent` are fields that were not sent. */
  datatype OrderEdit = OrderEdit(garmentType: Option<string>, description: Option<string>,
                                 price: Parsed<real>, advancePaid: Parsed<real>, dueDate: Parsed<Date>,
                                 status: Option<string>)

  /** The order after the six conditional assignments, or None when a sent price, advance or
      due date does not cast (the save then throws). A field changes only when it is sent; an
      unknown status is ignored; an empty due date clears it. */
  function Merge(o: Order, e: OrderEdit): (r: Option<Order>)
    ensures r.None? <==> e.price.Blank? || e.price.Invalid? || e.advancePaid.Blank? || e.advancePaid.Invalid? || e.dueDate.Invalid?
  {
    if e.price.Blank? || e.price.Invalid? || e.advancePaid.Blank? || e.advancePaid.Invalid? || e.dueDate.Invalid? then None
    else
      var garmentType := if Given(e.garmentType) then e.garmentType.value else o.garmentType;
      var description := if e.description.Some? then Trim(e.description.value) else o.description;
      var price := if e.price.Value? then e.price.v else o.price;
      var advancePaid := if e.advancePaid.Value? then e.advancePaid.v else o.advancePaid;
      var dueDate := if e.dueDate.Value? then Some(e.dueDate.v) else if e.dueDate.Blank? then None else o.dueDate;
      var status := if Given(e.status) && e.status.value in OrderStatuses then e.status.value else o.status;
      Some(o.(garmentType := garmentType, description := description, price := price,
              advancePaid := advancePaid, dueDate := dueDate, status := status))
  }

  /** A field changes only when it is sent: the sent garment type (when not empty), the sent
      description (trimmed), the parsed price and advance, the parsed due date (null when
      empty), and the status when it is one of the five. */
  lemma MergeFields(o: Order, e: OrderEdit)
    requires Merge(o, e).Some?
    ensures var n := Merge(o, e).value;
            && n.garmentType == (if Given(e.garmentType) then e.garmentType.value else o.garmentType)
            && n.description == (if e.description.Some? then Trim(e.description.value) else o.description)
            && n.price == (if e.price.Value? then e.price.v else o.price)
            && n.advancePaid == (if e.advancePaid.Value? then e.advancePaid.v else o.advancePaid)
            && n.dueDate == (if e.dueDate.Value? then Some(e.dueDate.v) else if e.dueDate.Blank? then None else o.dueDate)
            && n.status == (if Given(e.status) && e.status.value in OrderStatuses then e.status.value else o.status)
  {
  }

  /** No other field of the order changes. */
  lemma MergeFrame(o: Order, e: OrderEdit)
    requires Merge(o, e).Some?
    ensures var n := Merge(o, e).value;
            n.(garmentType := o.garmentType, description := o.description, price := o.price,
               advancePaid := o.advancePaid, dueDate := o.dueDate, status := o.status) == o
  {
  }

  /** An edit that sends nothing changes nothing, and no edit touches the indexed fields. */
  lemma MergeKeeps(o: Order, e: OrderEdit)
    ensures Merge(o, OrderEdit(None, None, Absent, Absent, Absent, None)) == Some(o)
    ensures Merge(o, e).Some? ==> OrderKey(Merge(o, e).value) == OrderKey(o)
    ensures Merge(o, e).Some? ==> Merge(o, e).value.shop == o.shop && Merge(o, e).value.customer == o.customer
  {
  }

  /** The six conditional assignments of the PUT, one field at a time (the record is
      rebuilt once at the end);
      a sent price, advance or due date that does not cast is remembered (the save throws). */
  method ApplyEdit(o: Order, e: OrderEdit) returns (n: Order, castFailed: bool)
    ensures castFailed <==> Merge(o, e).None?
    ensures !castFailed ==> n == Merge(o, e).value
  {
    var garmentType, description, status := o.garmentType, o.description, o.status;
    if Given(e.garmentType) {
      garmentType := e.garmentType.value;
    }
    if e.description.Some? {
      description := Trim(e.description.value);
    }
    var price, priceFailed := CastAmount(e.price, o.price);
    var advancePaid, advanceFailed := CastAmount(e.advancePaid, o.advancePaid);
    var dueDate, dateFailed := CastDueDate(e.dueDate, o.dueDate);
    castFailed := priceFailed || advanceFailed || dateFailed;
    if Given(e.status) && e.status.value in OrderStatuses {
      status := e.status.value;
    }
    n := o.(garmentType := garmentType, description := description, price := price,
            advancePaid := advancePaid, dueDate := dueDate, status := status);
    if !castFailed {
      MergeOf(o, e, garmentType, description, price, advancePaid, dueDate, status);
    }
  }

  /** An edit whose casts succeed merges into the order with the six values it assigns. */
  lemma MergeOf(o: Order, e: OrderEdit, garmentType: string, description: string, price: real,
                advancePaid: real, dueDate: Option<Date>, status: string)
    requires !(e.price.Blank? || e.price.Invalid? || e.advancePaid.Blank? || e.advancePaid.Invalid? || e.dueDate.Invalid?)
    requires garmentType == if Given(e.garmentType) then e.garmentType.value else o.garmentType
    requires description == if e.description.Some? then Trim(e.description.value) else o.description
    requires price == if e.price.Value? then e.price.v else o.price
    requires advancePaid == if e.advancePaid.Value? then e.advancePaid.v else o.advancePaid
    requires dueDate == if e.dueDate.Value? then Some(e.dueDate.v) else if e.dueDate.Blank? then None else o.dueDate
    requires status == if Given(e.status) && e.status.value in OrderStatuses then e.status.value else o.status
    ensures Merge(o, e) == Some(o.(garmentType := garmentType, description := description, price := price,
                                   advancePaid := advancePaid, dueDate := dueDate, status := status))
  {
  }

  /** `order.price = parseFloat(price)` (or the advance): a sent amount replaces the current
      one, and one that is empty or not a number fails the cast. */
  method CastAmount(p: Parsed<real>, current: real) returns (v: real, failed: bool)
    ensures failed <==> p.Blank? || p.Invalid?
    ensures v == if p.Value? then p.v else current
  {
    v, failed := current, false;
    if !p.Absent? {
      if p.Value? {
        v := p.v;
      } else {
        failed := true;
      }
    }
  }

  /** `order.dueDate = dueDate ? new Date(dueDate) : null`: an empty date clears it, and one
      that is not a date fails the cast. */
  method CastDueDate(p: Parsed<Date>, current: Option<Date>) returns (v: Option<Date>, failed: bool)
    ensures failed <==> p.Invalid?
    ensures !failed ==> v == if p.Value? then Some(p.v) else if p.Blank? then None else current
  {
    v, failed := current, false;
    if !p.Absent? {
      if p.Value? {
        v := Some(p.v);
      } else if p.Blank? {
        v := None;
      } else {
        failed := true;
      }
    }
  }

  /** PUT /:id: 404 for an order of another shop; the sent fields are assigned one by one and
      the order is saved; any failure of the save is 500. */
  method PutOrder(db: Db, shop: Id, id: Id, e: OrderEdit) returns (r: Result<FormattedOrder>)
    requires db.Valid()
    modifies db`orders
    ensures db.Valid()
    ensures First(old(db.orders), OrderAt, Scoped(id, shop)).None? ==>
              r == Err(404, "Order not found") && db.orders == old(db.orders)
    ensures First(old(db.orders), OrderAt, Scoped(id, shop)).Some? ==>
              var k := First(old(db.orders), OrderAt, Scoped(id, shop)).value;
              var n := Merge(old(db.orders)[k].val, e);
              && (n.None? ==> r == Err(500, "Server error") && db.orders == old(db.orders))
              && (n.Some? ==>
                    var w := SaveAt(old(db.orders), OrderKey, "orderNumber", ValidOrder, k, n.value);
                    && db.orders == w.docs
                    && (w.error.Some? ==> r == Err(500, "Server error"))
                    && (w.error.None? ==> r == Ok(FormatOrder(Doc(id, n.value), db.customers))))
  {
    var k := First(db.orders, OrderAt, Scoped(id, shop));
    if k.None? {
      return Err(404, "Order not found");
    }
    var o := db.orders[k.value].val;
    var castFailed;
    o, castFailed := ApplyEdit(o, e);
    if castFailed {
      return Err(500, "Server error");
    }
    var err := db.SaveOrderAt(k.value, o);
    if err.Some? {
      return Err(500, "Server error");
    }
    r := Ok(FormatOrder(Doc(id, o), db.customers));
  }

  // ---------------------------------------------------------------- status PATCH and delete

  /** PATCH /:id/status: a status outside the five is 400, an order of another shop 404;
      otherwise only `status` changes. */
  method PatchStatus(db: Db, shop: Id, id: Id, status: Option<string>) returns (r: Result<FormattedOrder>)
    requires db.Valid()
    modifies db`orders
    ensures db.Valid()
    ensures !(status.Some? && status.value in OrderStatuses) ==> r == Err(400, "Invalid status") && db.orders == old(db.orders)
    ensures status.Some? && status.value in OrderStatuses && First(old(db.orders), OrderAt, Scoped(id, shop)).None? ==>
              r == Err(404, "Order not found") && db.orders == old(db.orders)
    ensures r.Ok? <==> status.Some? && status.value in OrderStatuses && First(old(db.orders), OrderAt, Scoped(id, shop)).Some?
    ensures r.Ok? ==> var k := First(old(db.orders), OrderAt, Scoped(id, shop)).value;
                      var o := old(db.orders)[k].val.(status := status.value);
                      && db.orders == old(db.orders)[k := Doc(id, o)]
                      && r.value == FormatOrder(Doc(id, o), db.customers)
  {
    if !(status.Some? && status.value in OrderStatuses) {
      return Err(400, "Invalid status");
    }
    var k := First(db.orders, OrderAt, Scoped(id, shop));
    if k.None? {
      return Err(404, "Order not found");
    }
    var o := db.orders[k.value].val.(status := status.value);
    db.UpdateOrderAt(k.value, o);
    r := Ok(FormatOrder(Doc(id, o), db.customers));
  }

  /** DELETE /:id: only an order of the caller's shop is removed; otherwise 404 and nothing
      changes. */
  method DeleteOrder(db: Db, shop: Id, id: Id) returns (r: Result<()>)
    requires db.Valid()
    modifies db`orders
    ensures db.Valid()
    ensures r.Err? <==> forall d :: d in old(db.orders) ==> !OrderAt(d, Scoped(id, shop))
    ensures r.Err? ==> r == Err(404, "Order not found") && db.orders == old(db.orders)
    ensures r.Ok? ==> var k := First(old(db.orders), OrderAt, Scoped(id, shop)).value;
                      db.orders == RemoveAt(old(db.orders), k) && old(db.orders)[k].val.shop == Some(shop)
    ensures forall d :: d in old(db.orders) && d.val.shop != Some(shop) ==> d in db.orders
  {
    var k := First(db.orders, OrderAt, Scoped(id, shop));
    if k.None? {
      return Err(404, "Order not found");
    }
    ghost var before := db.orders;
    db.RemoveOrderAt(k.value);
    forall d | d in before && d.val.shop != Some(shop) ensures d in db.orders {
      RemoveAtKeeps(before, k.value, d);
    }
    r := Ok(());
  }
}
