/** routes/orders.js: the legacy, server-rendered order pages. None of its queries looks at
    the shop, and the create path builds an order without one. Failures answer with a flash
    message and a redirect (code 302), except the status PATCH, which answers JSON. */
module OrderRoutes {
  import opened Basics
  import opened Collections
  import opened OrderModel
  import opened CustomerModel
  import opened Store
  import opened Views

  // ---------------------------------------------------------------- list

  /** `{ isActive: true, status? }`, across all shops. */
  predicate LegacyListed(d: Doc<Order>, status: Option<string>)
  {
    d.val.isActive && (status.None? || d.val.status == status.value)
  }

  /** The status filter applies unless it is absent, empty or 'all'; it is not checked
      against the five statuses. */
  function StatusFilter(status: Option<string>): (r: Option<string>)
    ensures r.Some? <==> Given(status) && status.value != "all"
    ensures r.Some? ==> r == status
  {
    if Given(status) && status.value != "all" then status else None
  }

  /** GET /: the active orders, newest first. */
  function ListOrders(orders: seq<Doc<Order>>, status: Option<string>): (r: seq<Doc<Order>>)
    ensures |r| == Count(orders, LegacyListed, StatusFilter(status))
    ensures forall i :: 0 <= i < |r| ==> r[i] in orders && r[i].val.isActive
    ensures forall i :: 0 <= i < |r| ==> StatusFilter(status).Some? ==> r[i].val.status == status.value
    ensures forall d :: d in orders && LegacyListed(d, StatusFilter(status)) ==> d in r
    ensures InCreationOrder(orders) ==> forall i, j :: 0 <= i < j < |r| ==> r[i].id > r[j].id
  {
    NewestFirstDescending(orders, LegacyListed, StatusFilter(status));
    NewestFirst(orders, LegacyListed, StatusFilter(status))
  }

  // ---------------------------------------------------------------- create

  /** The posted form; `customer` is None when it is missing or blank after trimming. */
  datatype LegacyOrderForm = LegacyOrderForm(customer: Option<Id>, garmentType: Option<string>, description: Option<string>,
                                             price: Parsed<real>, advancePaid: Parsed<real>, dueDate: Parsed<Date>,
                                             status: Option<string>)

  /** `!garmentType || garmentType.trim() === ''`. */
  predicate BlankText(t: Option<string>)
  {
    Trim(OrElse(t, "")) == ""
  }

  /** The five checks of POST /, in order, then the order the route builds: no shop, the
      parsed numbers (0 when empty), the due date (null when empty) and the status
      (`'Order Placed'` when empty). */
  function CreateChecks(f: LegacyOrderForm, customers: seq<Doc<Customer>>, number: string): (r: Result<Order>)
    ensures f.customer.None? ==> r == Err(302, "Please select a customer")
    ensures f.customer.Some? && BlankText(f.garmentType) ==> r == Err(302, "Please select a garment type")
    ensures f.customer.Some? && !BlankText(f.garmentType) && First(customers, HasId, f.customer.value).None? ==>
              r == Err(302, "Selected customer not found")
    ensures f.customer.Some? && !BlankText(f.garmentType) && First(customers, HasId, f.customer.value).Some?
            && (f.price.Invalid? || f.advancePaid.Invalid?) ==>
              r == Err(302, "Price and advance paid must be valid numbers")
    ensures f.customer.Some? && !BlankText(f.garmentType) && First(customers, HasId, f.customer.value).Some?
            && !f.price.Invalid? && !f.advancePaid.Invalid? && f.dueDate.Invalid? ==>
              r == Err(302, "Invalid due date")
    ensures r.Ok? <==> f.customer.Some? && !BlankText(f.garmentType) && First(customers, HasId, f.customer.value).Some?
                       && !f.price.Invalid? && !f.advancePaid.Invalid? && !f.dueDate.Invalid?
    ensures r.Ok? ==> var o := r.value;
              && o.shop.None? && o.isActive && o.customer == f.customer.value
              && o.garmentType == f.garmentType.value && o.orderNumber == Some(number)
              && o.description == Trim(OrElse(f.description, ""))
              && o.price == (if f.price.Value? then f.price.v else 0.0)
              && o.advancePaid == (if f.advancePaid.Value? then f.advancePaid.v else 0.0)
              && o.dueDate == (if f.dueDate.Value? then Some(f.dueDate.v) else None)
              && o.status == OrElse(f.status, "Order Placed")
  {
    if f.customer.None? then Err(302, "Please select a customer")
    else if BlankText(f.garmentType) then Err(302, "Please select a garment type")
    else if First(customers, HasId, f.customer.value).None? then Err(302, "Selected customer not found")
    else
      var price, advance := ParsedOr(f.price, 0.0), ParsedOr(f.advancePaid, 0.0);
      if price.None? || advance.None? then Err(302, "Price and advance paid must be valid numbers")
      else
        var due := DateOr(f.dueDate, None);
        if due.None? then Err(302, "Invalid due date")
        else
          Ok(NewOrder(f.customer.value, f.garmentType.value, None).(
               orderNumber := Some(number), description := Trim(OrElse(f.description, "")),
               price := price.value, advancePaid := advance.value, dueDate := due.value,
               status := OrElse(f.status, "Order Placed")))
  }

  /** POST /: the checks, then `order.save()` on an order without a shop, which the schema
      refuses. Whatever is posted, no order is stored and the answer is a redirect. */
  method CreateOrder(db: Db, f: LegacyOrderForm, timestamp: nat, random: nat) returns (r: Result<Id>)
    requires db.Valid()
    modifies db`orders, db`nextId
    ensures db.Valid()
    ensures db.orders == old(db.orders)
    ensures r.Err? && r.code == 302
    ensures var c := CreateChecks(f, db.customers, "ORD-" + Decimal(timestamp) + "-" + Decimal(random));
            && (c.Err? ==> r == Err(302, c.message))
            && (c.Ok? ==> r == Err(302, "Validation error"))
  {
    var checked := CreateChecks(f, db.customers, "ORD-" + Decimal(timestamp) + "-" + Decimal(random));
    if checked.Err? {
      return Err(302, checked.message);
    }
    NoShopNoSave(checked.value);
    var e := db.InsertOrder(checked.value);
    assert e == Some(ValidationFailed);
    r := Err(302, "Validation error");
  }

  // ---------------------------------------------------------------- update

  /** The posted edit form; `None` and `Absent` are fields left empty or not sent. */
  datatype LegacyEdit = LegacyEdit(garmentType: Option<string>, description: Option<string>,
                                   price: Parsed<real>, advancePaid: Parsed<real>, dueDate: Parsed<Date>,
                                   status: Option<string>)

  /** The order after the six reassignments, or None when a price, an advance or a due date
      does not cast (the save then throws). */
  function LegacyMerge(o: Order, e: LegacyEdit): (r: Option<Order>)
    ensures r.None? <==> e.price.Invalid? || e.advancePaid.Invalid? || e.dueDate.Invalid?
  {
    var price, advance, due := ParsedOr(e.price, o.price), ParsedOr(e.advancePaid, o.advancePaid), DateOr(e.dueDate, o.dueDate);
    if price.None? || advance.None? || due.None? then None
    else
      Some(o.(garmentType := OrElse(e.garmentType, o.garmentType), description := Trim(OrElse(e.description, "")),
              price := price.value, advancePaid := advance.value, dueDate := due.value,
              status := OrElse(e.status, o.status)))
  }

  /** Every field but the description keeps its old value when left empty; the description
      is reset to '' instead. */
  lemma LegacyMergeFields(o: Order, e: LegacyEdit)
    requires LegacyMerge(o, e).Some?
    ensures var n := LegacyMerge(o, e).value;
            && n.garmentType == (if Given(e.garmentType) then e.garmentType.value else o.garmentType)
            && n.description == (if Given(e.description) then Trim(e.description.value) else "")
            && n.price == (if e.price.Value? then e.price.v else o.price)
            && n.advancePaid == (if e.advancePaid.Value? then e.advancePaid.v else o.advancePaid)
            && n.dueDate == (if e.dueDate.Value? then Some(e.dueDate.v) else o.dueDate)
            && n.status == (if Given(e.status) then e.status.value else o.status)
            && n.(garmentType := o.garmentType, description := o.description, price := o.price,
                  advancePaid := o.advancePaid, dueDate := o.dueDate, status := o.status) == o
  {
    assert Trim("") == "";
  }

  /** So an empty form keeps the order but clears its description. */
  lemma EmptyEditClearsDescription(o: Order)
    ensures LegacyMerge(o, LegacyEdit(None, None, Absent, Absent, Absent, None)) == Some(o.(description := ""))
  {
    assert Trim("") == "";
  }

  /** The six reassignments of the PUT, one field at a time. */
  method ApplyLegacyEdit(o: Order, e: LegacyEdit) returns (n: Order, castFailed: bool)
    ensures castFailed <==> LegacyMerge(o, e).None?
    ensures !castFailed ==> n == LegacyMerge(o, e).value
  {
    var garmentType := OrElse(e.garmentType, o.garmentType);
    var description := Trim(OrElse(e.description, ""));
    var price, advancePaid, dueDate := o.price, o.advancePaid, o.dueDate;
    castFailed := false;
    match e.price {
      case Value(v) => price := v;
      case Invalid => castFailed := true;
      case _ =>
    }
    match e.advancePaid {
      case Value(v) => advancePaid := v;
      case Invalid => castFailed := true;
      case _ =>
    }
    match e.dueDate {
      case Value(v) => dueDate := Some(v);
      case Invalid => castFailed := true;
      case _ =>
    }
    var status := OrElse(e.status, o.status);
    n := o.(garmentType := garmentType, description := description, price := price,
            advancePaid := advancePaid, dueDate := dueDate, status := status);
  }

  /** PUT /:id: the order is found by id alone; the edited order is saved with the schema
      checks; every failure is a redirect. */
  method PutOrder(db: Db, id: Id, e: LegacyEdit) returns (r: Result<Id>)
    requires db.Valid()
    modifies db`orders
    ensures db.Valid()
    ensures First(old(db.orders), HasId, id).None? ==> r == Err(302, "Order not found") && db.orders == old(db.orders)
    ensures First(old(db.orders), HasId, id).Some? ==>
              var k := First(old(db.orders), HasId, id).value;
              var n := LegacyMerge(old(db.orders)[k].val, e);
              && (n.None? ==> r == Err(302, "Failed to update order") && db.orders == old(db.orders))
              && (n.Some? ==>
                    var w := SaveAt(old(db.orders), OrderKey, "orderNumber", ValidOrder, k, n.value);
                    && db.orders == w.docs
                    && (w.error.Some? ==> r == Err(302, "Failed to update order"))
                    && (w.error.None? ==> r == Ok(id)))
  {
    var k := First(db.orders, HasId, id);
    if k.None? {
      return Err(302, "Order not found");
    }
    var o, castFailed := ApplyLegacyEdit(db.orders[k.value].val, e);
    if castFailed {
      return Err(302, "Failed to update order");
    }
    var err := db.SaveOrderAt(k.value, o);
    if err.Some? {
      return Err(302, "Failed to update order");
    }
    r := Ok(id);
  }

  // ---------------------------------------------------------------- status PATCH and delete

  /** PATCH /:id/status: a status outside the five is 400, an unknown id 404; otherwise only
      `status` changes, whatever the order's shop. */
  method PatchStatus(db: Db, id: Id, status: Option<string>) returns (r: Result<Order>)
    requires db.Valid()
    modifies db`orders
    ensures db.Valid()
    ensures !(status.Some? && status.value in OrderStatuses) ==> r == Err(400, "Invalid status") && db.orders == old(db.orders)
    ensures status.Some? && status.value in OrderStatuses && First(old(db.orders), HasId, id).None? ==>
              r == Err(404, "Order not found") && db.orders == old(db.orders)
    ensures r.Ok? <==> status.Some? && status.value in OrderStatuses && First(old(db.orders), HasId, id).Some?
    ensures r.Ok? ==> var k := First(old(db.orders), HasId, id).value;
                      && r.value == old(db.orders)[k].val.(status := status.value)
                      && db.orders == old(db.orders)[k := Doc(id, r.value)]
  {
    if !(status.Some? && status.value in OrderStatuses) {
      return Err(400, "Invalid status");
    }
    var k := First(db.orders, HasId, id);
    if k.None? {
      return Err(404, "Order not found");
    }
    var o := db.orders[k.value].val.(status := status.value);
    db.UpdateOrderAt(k.value, o);
    r := Ok(o);
  }

  /** DELETE /:id: removes the order with that id, whatever its shop. */
  method DeleteOrder(db: Db, id: Id) returns (r: Result<()>)
    requires db.Valid()
    modifies db`orders
    ensures db.Valid()
    ensures r.Err? <==> forall d :: d in old(db.orders) ==> d.id != id
    ensures r.Err? ==> r == Err(302, "Order not found") && db.orders == old(db.orders)
    ensures r.Ok? ==> db.orders == RemoveAt(old(db.orders), First(old(db.orders), HasId, id).value)
    ensures forall d :: d in db.orders ==> d.id != id
  {
    var k := First(db.orders, HasId, id);
    if k.None? {
      return Err(302, "Order not found");
    }
    RemovedIdGone(db.orders, db.nextId, OrderKey, k.value);
    db.RemoveOrderAt(k.value);
    r := Ok(());
  }
}
