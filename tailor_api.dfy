/** routes/api/tailor.js: what a signed-in tailor sees and changes. Every query is scoped
    to the tailor's shop and to the orders assigned to that tailor. */
module TailorApi {
  import opened Basics
  import opened Collections
  import opened OrderModel
  import opened CustomerModel
  import opened Store
  import opened Views

  /** The caller: the shop and the tailor of the token. */
  datatype TailorScope = TailorScope(shop: Id, tailor: Id)

  /** `{ isActive: true, shop, assignedTailor }`. */
  predicate OnBoard(d: Doc<Order>, q: TailorScope)
  {
    d.val.isActive && d.val.shop == Some(q.shop) && d.val.assignedTailor == Some(q.tailor)
  }

  /** `{ _id, shop, assignedTailor }`: inactive orders are reachable by id. */
  predicate Assigned(d: Doc<Order>, q: (Id, TailorScope))
  {
    d.id == q.0 && d.val.shop == Some(q.1.shop) && d.val.assignedTailor == Some(q.1.tailor)
  }

  /** An order on the tailor's board that holds the given status. */
  predicate OnBoardWith(d: Doc<Order>, p: (TailorScope, string))
  {
    OnBoard(d, p.0) && d.val.status == p.1
  }

  /** An order on the tailor's board that is cutting, stitching or in its final touches. */
  predicate OnBoardInProgress(d: Doc<Order>, q: TailorScope)
  {
    OnBoard(d, q) && d.val.status in InProgressStatuses
  }

  /** One line of the dashboard list. */
  datatype BoardLine = BoardLine(id: Id, status: string, statusIndex: int, customer: Option<CustomerRef>)

  function Line(d: Doc<Order>, customers: seq<Doc<Customer>>): BoardLine
  {
    BoardLine(d.id, d.val.status, StatusIndex(d.val.status), Populate(customers, d.val.customer))
  }

  datatype Board = Board(stats: WorkStats, orders: seq<BoardLine>)

  /** GET /dashboard: the counters over the tailor's active orders, and those orders newest
      first. */
  function Dashboard(orders: seq<Doc<Order>>, customers: seq<Doc<Customer>>, q: TailorScope): (r: Board)
    ensures r.stats.totalOrders == Count(orders, OnBoard, q)
    ensures r.stats.readyForPickup == Count(orders, OnBoardWith, (q, "Ready for Pickup"))
    ensures r.stats.inProgress == Count(orders, OnBoardInProgress, q)
    ensures r.stats.readyForPickup + r.stats.inProgress <= r.stats.totalOrders
    ensures |r.orders| == r.stats.totalOrders
    ensures forall i :: 0 <= i < |r.orders| ==> exists d :: d in orders && OnBoard(d, q) && r.orders[i] == Line(d, customers)
    ensures forall d :: d in orders && OnBoard(d, q) ==> Line(d, customers) in r.orders
    ensures InCreationOrder(orders) ==> forall i, j :: 0 <= i < j < |r.orders| ==> r.orders[i].id > r.orders[j].id
  {
    BoardCounters(orders, q);
    LinesNewestFirst(orders, customers, q);
    ProjectedMatches(orders, OnBoard, q, Line, customers);
    Board(StatusStats(Select(orders, OnBoard, q)), MapAll(NewestFirst(orders, OnBoard, q), Line, customers))
  }

  /** The lines of the board list the orders from the newest down. */
  lemma LinesNewestFirst(orders: seq<Doc<Order>>, customers: seq<Doc<Customer>>, q: TailorScope)
    ensures var r := MapAll(NewestFirst(orders, OnBoard, q), Line, customers);
            InCreationOrder(orders) ==> forall i, j :: 0 <= i < j < |r| ==> r[i].id > r[j].id
  {
    ProjectedDescending(orders, OnBoard, q, Line, customers, (l: BoardLine) => l.id);
  }

  /** The counters over the tailor's board count the board's orders that hold the status in
      question. */
  lemma BoardCounters(orders: seq<Doc<Order>>, q: TailorScope)
    ensures var st := StatusStats(Select(orders, OnBoard, q));
            && st.totalOrders == Count(orders, OnBoard, q)
            && st.readyForPickup == Count(orders, OnBoardWith, (q, "Ready for Pickup"))
            && st.inProgress == Count(orders, OnBoardInProgress, q)
            && st.readyForPickup + st.inProgress <= st.totalOrders
  {
    StatsBounded(Select(orders, OnBoard, q));
    SelectSelect(orders, OnBoard, q, HasStatus, "Ready for Pickup", OnBoardWith, (q, "Ready for Pickup"));
    SelectSelect(orders, OnBoard, q, InProgress, (), OnBoardInProgress, q);
  }

  /** The order as GET /orders/:id reports it: its id and status, the fields the route
      computes, and the populated customer document. */
  datatype Detail = Detail(id: Id, status: string, statusIndex: int, balanceDue: real, readyPhotoUrl: Option<string>,
                           customer: Option<Doc<Customer>>)

  /** GET /orders/:id: 404 unless the order is in the tailor's shop and assigned to the
      tailor. */
  function OrderDetail(orders: seq<Doc<Order>>, customers: seq<Doc<Customer>>, q: TailorScope, id: Id): (r: Result<Detail>)
    ensures r.Err? <==> forall d :: d in orders ==> !Assigned(d, (id, q))
    ensures r.Err? ==> r == Err(404, "Order not found")
    ensures r.Ok? ==> exists d :: d in orders && Assigned(d, (id, q))
                                  && r.value.id == d.id && r.value.status == d.val.status
                                  && r.value.statusIndex == StatusIndex(d.val.status)
                                  && r.value.balanceDue == BalanceDue(d.val)
                                  && r.value.readyPhotoUrl == PhotoOrNull(d.val)
                                  && (r.value.customer.None? <==> forall c :: c in customers ==> c.id != d.val.customer)
                                  && (r.value.customer.Some? ==> r.value.customer.value in customers
                                                                 && r.value.customer.value.id == d.val.customer)
  {
    var k := First(orders, Assigned, (id, q));
    if k.None? then Err(404, "Order not found")
    else
      var d := orders[k.value];
      Ok(Detail(id, d.val.status, StatusIndex(d.val.status), BalanceDue(d.val), PhotoOrNull(d.val),
                Referenced(customers, d.val.customer)))
  }

  // ---------------------------------------------------------------- status PATCH

  /** The `update` object of the PATCH: the status, and the photo when one is sent. */
  function StatusUpdate(o: Order, status: string, photo: Option<string>): (r: Order)
    ensures r.status == status
    ensures r.readyPhotoUrl == if Given(photo) then photo else o.readyPhotoUrl
    ensures r.(status := o.status, readyPhotoUrl := o.readyPhotoUrl) == o
  {
    if Given(photo) then o.(status := status, readyPhotoUrl := photo) else o.(status := status)
  }

  /** The update leaves the indexed fields alone, and a valid order stays valid. */
  lemma StatusUpdateKeeps(o: Order, status: string, photo: Option<string>)
    requires status in OrderStatuses
    ensures OrderKey(StatusUpdate(o, status, photo)) == OrderKey(o)
    ensures ValidOrder(o) ==> ValidOrder(StatusUpdate(o, status, photo))
  {
  }

  /** The two checks of the body, in order, each answered with 400 and its message: a
      status outside the five, then 'Ready for Pickup' without a photo. */
  function CheckStatus(status: Option<string>, photo: Option<string>): (r: Option<string>)
    ensures r.None? <==> status.Some? && status.value in OrderStatuses
                         && (status.value == "Ready for Pickup" ==> Given(photo))
    ensures !(status.Some? && status.value in OrderStatuses) ==> r == Some("Invalid status")
  {
    if !(status.Some? && status.value in OrderStatuses) then Some("Invalid status")
    else if status.value == "Ready for Pickup" && !Given(photo) then Some("Photo is required for Ready for Pickup status")
    else None
  }

  /** A photo is always there once an order is marked ready by this route. */
  lemma ReadyHasPhoto(o: Order, status: Option<string>, photo: Option<string>)
    requires CheckStatus(status, photo).None? && status == Some("Ready for Pickup")
    ensures Given(StatusUpdate(o, status.value, photo).readyPhotoUrl)
  {
  }

  datatype StatusReply = StatusReply(id: Id, status: string, statusIndex: int, readyPhotoUrl: Option<string>)

  /** PATCH /orders/:id/status. */
  method PatchStatus(db: Db, q: TailorScope, id: Id, status: Option<string>, photo: Option<string>) returns (r: Result<StatusReply>)
    requires db.Valid()
    modifies db`orders
    ensures db.Valid()
    ensures CheckStatus(status, photo).Some? ==> r == Err(400, CheckStatus(status, photo).value) && db.orders == old(db.orders)
    ensures CheckStatus(status, photo).None? && First(old(db.orders), Assigned, (id, q)).None? ==>
              r == Err(404, "Order not found") && db.orders == old(db.orders)
    ensures r.Ok? <==> CheckStatus(status, photo).None? && First(old(db.orders), Assigned, (id, q)).Some?
    ensures r.Ok? ==> var k := First(old(db.orders), Assigned, (id, q)).value;
                      var o := StatusUpdate(old(db.orders)[k].val, status.value, photo);
                      && db.orders == old(db.orders)[k := Doc(id, o)]
                      && r.value == StatusReply(id, o.status, StatusIndex(o.status), PhotoOrNull(o))
  {
    var check := CheckStatus(status, photo);
    if check.Some? {
      return Err(400, check.value);
    }
    var k := First(db.orders, Assigned, (id, q));
    if k.None? {
      return Err(404, "Order not found");
    }
    var o := StatusUpdate(db.orders[k.value].val, status.value, photo);
    StatusUpdateKeeps(db.orders[k.value].val, status.value, photo);
    db.UpdateOrderAt(k.value, o);
    r := Ok(StatusReply(id, o.status, StatusIndex(o.status), PhotoOrNull(o)));
  }

  // ---------------------------------------------------------------- measurements PUT

  datatype MeasurementsReply = MeasurementsReply(id: Id, name: string, measurements: seq<Measurement>)

  /** PUT /customers/:id/measurements: the whole list is replaced by the one sent (none
      sent: the empty list), and the customer is saved with its schema checks. */
  method PutMeasurements(db: Db, shop: Id, id: Id, measurements: Option<seq<Measurement>>) returns (r: Result<MeasurementsReply>)
    requires db.Valid()
    modifies db`customers
    ensures db.Valid()
    ensures First(old(db.customers), CustomerAt, Scoped(id, shop)).None? ==>
              r == Err(404, "Customer not found") && db.customers == old(db.customers)
    ensures First(old(db.customers), CustomerAt, Scoped(id, shop)).Some? ==>
              var k := First(old(db.customers), CustomerAt, Scoped(id, shop)).value;
              var c := old(db.customers)[k].val.(measurements := CastMeasurements(if measurements.Some? then measurements.value else []));
              var w := SaveAt(old(db.customers), CustomerKey, "phone", ValidCustomer, k, c);
              && db.customers == w.docs
              && (w.error.Some? ==> r == Err(500, "Server error"))
              && (w.error.None? ==> r == Ok(MeasurementsReply(id, c.name, c.measurements)))
  {
    var k := First(db.customers, CustomerAt, Scoped(id, shop));
    if k.None? {
      return Err(404, "Customer not found");
    }
    var c := db.customers[k.value].val.(measurements := CastMeasurements(if measurements.Some? then measurements.value else []));
    var e := db.SaveCustomerAt(k.value, c);
    if e.Some? {
      return Err(500, "Server error");
    }
    r := Ok(MeasurementsReply(id, c.name, c.measurements));
  }

  /** Sending no list clears the measurements of a valid customer, and the save succeeds. */
  lemma NoListClears(c: Customer)
    requires ValidCustomer(c)
    ensures ValidCustomer(c.(measurements := CastMeasurements([])))
    ensures CastMeasurements([]) == []
  {
  }
}
