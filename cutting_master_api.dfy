/** routes/api/cutting-master.js: what a signed-in cutting master sees and changes. Every
    order query is scoped to the cutting master's shop and to the orders assigned to them. */
module CuttingMasterApi {
  import opened Basics
  import opened Collections
  import opened OrderModel
  import opened CustomerModel
  import opened StaffModel
  import opened Store
  import opened Views
  import opened Sorting

  /** The caller: the shop and the cutting master of the token. */
  datatype CutScope = CutScope(shop: Id, master: Id)

  /** `{ isActive: true, shop, assignedCuttingMaster }`. */
  predicate OnCutBoard(d: Doc<Order>, q: CutScope)
  {
    d.val.isActive && d.val.shop == Some(q.shop) && d.val.assignedCuttingMaster == Some(q.master)
  }

  /** `{ _id, shop, assignedCuttingMaster }`. */
  predicate CutAssigned(d: Doc<Order>, q: (Id, CutScope))
  {
    d.id == q.0 && d.val.shop == Some(q.1.shop) && d.val.assignedCuttingMaster == Some(q.1.master)
  }

  /** `o.cuttingStatus === 'Done'`. */
  predicate CutDone(d: Doc<Order>, u: ())
  {
    d.val.cuttingStatus == Some("Done")
  }

  /** `o.cuttingStatus !== 'Done'`: a missing status is pending. */
  predicate CutPending(d: Doc<Order>, u: ())
  {
    d.val.cuttingStatus != Some("Done")
  }

  /** `o.cuttingStatus || 'Pending'`: what the lists and the detail show. */
  function CutDisplay(o: Order): (r: string)
    ensures r == "Pending" || (o.cuttingStatus.Some? && r == o.cuttingStatus.value)
    ensures o.cuttingStatus.None? || o.cuttingStatus == Some("") ==> r == "Pending"
  {
    if o.cuttingStatus.Some? && o.cuttingStatus.value != "" then o.cuttingStatus.value else "Pending"
  }

  /** What is shown agrees with what is counted: 'Done' exactly for the orders counted as
      done, and for a valid order one of the two cutting statuses. */
  lemma DisplayMatchesCount(d: Doc<Order>)
    ensures CutDisplay(d.val) == "Done" <==> CutDone(d, ())
    ensures CutDisplay(d.val) != "Done" <==> CutPending(d, ())
    ensures ValidOrder(d.val) ==> CutDisplay(d.val) in CuttingStatuses
  {
  }

  /** The `stats` object of the dashboard. */
  datatype CutStats = CutStats(totalOrders: nat, cuttingPending: nat, cuttingDone: nat)

  /** An order on the caller's board whose cutting is done. */
  predicate OnCutBoardDone(d: Doc<Order>, q: CutScope)
  {
    OnCutBoard(d, q) && CutDone(d, ())
  }

  /** An order on the caller's board whose cutting is not done (a missing status included). */
  predicate OnCutBoardPending(d: Doc<Order>, q: CutScope)
  {
    OnCutBoard(d, q) && CutPending(d, ())
  }

  /** Every listed order is either pending or done, never both: done counts the orders
      whose cutting status is 'Done', pending all the others. */
  function CuttingStats(list: seq<Doc<Order>>): (r: CutStats)
    ensures r.totalOrders == |list|
    ensures r.cuttingDone == Count(list, CutDone, ())
    ensures r.cuttingPending == Count(list, CutPending, ())
    ensures r.cuttingPending + r.cuttingDone == r.totalOrders
  {
    ComplementCounts(list, CutPending, (), CutDone, ());
    CutStats(|list|, Count(list, CutPending, ()), Count(list, CutDone, ()))
  }

  /** One line of the dashboard list. */
  datatype CutLine = CutLine(id: Id, orderNumber: Option<string>, garmentType: string, status: string,
                             cuttingStatus: string, statusIndex: int, dueDate: Option<Date>,
                             customer: Option<CustomerRef>)

  function Line(d: Doc<Order>, customers: seq<Doc<Customer>>): CutLine
  {
    CutLine(d.id, d.val.orderNumber, d.val.garmentType, d.val.status, CutDisplay(d.val),
            StatusIndex(d.val.status), d.val.dueDate, Populate(customers, d.val.customer))
  }

  datatype CutBoard = CutBoard(stats: CutStats, orders: seq<CutLine>)

  /** GET /dashboard: the cutting counters over the cutting master's active orders, and those
      orders newest first. */
  function Dashboard(orders: seq<Doc<Order>>, customers: seq<Doc<Customer>>, q: CutScope): (r: CutBoard)
    ensures r.stats.totalOrders == Count(orders, OnCutBoard, q)
    ensures r.stats.cuttingDone == Count(orders, OnCutBoardDone, q)
    ensures r.stats.cuttingPending == Count(orders, OnCutBoardPending, q)
    ensures r.stats.cuttingPending + r.stats.cuttingDone == r.stats.totalOrders
    ensures |r.orders| == r.stats.totalOrders
    ensures forall i :: 0 <= i < |r.orders| ==> exists d :: d in orders && OnCutBoard(d, q) && r.orders[i] == Line(d, customers)
    ensures forall d :: d in orders && OnCutBoard(d, q) ==> Line(d, customers) in r.orders
    ensures InCreationOrder(orders) ==> forall i, j :: 0 <= i < j < |r.orders| ==> r.orders[i].id > r.orders[j].id
  {
    BoardCounters(orders, q);
    LinesNewestFirst(orders, customers, q);
    ProjectedMatches(orders, OnCutBoard, q, Line, customers);
    CutBoard(CuttingStats(Select(orders, OnCutBoard, q)), MapAll(NewestFirst(orders, OnCutBoard, q), Line, customers))
  }

  /** The lines of the board list the orders from the newest down. */
  lemma LinesNewestFirst(orders: seq<Doc<Order>>, customers: seq<Doc<Customer>>, q: CutScope)
    ensures var r := MapAll(NewestFirst(orders, OnCutBoard, q), Line, customers);
            InCreationOrder(orders) ==> forall i, j :: 0 <= i < j < |r| ==> r[i].id > r[j].id
  {
    ProjectedDescending(orders, OnCutBoard, q, Line, customers, (l: CutLine) => l.id);
  }

  /** The cutting counters over the cutting master's board count the board's orders whose
      cutting is done or pending. */
  lemma BoardCounters(orders: seq<Doc<Order>>, q: CutScope)
    ensures var st := CuttingStats(Select(orders, OnCutBoard, q));
            && st.totalOrders == Count(orders, OnCutBoard, q)
            && st.cuttingDone == Count(orders, OnCutBoardDone, q)
            && st.cuttingPending == Count(orders, OnCutBoardPending, q)
  {
    SelectSelect(orders, OnCutBoard, q, CutDone, (), OnCutBoardDone, q);
    SelectSelect(orders, OnCutBoard, q, CutPending, (), OnCutBoardPending, q);
  }

  /** The order as GET /orders/:id reports it: its id and status, the fields the route
      computes, and the populated customer document. */
  datatype CutDetail = CutDetail(id: Id, status: string, cuttingStatus: string, statusIndex: int, balanceDue: real,
                                 readyPhotoUrl: Option<string>, customer: Option<Doc<Customer>>)

  /** GET /orders/:id: 404 unless the order is in the shop and assigned to the caller. */
  function OrderDetail(orders: seq<Doc<Order>>, customers: seq<Doc<Customer>>, q: CutScope, id: Id): (r: Result<CutDetail>)
    ensures r.Err? <==> forall d :: d in orders ==> !CutAssigned(d, (id, q))
    ensures r.Err? ==> r == Err(404, "Order not found")
    ensures r.Ok? ==> exists d :: d in orders && CutAssigned(d, (id, q))
                                  && r.value.id == d.id && r.value.status == d.val.status
                                  && r.value.cuttingStatus == CutDisplay(d.val)
                                  && r.value.statusIndex == StatusIndex(d.val.status)
                                  && r.value.balanceDue == BalanceDue(d.val)
                                  && r.value.readyPhotoUrl == PhotoOrNull(d.val)
                                  && (r.value.customer.None? <==> forall c :: c in customers ==> c.id != d.val.customer)
                                  && (r.value.customer.Some? ==> r.value.customer.value in customers
                                                                 && r.value.customer.value.id == d.val.customer)
  {
    var k := First(orders, CutAssigned, (id, q));
    if k.None? then Err(404, "Order not found")
    else
      var d := orders[k.value];
      Ok(CutDetail(id, d.val.status, CutDisplay(d.val), StatusIndex(d.val.status), BalanceDue(d.val), PhotoOrNull(d.val),
                   Referenced(customers, d.val.customer)))
  }

  // ---------------------------------------------------------------- cutting-status PATCH

  datatype CutReply = CutReply(id: Id, cuttingStatus: string, status: string)

  /** Setting a cutting status leaves the indexed fields and the main status alone, and a
      valid order stays valid. */
  lemma CutUpdateKeeps(o: Order, cuttingStatus: string)
    requires cuttingStatus in CuttingStatuses
    ensures OrderKey(o.(cuttingStatus := Some(cuttingStatus))) == OrderKey(o)
    ensures StatusIndex(o.(cuttingStatus := Some(cuttingStatus)).status) == StatusIndex(o.status)
    ensures ValidOrder(o) ==> ValidOrder(o.(cuttingStatus := Some(cuttingStatus)))
  {
  }

  /** PATCH /orders/:id/cutting-status: 'Pending' or 'Done', else 400; an order outside the
      caller's scope is 404; otherwise only `cuttingStatus` changes. */
  method PatchCuttingStatus(db: Db, q: CutScope, id: Id, cuttingStatus: Option<string>) returns (r: Result<CutReply>)
    requires db.Valid()
    modifies db`orders
    ensures db.Valid()
    ensures !(cuttingStatus.Some? && cuttingStatus.value in CuttingStatuses) ==>
              r == Err(400, "Invalid cutting status. Must be Pending or Done.") && db.orders == old(db.orders)
    ensures cuttingStatus.Some? && cuttingStatus.value in CuttingStatuses && First(old(db.orders), CutAssigned, (id, q)).None? ==>
              r == Err(404, "Order not found") && db.orders == old(db.orders)
    ensures r.Ok? <==> cuttingStatus.Some? && cuttingStatus.value in CuttingStatuses && First(old(db.orders), CutAssigned, (id, q)).Some?
    ensures r.Ok? ==> var k := First(old(db.orders), CutAssigned, (id, q)).value;
                      var o := old(db.orders)[k].val;
                      && db.orders == old(db.orders)[k := Doc(id, o.(cuttingStatus := cuttingStatus))]
                      && r.value == CutReply(id, cuttingStatus.value, o.status)
  {
    if !(cuttingStatus.Some? && cuttingStatus.value in CuttingStatuses) {
      return Err(400, "Invalid cutting status. Must be Pending or Done.");
    }
    var k := First(db.orders, CutAssigned, (id, q));
    if k.None? {
      return Err(404, "Order not found");
    }
    var o := db.orders[k.value].val;
    CutUpdateKeeps(o, cuttingStatus.value);
    db.UpdateOrderAt(k.value, o.(cuttingStatus := cuttingStatus));
    r := Ok(CutReply(id, cuttingStatus.value, o.status));
  }

  // ---------------------------------------------------------------- assign-tailor PATCH

  datatype AssignReply = AssignReply(id: Id, assignedTailor: Id, tailorName: string)

  /** PATCH /orders/:id/assign-tailor: a tailor id is required (400), the tailor must belong
      to the caller's shop (404), the order must be in the caller's scope (404); then only
      `assignedTailor` changes. */
  method AssignTailor(db: Db, q: CutScope, id: Id, tailorId: Option<Id>) returns (r: Result<AssignReply>)
    requires db.Valid()
    modifies db`orders
    ensures db.Valid()
    ensures tailorId.None? ==> r == Err(400, "tailorId is required") && db.orders == old(db.orders)
    ensures tailorId.Some? && First(db.tailors, StaffAt, Scoped(tailorId.value, q.shop)).None? ==>
              r == Err(404, "Tailor not found") && db.orders == old(db.orders)
    ensures tailorId.Some? && First(db.tailors, StaffAt, Scoped(tailorId.value, q.shop)).Some?
            && First(old(db.orders), CutAssigned, (id, q)).None? ==>
              r == Err(404, "Order not found") && db.orders == old(db.orders)
    ensures r.Ok? <==> tailorId.Some? && First(db.tailors, StaffAt, Scoped(tailorId.value, q.shop)).Some?
                       && First(old(db.orders), CutAssigned, (id, q)).Some?
    ensures r.Ok? ==> var k := First(old(db.orders), CutAssigned, (id, q)).value;
                      var t := First(db.tailors, StaffAt, Scoped(tailorId.value, q.shop)).value;
                      && db.orders == old(db.orders)[k := Doc(id, old(db.orders)[k].val.(assignedTailor := tailorId))]
                      && r.value == AssignReply(id, tailorId.value, db.tailors[t].val.name)
                      && db.tailors[t].val.shop == Some(q.shop)
  {
    if tailorId.None? {
      return Err(400, "tailorId is required");
    }
    var t := First(db.tailors, StaffAt, Scoped(tailorId.value, q.shop));
    if t.None? {
      return Err(404, "Tailor not found");
    }
    var k := First(db.orders, CutAssigned, (id, q));
    if k.None? {
      return Err(404, "Order not found");
    }
    var o := db.orders[k.value].val;
    db.UpdateOrderAt(k.value, o.(assignedTailor := tailorId));
    r := Ok(AssignReply(id, tailorId.value, db.tailors[t.value].val.name));
  }

  /** Assigning a tailor keeps the order's status, cutting status and validity. */
  lemma AssignKeeps(o: Order, tailor: Id)
    ensures o.(assignedTailor := Some(tailor)).status == o.status
    ensures o.(assignedTailor := Some(tailor)).cuttingStatus == o.cuttingStatus
    ensures ValidOrder(o) <==> ValidOrder(o.(assignedTailor := Some(tailor)))
  {
  }

  // ---------------------------------------------------------------- tailor list

  function StaffName(d: Doc<Staff>): string
  {
    d.val.name
  }

  /** GET /tailors: the tailors of the caller's shop, by name. */
  function TailorList(tailors: seq<Doc<Staff>>, shop: Id): (r: seq<Doc<Staff>>)
    ensures SortedBy(r, StaffName)
    ensures forall d :: d in r ==> d in tailors && d.val.shop == Some(shop)
    ensures forall d :: d in tailors && d.val.shop == Some(shop) ==> d in r
    ensures |r| == Count(tailors, StaffOfShop, shop)
  {
    var list := Select(tailors, StaffOfShop, shop);
    var r := SortBy(list, StaffName);
    assert forall d :: d in r <==> d in multiset(r);
    assert forall d :: d in list <==> d in multiset(list);
    assert |r| == |multiset(r)| == |multiset(list)| == |list|;
    r
  }
}
