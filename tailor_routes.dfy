/** routes/tailor.js: the server-rendered tailor pages. None of these queries is scoped to a
    shop or to a tailor; page errors are flashed and redirected (302), the status PATCH
    answers JSON. */
module TailorRoutes {
  import opened Basics
  import opened Collections
  import opened OrderModel
  import opened CustomerModel
  import opened Store
  import opened Views

  // ---------------------------------------------------------------- dashboard

  /** `{ isActive: true }`, across every shop. */
  predicate Active(d: Doc<Order>, u: ())
  {
    d.val.isActive
  }

  /** An active order, of any shop, that holds the given status. */
  predicate ActiveWith(d: Doc<Order>, status: string)
  {
    d.val.isActive && d.val.status == status
  }

  /** An active order, of any shop, that is cutting, stitching or in its final touches. */
  predicate ActiveInProgress(d: Doc<Order>, u: ())
  {
    d.val.isActive && d.val.status in InProgressStatuses
  }

  /** An order of the list with its customer's name and phone. */
  datatype BoardLine = BoardLine(order: Doc<Order>, customer: Option<CustomerRef>)

  function Line(d: Doc<Order>, customers: seq<Doc<Customer>>): BoardLine
  {
    BoardLine(d, Populate(customers, d.val.customer))
  }

  datatype Board = Board(stats: WorkStats, orders: seq<BoardLine>)

  /** GET /dashboard: every active order, newest first, and the counters over them. */
  function Dashboard(orders: seq<Doc<Order>>, customers: seq<Doc<Customer>>): (r: Board)
    ensures r.stats.readyForPickup == Count(orders, ActiveWith, "Ready for Pickup")
    ensures r.stats.inProgress == Count(orders, ActiveInProgress, ())
    ensures r.stats.readyForPickup + r.stats.inProgress <= r.stats.totalOrders
    ensures |r.orders| == r.stats.totalOrders == Count(orders, Active, ())
    ensures forall i :: 0 <= i < |r.orders| ==> exists d :: d in orders && d.val.isActive && r.orders[i] == Line(d, customers)
    ensures forall d :: d in orders && d.val.isActive ==> Line(d, customers) in r.orders
    ensures InCreationOrder(orders) ==> forall i, j :: 0 <= i < j < |r.orders| ==> r.orders[i].order.id > r.orders[j].order.id
  {
    ActiveCounters(orders);
    LinesNewestFirst(orders, customers);
    ProjectedMatches(orders, Active, (), Line, customers);
    Board(StatusStats(Select(orders, Active, ())), MapAll(NewestFirst(orders, Active, ()), Line, customers))
  }

  /** The lines of the dashboard list the orders from the newest down. */
  lemma LinesNewestFirst(orders: seq<Doc<Order>>, customers: seq<Doc<Customer>>)
    ensures var r := MapAll(NewestFirst(orders, Active, ()), Line, customers);
            InCreationOrder(orders) ==> forall i, j :: 0 <= i < j < |r| ==> r[i].order.id > r[j].order.id
  {
    ProjectedDescending(orders, Active, (), Line, customers, (l: BoardLine) => l.order.id);
  }

  /** The counters over the active orders count the orders of every shop that are active
      and hold the status in question. */
  lemma ActiveCounters(orders: seq<Doc<Order>>)
    ensures var st := StatusStats(Select(orders, Active, ()));
            && st.totalOrders == Count(orders, Active, ())
            && st.readyForPickup == Count(orders, ActiveWith, "Ready for Pickup")
            && st.inProgress == Count(orders, ActiveInProgress, ())
            && st.readyForPickup + st.inProgress <= st.totalOrders
  {
    StatsBounded(Select(orders, Active, ()));
    SelectSelect(orders, Active, (), HasStatus, "Ready for Pickup", ActiveWith, "Ready for Pickup");
    SelectSelect(orders, Active, (), InProgress, (), ActiveInProgress, ());
  }

  // ---------------------------------------------------------------- order page

  /** The order page: the order, its customer document (null once deleted) and the
      position of its status on the progress bar. */
  datatype Detail = Detail(order: Doc<Order>, customer: Option<Doc<Customer>>, currentIndex: int)

  /** GET /orders/:id: any order by id; an unknown id is flashed back to the dashboard. */
  function OrderDetail(orders: seq<Doc<Order>>, customers: seq<Doc<Customer>>, id: Id): (r: Result<Detail>)
    ensures r.Err? <==> forall d :: d in orders ==> d.id != id
    ensures r.Err? ==> r == Err(302, "Order not found")
    ensures r.Ok? ==> r.value.order in orders && r.value.order.id == id
    ensures r.Ok? ==> -1 <= r.value.currentIndex < |OrderStatuses|
    ensures r.Ok? ==> (r.value.currentIndex == -1 <==> r.value.order.val.status !in OrderStatuses)
    ensures r.Ok? && r.value.currentIndex >= 0 ==> OrderStatuses[r.value.currentIndex] == r.value.order.val.status
    ensures r.Ok? ==> (r.value.customer.None? <==> forall c :: c in customers ==> c.id != r.value.order.val.customer)
    ensures r.Ok? && r.value.customer.Some? ==> r.value.customer.value in customers
                                                && r.value.customer.value.id == r.value.order.val.customer
  {
    var k := First(orders, HasId, id);
    if k.None? then Err(302, "Order not found")
    else
      var d := orders[k.value];
      Ok(Detail(d, Referenced(customers, d.val.customer), StatusIndex(d.val.status)))
  }

  // ---------------------------------------------------------------- status PATCH

  /** PATCH /orders/:id/status: a status outside the five (or none) is refused with 400,
      an unknown id with 404; otherwise only the status of that order changes. */
  method PatchStatus(db: Db, id: Id, status: Option<string>) returns (r: Result<string>)
    requires db.Valid()
    modifies db`orders
    ensures db.Valid()
    ensures !(status.Some? && status.value in OrderStatuses) ==> r == Err(400, "Invalid status") && db.orders == old(db.orders)
    ensures status.Some? && status.value in OrderStatuses && First(old(db.orders), HasId, id).None? ==>
              r == Err(404, "Order not found") && db.orders == old(db.orders)
    ensures r.Ok? <==> status.Some? && status.value in OrderStatuses && First(old(db.orders), HasId, id).Some?
    ensures r.Ok? ==> var k := First(old(db.orders), HasId, id).value;
                      && db.orders == old(db.orders)[k := Doc(id, old(db.orders)[k].val.(status := status.value))]
                      && r.value == status.value
  {
    if !(status.Some? && status.value in OrderStatuses) {
      return Err(400, "Invalid status");
    }
    var k := First(db.orders, HasId, id);
    if k.None? {
      return Err(404, "Order not found");
    }
    var o := db.orders[k.value].val.(status := status.value);
    db.UpdateOrderAt(k.value, o);
    r := Ok(status.value);
  }

  // ---------------------------------------------------------------- measurements

  /** GET /customers/:id/measurements/edit: the customer to edit, by id. */
  function EditMeasurements(customers: seq<Doc<Customer>>, id: Id): (r: Result<Doc<Customer>>)
    ensures r.Err? <==> forall d :: d in customers ==> d.id != id
    ensures r.Err? ==> r == Err(302, "Customer not found")
    ensures r.Ok? ==> r.value in customers && r.value.id == id
  {
    var k := First(customers, HasId, id);
    if k.None? then Err(302, "Customer not found") else Ok(customers[k.value])
  }

  /** The numeric inputs of the editor for one type, in the order the route reads them;
      `arm` is not a field of the schema. */
  const EditorFields: seq<string> := ["length", "chest", "shoulder", "waist", "arm", "neck", "hip", "thigh"]

  /** The name of the input of a field for a type: `chest_shirt`. */
  function InputName(field: string, mtype: string): string
  {
    field + "_" + mtype
  }

  /** A form field sent under one name: absent, sent once (a text), or sent several times
      (an array). */
  datatype FormList = Missing | Single(value: string) | Many(values: seq<string>)

  /** The body of the editor: the checked types, the numeric inputs by name (each the outcome
      of `parseFloat` on a text that is not empty) and the notes by name. */
  datatype MeasurementBody = MeasurementBody(types: FormList, numbers: map<string, Parsed<real>>, notes: map<string, string>)

  function NumberAt(b: MeasurementBody, name: string): Parsed<real>
  {
    if name in b.numbers then b.numbers[name] else Absent
  }

  /** The item built for one type: a field holds a number when its input parsed to one,
      and is null when its input is absent or empty; the notes default to the empty text. */
  function Entry(mtype: string, b: MeasurementBody): (r: Measurement)
    ensures r.mtype == mtype
    ensures forall f :: f in r.values <==> f in EditorFields && NumberAt(b, InputName(f, mtype)).Value?
  {
    var name := InputName("notes", mtype);
    Measurement(mtype,
                map f | f in EditorFields && NumberAt(b, InputName(f, mtype)).Value? :: NumberAt(b, InputName(f, mtype)).v,
                if name in b.notes then b.notes[name] else "")
  }

  /** Every numeric input of a schema field for this type parsed to a number: a `NaN` in a
      schema field fails the cast when the customer is saved, one in `arm` is dropped. */
  predicate NumbersCast(mtype: string, b: MeasurementBody)
  {
    forall f :: f in EditorFields && f in MeasurementFields ==> !NumberAt(b, InputName(f, mtype)).Invalid?
  }

  predicate AllCast(types: seq<string>, b: MeasurementBody)
  {
    forall i :: 0 <= i < |types| ==> NumbersCast(types[i], b)
  }

  /** The stored item of a type keeps the seven schema fields the editor sends, with the
      numbers sent, and never `arm`. */
  lemma StoredEntry(mtype: string, b: MeasurementBody)
    ensures var m := CastMeasurement(Entry(mtype, b));
            && m.mtype == mtype
            && (forall f :: f in m.values <==> f in EditorFields && f != "arm" && NumberAt(b, InputName(f, mtype)).Value?)
            && (forall f :: f in m.values ==> m.values[f] == NumberAt(b, InputName(f, mtype)).v)
  {
    ArmNotStored(Entry(mtype, b));
    assert forall f :: f in EditorFields && f != "arm" ==> f in MeasurementFields;
  }

  /** The `forEach` over the submitted types: one item per type, in the order sent, with no
      type skipped; `cast` says whether the save will accept their numbers. */
  method BuildEntries(types: seq<string>, b: MeasurementBody) returns (ms: seq<Measurement>, cast: bool)
    ensures |ms| == |types|
    ensures forall i :: 0 <= i < |types| ==> ms[i] == Entry(types[i], b)
    ensures cast <==> AllCast(types, b)
  {
    ms, cast := [], true;
    var i := 0;
    while i < |types|
      invariant 0 <= i <= |types|
      invariant |ms| == i
      invariant forall j :: 0 <= j < i ==> ms[j] == Entry(types[j], b)
      invariant cast <==> forall j :: 0 <= j < i ==> NumbersCast(types[j], b)
    {
      ms := ms + [Entry(types[i], b)];
      cast := cast && NumbersCast(types[i], b);
      i := i + 1;
    }
  }

  /** The types the route at routes/tailor.js:132 iterates over: only an array is read, so a
      single checked type (sent as a text) builds nothing. */
  function TypesAsWritten(l: FormList): (r: seq<string>)
    ensures l.Many? ==> r == l.values
    ensures !l.Many? ==> r == []
  {
    if l.Many? then l.values else []
  }

  /** The types normalised as routes/customers.js:61-64 does: a single text is a list of one. */
  function SubmittedTypes(l: FormList): (r: seq<string>)
    ensures l.Missing? ==> r == []
    ensures l.Single? ==> r == [l.value]
    ensures l.Many? ==> r == l.values
  {
    match l
    case Missing => []
    case Single(t) => [t]
    case Many(ts) => ts
  }

  /** As written, checking one type and saving wipes the customer's measurements. */
  lemma SingleTypeWiped(b: MeasurementBody)
    requires b.types == Single("shirt")
    ensures |TypesAsWritten(b.types)| == 0
    ensures CastMeasurements(MapAll(TypesAsWritten(b.types), Entry, b)) == []
  {
  }

  /** Normalised, every checked type keeps its item, the single one included; the two
      readings differ on every single type. */
  lemma SubmittedKeepsEveryType(l: FormList, b: MeasurementBody)
    ensures var ms := MapAll(SubmittedTypes(l), Entry, b);
            && |ms| == (match l case Missing => 0 case Single(_) => 1 case Many(ts) => |ts|)
            && (l.Single? ==> ms[0].mtype == l.value && TypesAsWritten(l) != SubmittedTypes(l))
            && (!l.Single? ==> TypesAsWritten(l) == SubmittedTypes(l))
  {
    if l.Single? {
      assert MapAll(SubmittedTypes(l), Entry, b)[0] == Entry(l.value, b);
    }
  }

  /** Replacing only the measurements of a valid customer by items of known types passes
      validation and keeps the phone index free: the save succeeds. */
  lemma ReplaceMeasurementsSaves(s: seq<Doc<Customer>>, next: nat, k: nat, ms: seq<Measurement>)
    requires Table(s, next, CustomerKey) && k < |s|
    requires ValidCustomer(s[k].val)
    requires forall i :: 0 <= i < |ms| ==> ms[i].mtype in MeasurementTypes
    ensures SaveAt(s, CustomerKey, "phone", ValidCustomer, k, s[k].val.(measurements := CastMeasurements(ms))).error.None?
  {
    var v := s[k].val.(measurements := CastMeasurements(ms));
    CastKeepsTypes(ms);
    assert ValidCustomer(v);
    assert CustomerKey(v) == CustomerKey(s[k].val);
    forall j | 0 <= j < |s| && j != k
      ensures CustomerKey(s[j].val) != CustomerKey(v)
    {
      if j < k {
        assert CustomerKey(s[j].val) != CustomerKey(s[k].val);
      }
    }
  }

  /** PUT /customers/:id/measurements: the list is cleared and rebuilt from the submitted
      types as the route reads them, an array only (a single checked type builds nothing);
      a `NaN` in a schema field or a refused save flashes an error, and nothing is stored. */
  method PutMeasurements(db: Db, id: Id, b: MeasurementBody) returns (r: Result<Id>)
    requires db.Valid()
    modifies db`customers
    ensures db.Valid()
    ensures First(old(db.customers), HasId, id).None? ==>
              r == Err(302, "Customer not found") && db.customers == old(db.customers)
    ensures First(old(db.customers), HasId, id).Some? ==>
              var k := First(old(db.customers), HasId, id).value;
              var types := TypesAsWritten(b.types);
              var c := old(db.customers)[k].val.(measurements := CastMeasurements(MapAll(types, Entry, b)));
              var w := SaveAt(old(db.customers), CustomerKey, "phone", ValidCustomer, k, c);
              && (!AllCast(types, b) ==> r == Err(302, "Error updating measurements") && db.customers == old(db.customers))
              && (AllCast(types, b) ==> db.customers == w.docs)
              && (AllCast(types, b) && w.error.Some? ==> r == Err(302, "Error updating measurements"))
              && (AllCast(types, b) && w.error.None? ==> r == Ok(id))
  {
    var k := First(db.customers, HasId, id);
    if k.None? {
      return Err(302, "Customer not found");
    }
    var types := TypesAsWritten(b.types);
    var ms, cast := BuildEntries(types, b);
    assert ms == MapAll(types, Entry, b);
    if !cast {
      return Err(302, "Error updating measurements");
    }
    var c := db.customers[k.value].val.(measurements := CastMeasurements(ms));
    var e := db.SaveCustomerAt(k.value, c);
    if e.Some? {
      return Err(302, "Error updating measurements");
    }
    r := Ok(id);
  }
}
