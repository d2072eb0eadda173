/** routes/api/admin/customers.js: the shop admin's customer list with phone search,
    creation with its phone and measurement-type checks, detail with the customer's orders,
    replacement update, and deletion together with the customer's orders. Every query is
    scoped to the admin's shop. */
module AdminCustomersApi {
  import opened Basics
  import opened Collections
  import opened OrderModel
  import opened CustomerModel
  import opened Store
  import opened Views

  /** `formatCustomer(c)`. */
  datatype FormattedCustomer = FormattedCustomer(id: Id, name: string, phone: string, notes: string, measurements: seq<Measurement>)

  function FormatCustomer(d: Doc<Customer>): FormattedCustomer
  {
    FormattedCustomer(d.id, d.val.name, d.val.phone, d.val.notes, d.val.measurements)
  }

  /** `{ phone: cleanPhone, shop }`. */
  predicate PhoneInShop(d: Doc<Customer>, q: (string, Id))
  {
    d.val.phone == q.0 && d.val.shop == Some(q.1)
  }

  /** `formatCustomer` in the shape a page projection takes. */
  function Project(d: Doc<Customer>, u: ()): FormattedCustomer
  {
    FormatCustomer(d)
  }

  // ---------------------------------------------------------------- list

  /** The phone search: only a parameter that is not blank takes effect, and it is reduced
      to its digits. */
  function PhoneQuery(phone: Option<string>): (r: Option<string>)
    ensures r.Some? <==> phone.Some? && Trim(phone.value) != ""
    ensures r.Some? ==> AllDigits(r.value) && |r.value| <= |phone.value|
    ensures r.Some? ==> forall c :: c in r.value <==> c in phone.value && IsDigit(c)
  {
    if phone.Some? && Trim(phone.value) != "" then Some(DigitsOnly(phone.value)) else None
  }

  datatype CustomerFilter = CustomerFilter(shop: Id, phone: Option<string>)

  /** `{ shop, phone?: { $regex: digits } }`: the digits occur somewhere in the phone. */
  predicate Listed(d: Doc<Customer>, f: CustomerFilter)
  {
    d.val.shop == Some(f.shop) && (f.phone.None? || Contains(d.val.phone, f.phone.value))
  }

  /** GET /: the shop's customers whose phone contains the searched digits, newest first,
      one page of them; `page` defaults to 1 and `limit` to 20. */
  function ListCustomers(customers: seq<Doc<Customer>>, shop: Id, phone: Option<string>,
                         page: Option<int>, limit: Option<int>): (r: Result<Page<FormattedCustomer>>)
    ensures var p := if page.Some? then page.value else 1;
            var l := if limit.Some? then limit.value else 20;
            && (r.Err? <==> (p - 1) * l < 0)
            && (r.Ok? ==> r.value.page == p)
            && (r.Ok? && l != 0 ==> |r.value.items| <= Abs(l))
    ensures var p := if page.Some? then page.value else 1;
            var l := if limit.Some? then limit.value else 20;
            var all := NewestFirst(customers, Listed, CustomerFilter(shop, PhoneQuery(phone)));
            r.Ok? ==> PageFrom(r.value.items, all, (p - 1) * l, l, Project, ())
  {
    var p := if page.Some? then page.value else 1;
    var l := if limit.Some? then limit.value else 20;
    var f := CustomerFilter(shop, PhoneQuery(phone));
    NewestPage(customers, Listed, f, Project, (), p, l)
  }

  /** The total counts the matching customers, and each entry of the page is a matching
      customer of the shop, formatted. */
  lemma ListedCustomers(customers: seq<Doc<Customer>>, shop: Id, phone: Option<string>,
                        page: Option<int>, limit: Option<int>)
    ensures var r := ListCustomers(customers, shop, phone, page, limit);
            var f := CustomerFilter(shop, PhoneQuery(phone));
            && (r.Ok? ==> r.value.total == Count(customers, Listed, f))
            && (r.Ok? ==> forall i :: 0 <= i < |r.value.items| ==>
                  exists d :: d in customers && Listed(d, f) && r.value.items[i] == FormatCustomer(d))
  {
    var p := if page.Some? then page.value else 1;
    var l := if limit.Some? then limit.value else 20;
    var f := CustomerFilter(shop, PhoneQuery(phone));
    PagedMatches(customers, Listed, f, Project, (), p, l);
  }


  /** A search text with no digit in it (`abc`) is not ignored but becomes the empty
      pattern, which every phone contains: every customer of the shop is listed. */
  lemma NoDigitsListsAll(d: Doc<Customer>, shop: Id, phone: string)
    requires Trim(phone) != "" && forall i :: 0 <= i < |phone| ==> !IsDigit(phone[i])
    requires d.val.shop == Some(shop)
    ensures Listed(d, CustomerFilter(shop, PhoneQuery(Some(phone))))
  {
    NoDigitsNothingLeft(phone);
    assert OccursAt(d.val.phone, [], 0);
  }

  // ---------------------------------------------------------------- create

  /** The body of POST /; a missing `measurements` is the empty list. */
  datatype CustomerForm = CustomerForm(name: Option<string>, phone: Option<string>, notes: Option<string>, measurements: seq<Measurement>)

  predicate UnknownType(m: Measurement, u: ())
  {
    m.mtype !in MeasurementTypes
  }

  /** The type the route reports: that of the first item whose type is not one of the ten. */
  function FirstUnknownType(ms: seq<Measurement>): (r: Option<string>)
    ensures r.None? <==> forall i :: 0 <= i < |ms| ==> ms[i].mtype in MeasurementTypes
    ensures r.Some? ==> exists i :: 0 <= i < |ms| && ms[i].mtype == r.value && r.value !in MeasurementTypes
                                    && forall j :: 0 <= j < i ==> ms[j].mtype in MeasurementTypes
  {
    var k := First(ms, UnknownType, ());
    if k.None? then None else Some(ms[k.value].mtype)
  }

  /** The `for ... of` over the items that stops at the first unknown type. */
  method CheckTypes(ms: seq<Measurement>) returns (bad: Option<string>)
    ensures bad == FirstUnknownType(ms)
  {
    var i := 0;
    while i < |ms|
      invariant 0 <= i <= |ms|
      invariant forall j :: 0 <= j < i ==> ms[j].mtype in MeasurementTypes
    {
      if ms[i].mtype !in MeasurementTypes {
        return Some(ms[i].mtype);
      }
      i := i + 1;
    }
    return None;
  }

  predicate NotBlank(t: string)
  {
    exists i :: 0 <= i < |t| && !IsSpace(t[i])
  }

  /** With no customer of that phone in the shop, inserting the new customer cannot hit the
      (phone, shop) index; with a name that is not blank and known types it succeeds. */
  lemma CreateNoDuplicate(s: seq<Doc<Customer>>, next: nat, f: CustomerForm, shop: Id)
    requires Given(f.name) && Given(f.phone) && ValidPhone(DigitsOnly(f.phone.value))
    requires First(s, PhoneInShop, (DigitsOnly(f.phone.value), shop)).None?
    ensures var c := NewCustomer(f.name.value, DigitsOnly(f.phone.value), f.notes, f.measurements, Some(shop));
            && Insert(s, next, CustomerKey, "phone", ValidCustomer, c).error != Some(DuplicateKey("phone"))
            && (NotBlank(f.name.value) && FirstUnknownType(f.measurements).None? ==>
                  Insert(s, next, CustomerKey, "phone", ValidCustomer, c).error.None?)
  {
    var clean := DigitsOnly(f.phone.value);
    var c := NewCustomer(f.name.value, clean, f.notes, f.measurements, Some(shop));
    TrimKeepsDigits(clean);
    assert CustomerKey(c) == Some((clean, Some(shop)));
    assert !KeyTaken(s, CustomerKey, c, -1);
    if NotBlank(f.name.value) && FirstUnknownType(f.measurements).None? {
      NewCustomerValid(f.name.value, clean, f.notes, f.measurements, shop);
    }
  }

  /** POST /: presence of name and phone (400), the phone reduced to its digits must have 10
      to 15 of them (400), no customer of the shop may have it (409), every item must have a
      known type (400); then the customer is inserted, a duplicate key answering 409 and a
      failed validation 500. */
  method CreateCustomer(db: Db, shop: Id, f: CustomerForm) returns (r: Result<FormattedCustomer>)
    requires db.Valid()
    modifies db`customers, db`nextId
    ensures db.Valid()
    ensures !Given(f.name) || !Given(f.phone) ==>
              r == Err(400, "Name and phone are required") && db.customers == old(db.customers)
    ensures Given(f.name) && Given(f.phone) && !ValidPhone(DigitsOnly(f.phone.value)) ==>
              r == Err(400, "Invalid phone number (10-15 digits required)") && db.customers == old(db.customers)
    ensures Given(f.name) && Given(f.phone) && ValidPhone(DigitsOnly(f.phone.value)) ==>
              var clean := DigitsOnly(f.phone.value);
              var bad := FirstUnknownType(f.measurements);
              var c := NewCustomer(f.name.value, clean, f.notes, f.measurements, Some(shop));
              var w := Insert(old(db.customers), old(db.nextId), CustomerKey, "phone", ValidCustomer, c);
              && (First(old(db.customers), PhoneInShop, (clean, shop)).Some? ==>
                    r == Err(409, "Customer with this phone number already exists") && db.customers == old(db.customers))
              && (First(old(db.customers), PhoneInShop, (clean, shop)).None? && bad.Some? ==>
                    r == Err(400, "Invalid measurement type: " + bad.value) && db.customers == old(db.customers))
              && (First(old(db.customers), PhoneInShop, (clean, shop)).None? && bad.None? ==>
                    && db.customers == w.docs
                    && (w.error == Some(ValidationFailed) ==> r == Err(500, "Server error"))
                    && (w.error.Some? && w.error != Some(ValidationFailed) ==> r == Err(409, "Phone number already exists"))
                    && (w.error.None? ==> r == Ok(FormatCustomer(Doc(old(db.nextId), c)))))
  {
    if !Given(f.name) || !Given(f.phone) {
      return Err(400, "Name and phone are required");
    }
    var clean := DigitsOnly(f.phone.value);
    if !ValidPhone(clean) {
      return Err(400, "Invalid phone number (10-15 digits required)");
    }
    var existing := First(db.customers, PhoneInShop, (clean, shop));
    if existing.Some? {
      return Err(409, "Customer with this phone number already exists");
    }
    var bad := CheckTypes(f.measurements);
    if bad.Some? {
      return Err(400, "Invalid measurement type: " + bad.value);
    }
    var c := NewCustomer(f.name.value, clean, f.notes, f.measurements, Some(shop));
    var id := db.nextId;
    var e := db.InsertCustomer(c);
    if e == Some(ValidationFailed) {
      return Err(500, "Server error");
    } else if e.Some? {
      return Err(409, "Phone number already exists");
    }
    r := Ok(FormatCustomer(Doc(id, c)));
  }

  // ---------------------------------------------------------------- detail

  /** `{ customer, shop }`. */
  predicate OrderOf(d: Doc<Order>, q: Scoped)
  {
    d.val.customer == q.id && d.val.shop == Some(q.shop)
  }

  /** One of the customer's orders as the detail lists it. */
  datatype OrderLine = OrderLine(id: Id, orderNumber: Option<string>, garmentType: string, status: string, statusIndex: int,
                                 price: real, advancePaid: real, balanceDue: real, dueDate: Option<Date>, isActive: bool)

  /** One order of the detail page: its balance is its price less its advance, and its
      status index places it on the progress bar (-1 off it). */
  function Line(d: Doc<Order>, u: ()): (r: OrderLine)
    ensures r.id == d.id && r.status == d.val.status && r.price == d.val.price && r.advancePaid == d.val.advancePaid
    ensures r.balanceDue == r.price - r.advancePaid
    ensures r.statusIndex == -1 <==> d.val.status !in OrderStatuses
  {
    OrderLine(d.id, d.val.orderNumber, d.val.garmentType, d.val.status, StatusIndex(d.val.status),
              d.val.price, d.val.advancePaid, BalanceDue(d.val), d.val.dueDate, d.val.isActive)
  }

  datatype CustomerDetail = CustomerDetail(customer: FormattedCustomer, orders: seq<OrderLine>)

  /** GET /:id: the customer of the shop and all its orders of the shop (active or not),
      newest first. */
  function Detail(customers: seq<Doc<Customer>>, orders: seq<Doc<Order>>, shop: Id, id: Id): (r: Result<CustomerDetail>)
    ensures r.Err? <==> forall d :: d in customers ==> !CustomerAt(d, Scoped(id, shop))
    ensures r.Err? ==> r == Err(404, "Customer not found")
    ensures r.Ok? ==> exists d :: d in customers && CustomerAt(d, Scoped(id, shop)) && r.value.customer == FormatCustomer(d)
    ensures r.Ok? ==> |r.value.orders| == Count(orders, OrderOf, Scoped(id, shop))
    ensures r.Ok? ==> forall i :: 0 <= i < |r.value.orders| ==> exists d :: d in orders && OrderOf(d, Scoped(id, shop)) && r.value.orders[i] == Line(d, ())
    ensures r.Ok? ==> forall d :: d in orders && OrderOf(d, Scoped(id, shop)) ==> Line(d, ()) in r.value.orders
    ensures r.Ok? && InCreationOrder(orders) ==>
              forall i, j :: 0 <= i < j < |r.value.orders| ==> r.value.orders[i].id > r.value.orders[j].id
  {
    var k := First(customers, CustomerAt, Scoped(id, shop));
    if k.None? then Err(404, "Customer not found")
    else
      ProjectedMatches(orders, OrderOf, Scoped(id, shop), Line, ());
      ProjectedDescending(orders, OrderOf, Scoped(id, shop), Line, (), (l: OrderLine) => l.id);
      Ok(CustomerDetail(FormatCustomer(customers[k.value]), MapAll(NewestFirst(orders, OrderOf, Scoped(id, shop)), Line, ())))
  }

  // ---------------------------------------------------------------- update

  /** The body of PUT /; a missing `measurements` is the empty list. */
  datatype CustomerEdit = CustomerEdit(name: Option<string>, phone: Option<string>, notes: Option<string>, measurements: seq<Measurement>)

  /** The phone the customer ends up with: the digits of the sent one, or the stored one. */
  function EditedPhone(c: Customer, e: CustomerEdit): string
  {
    if Given(e.phone) then DigitsOnly(e.phone.value) else c.phone
  }

  /** The four assignments: the name when one is sent, the phone, the notes when sent, and
      the measurements replaced by the sent list (trimmed and cast as the schema does). */
  function Edited(c: Customer, e: CustomerEdit): (r: Customer)
    ensures r.shop == c.shop
    ensures r.phone == EditedPhone(c, e)
    ensures Given(e.name) ==> r.name == Trim(e.name.value)
    ensures !Given(e.name) ==> r.name == c.name
    ensures e.notes.Some? ==> r.notes == Trim(e.notes.value)
    ensures e.notes.None? ==> r.notes == c.notes
    ensures r.measurements == CastMeasurements(e.measurements)
    ensures r.(name := c.name, phone := c.phone, notes := c.notes, measurements := c.measurements) == c
    ensures |r.measurements| == |e.measurements|
    ensures forall i :: 0 <= i < |r.measurements| ==> r.measurements[i].mtype == e.measurements[i].mtype
  {
    c.(name := if Given(e.name) then Trim(e.name.value) else c.name,
       phone := EditedPhone(c, e),
       notes := if e.notes.Some? then Trim(e.notes.value) else c.notes,
       measurements := CastMeasurements(e.measurements))
  }

  /** An edit that leaves out `measurements` deletes every measurement of the customer. */
  lemma OmittedMeasurementsCleared(c: Customer, name: Option<string>, phone: Option<string>, notes: Option<string>)
    ensures Edited(c, CustomerEdit(name, phone, notes, [])).measurements == []
  {
  }

  /** Once the phone check has passed, the save cannot hit the (phone, shop) index: either
      the phone is unchanged or no other customer of the shop has the new one. */
  lemma UpdateNoDuplicate(s: seq<Doc<Customer>>, next: nat, k: nat, shop: Id, e: CustomerEdit)
    requires Table(s, next, CustomerKey) && k < |s| && s[k].val.shop == Some(shop)
    requires Given(e.phone) && EditedPhone(s[k].val, e) != s[k].val.phone ==>
               First(s, PhoneInShop, (EditedPhone(s[k].val, e), shop)).None?
    ensures SaveAt(s, CustomerKey, "phone", ValidCustomer, k, Edited(s[k].val, e)).error != Some(DuplicateKey("phone"))
  {
    var v := Edited(s[k].val, e);
    var clean := EditedPhone(s[k].val, e);
    if Given(e.phone) && clean != s[k].val.phone {
      assert !KeyTaken(s, CustomerKey, v, k);
    } else {
      assert CustomerKey(v) == CustomerKey(s[k].val);
      forall j | 0 <= j < |s| && j != k
        ensures CustomerKey(s[j].val) != CustomerKey(v)
      {
        if j < k {
          assert CustomerKey(s[j].val) != CustomerKey(s[k].val);
        }
      }
    }
  }

  /** PUT /:id: a customer of the shop (404), a changed phone must be free in the shop (409);
      the phone is not checked against the pattern here, so a bad one fails the save, which
      answers 500 like every other save error. */
  method UpdateCustomer(db: Db, shop: Id, id: Id, e: CustomerEdit) returns (r: Result<FormattedCustomer>)
    requires db.Valid()
    modifies db`customers
    ensures db.Valid()
    ensures First(old(db.customers), CustomerAt, Scoped(id, shop)).None? ==>
              r == Err(404, "Customer not found") && db.customers == old(db.customers)
    ensures First(old(db.customers), CustomerAt, Scoped(id, shop)).Some? ==>
              var k := First(old(db.customers), CustomerAt, Scoped(id, shop)).value;
              var c := old(db.customers)[k].val;
              var clean := EditedPhone(c, e);
              var w := SaveAt(old(db.customers), CustomerKey, "phone", ValidCustomer, k, Edited(c, e));
              && (Given(e.phone) && clean != c.phone && First(old(db.customers), PhoneInShop, (clean, shop)).Some? ==>
                    r == Err(409, "Phone number in use by another customer") && db.customers == old(db.customers))
              && (!(Given(e.phone) && clean != c.phone && First(old(db.customers), PhoneInShop, (clean, shop)).Some?) ==>
                    && db.customers == w.docs
                    && (w.error.Some? ==> r == Err(500, "Server error"))
                    && (w.error.None? ==> r == Ok(FormatCustomer(Doc(id, Edited(c, e))))))
  {
    var k := First(db.customers, CustomerAt, Scoped(id, shop));
    if k.None? {
      return Err(404, "Customer not found");
    }
    var c := db.customers[k.value].val;
    var clean := EditedPhone(c, e);
    if Given(e.phone) && clean != c.phone {
      var existing := First(db.customers, PhoneInShop, (clean, shop));
      if existing.Some? {
        return Err(409, "Phone number in use by another customer");
      }
    }
    var n := Edited(c, e);
    var err := db.SaveCustomerAt(k.value, n);
    if err.Some? {
      return Err(500, "Server error");
    }
    r := Ok(FormatCustomer(Doc(id, n)));
  }

  // ---------------------------------------------------------------- delete

  /** DELETE /:id: the customer of the shop is removed (404 when there is none), and with
      it every order of that customer in the shop. */
  method DeleteCustomer(db: Db, shop: Id, id: Id) returns (r: Result<string>)
    requires db.Valid()
    modifies db`customers, db`orders
    ensures db.Valid()
    ensures First(old(db.customers), CustomerAt, Scoped(id, shop)).None? ==>
              r == Err(404, "Customer not found") && db.customers == old(db.customers) && db.orders == old(db.orders)
    ensures r.Ok? <==> First(old(db.customers), CustomerAt, Scoped(id, shop)).Some?
    ensures r.Ok? ==> && db.customers == RemoveAt(old(db.customers), First(old(db.customers), CustomerAt, Scoped(id, shop)).value)
                      && db.orders == Reject(old(db.orders), OrderOf, Scoped(id, shop))
                      && r.value == "Customer deleted successfully"
    ensures r.Ok? ==> forall d :: d in db.orders ==> !OrderOf(d, Scoped(id, shop))
    ensures r.Ok? ==> forall d :: d in old(db.orders) && d.val.shop != Some(shop) ==> d in db.orders
  {
    var k := First(db.customers, CustomerAt, Scoped(id, shop));
    if k.None? {
      return Err(404, "Customer not found");
    }
    db.RemoveCustomerAt(k.value);
    db.RemoveOrders(OrderOf, Scoped(id, shop));
    r := Ok("Customer deleted successfully");
  }
}
