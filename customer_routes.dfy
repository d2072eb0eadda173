/** routes/customers.js: the server-rendered customer pages. None of these queries is scoped
    to a shop; the forms send the checked measurement types with one input per field and
    type, and every failure is flashed and redirected (302). */
module CustomerRoutes {
  import opened Basics
  import opened Collections
  import opened OrderModel
  import opened CustomerModel
  import opened Store
  import opened Views
  import opened TailorRoutes

  // ---------------------------------------------------------------- list and page

  /** `{ phone: { $regex: digits } }` across every shop, or every customer. */
  predicate PhoneMatches(d: Doc<Customer>, digits: Option<string>)
  {
    digits.None? || Contains(d.val.phone, digits.value)
  }

  /** The search digits: those of a phone parameter that is not blank. */
  function SearchDigits(phone: Option<string>): (r: Option<string>)
    ensures r.Some? <==> phone.Some? && Trim(phone.value) != ""
    ensures r.Some? ==> AllDigits(r.value)
  {
    if phone.Some? && Trim(phone.value) != "" then Some(DigitsOnly(phone.value)) else None
  }

  datatype CustomerList = CustomerList(customers: seq<Doc<Customer>>, searchPhone: string)

  /** GET /: the customers whose phone contains the searched digits, newest first, and the
      search text echoed back (empty when none). */
  function ListCustomers(customers: seq<Doc<Customer>>, phone: Option<string>): (r: CustomerList)
    ensures |r.customers| == Count(customers, PhoneMatches, SearchDigits(phone))
    ensures forall i :: 0 <= i < |r.customers| ==> r.customers[i] in customers && PhoneMatches(r.customers[i], SearchDigits(phone))
    ensures forall d :: d in customers && PhoneMatches(d, SearchDigits(phone)) ==> d in r.customers
    ensures r.searchPhone == OrElse(phone, "")
    ensures InCreationOrder(customers) ==>
              forall i, j :: 0 <= i < j < |r.customers| ==> r.customers[i].id > r.customers[j].id
  {
    NewestFirstDescending(customers, PhoneMatches, SearchDigits(phone));
    CustomerList(NewestFirst(customers, PhoneMatches, SearchDigits(phone)), OrElse(phone, ""))
  }

  /** A blank search lists every customer of every shop. */
  lemma BlankSearchListsAll(customers: seq<Doc<Customer>>, phone: Option<string>)
    requires phone.None? || Trim(phone.value) == ""
    ensures |ListCustomers(customers, phone).customers| == |customers|
  {
    assert Select(customers, PhoneMatches, SearchDigits(phone)) == customers by {
      SelectAll(customers, SearchDigits(phone));
    }
  }

  lemma {:induction false} SelectAll(customers: seq<Doc<Customer>>, digits: Option<string>)
    requires digits.None?
    ensures Select(customers, PhoneMatches, digits) == customers
  {
    if customers != [] {
      SelectAll(customers[1..], digits);
      assert customers == [customers[0]] + customers[1..];
    }
  }

  /** `{ customer }`, in any shop. */
  predicate OrderOf(d: Doc<Order>, customer: Id)
  {
    d.val.customer == customer
  }

  datatype CustomerPage = CustomerPage(customer: Doc<Customer>, orders: seq<Doc<Order>>)

  /** GET /:id: the customer by id and all its orders, newest first. */
  function ShowCustomer(customers: seq<Doc<Customer>>, orders: seq<Doc<Order>>, id: Id): (r: Result<CustomerPage>)
    ensures r.Err? <==> forall d :: d in customers ==> d.id != id
    ensures r.Err? ==> r == Err(302, "Customer not found")
    ensures r.Ok? ==> r.value.customer in customers && r.value.customer.id == id
    ensures r.Ok? ==> |r.value.orders| == Count(orders, OrderOf, id)
    ensures r.Ok? ==> forall i :: 0 <= i < |r.value.orders| ==> r.value.orders[i] in orders && r.value.orders[i].val.customer == id
    ensures r.Ok? ==> forall d :: d in orders && d.val.customer == id ==> d in r.value.orders
    ensures r.Ok? && InCreationOrder(orders) ==>
              forall i, j :: 0 <= i < j < |r.value.orders| ==> r.value.orders[i].id > r.value.orders[j].id
  {
    NewestFirstDescending(orders, OrderOf, id);
    var k := First(customers, HasId, id);
    if k.None? then Err(302, "Customer not found")
    else Ok(CustomerPage(customers[k.value], NewestFirst(orders, OrderOf, id)))
  }

  // ---------------------------------------------------------------- measurement items

  /** The items the form builds: one per submitted type in order, an empty type skipped. */
  function KeptEntries(types: seq<string>, b: MeasurementBody): (r: seq<Measurement>)
    decreases |types|
  {
    if types == [] then []
    else KeptEntries(types[..|types| - 1], b) + (if types[|types| - 1] != "" then [Entry(types[|types| - 1], b)] else [])
  }

  /** Each item is built for a submitted type that is not empty, and each such type has its
      item. */
  lemma {:induction false} KeptEntriesMatch(types: seq<string>, b: MeasurementBody)
    ensures |KeptEntries(types, b)| <= |types|
    ensures forall m :: m in KeptEntries(types, b) ==> m.mtype != "" && m.mtype in types && m == Entry(m.mtype, b)
    ensures forall t :: t in types && t != "" ==> Entry(t, b) in KeptEntries(types, b)
    decreases |types|
  {
    if types != [] {
      var init := types[..|types| - 1];
      KeptEntriesMatch(init, b);
      assert forall t :: t in types ==> t in init || t == types[|types| - 1];
      assert forall t :: t in init ==> t in types;
    }
  }

  /** Every submitted type is kept when none is empty, in order. */
  lemma {:induction false} NoEmptyKeepsAll(types: seq<string>, b: MeasurementBody)
    requires forall i :: 0 <= i < |types| ==> types[i] != ""
    ensures KeptEntries(types, b) == MapAll(types, Entry, b)
    decreases |types|
  {
    if types != [] {
      var init := types[..|types| - 1];
      NoEmptyKeepsAll(init, b);
      var k, ki := KeptEntries(types, b), KeptEntries(init, b);
      assert k == ki + [Entry(types[|types| - 1], b)];
      var m := MapAll(types, Entry, b);
      forall i | 0 <= i < |m|
        ensures m[i] == k[i]
      {
        if i < |init| {
          assert init[i] == types[i];
          assert k[i] == ki[i] == Entry(init[i], b);
        }
      }
      assert m == k;
    }
  }

  /** The `forEach` with its early `return` for an empty type. */
  method BuildKeptEntries(types: seq<string>, b: MeasurementBody) returns (ms: seq<Measurement>)
    ensures ms == KeptEntries(types, b)
  {
    ms := [];
    var i := 0;
    while i < |types|
      invariant 0 <= i <= |types|
      invariant ms == KeptEntries(types[..i], b)
    {
      assert types[..i + 1][..i] == types[..i];
      if types[i] != "" {
        ms := ms + [Entry(types[i], b)];
      }
      i := i + 1;
    }
    assert types[..|types|] == types;
  }

  /** Whether the save will accept the numbers of the kept items: every numeric input of a
      schema field, for every non-empty type, parsed to a number. */
  predicate KeptCast(types: seq<string>, b: MeasurementBody)
  {
    forall i :: 0 <= i < |types| && types[i] != "" ==> NumbersCast(types[i], b)
  }

  // ---------------------------------------------------------------- create

  /** The new-customer form. */
  datatype CustomerForm = CustomerForm(name: Option<string>, phone: Option<string>, notes: Option<string>, body: MeasurementBody)

  /** `{ phone }` in any shop; the schema's `trim` setter casts the query value too, so the
      stored phone is compared with the trimmed text. */
  predicate PhoneIs(d: Doc<Customer>, phone: string)
  {
    d.val.phone == Trim(phone)
  }

  /** The two checks of POST /, in order: a phone whose digits are 10 to 15 (the phone
      itself is kept as sent), then no customer anywhere with that phone, trimmed. */
  function CreateCheck(customers: seq<Doc<Customer>>, phone: Option<string>): (r: Option<string>)
    ensures r.None? <==> Given(phone) && ValidPhone(DigitsOnly(phone.value)) && forall d :: d in customers ==> d.val.phone != Trim(phone.value)
    ensures !(Given(phone) && ValidPhone(DigitsOnly(phone.value))) ==> r == Some("Please enter a valid phone number (10-15 digits)")
  {
    if !Given(phone) || !ValidPhone(DigitsOnly(phone.value)) then Some("Please enter a valid phone number (10-15 digits)")
    else if First(customers, PhoneIs, phone.value).Some? then Some("Customer with this phone number already exists")
    else None
  }

  /** POST /: after the checks the customer is built without a shop, so the save always
      fails validation; no customer is ever created and the form is shown again. */
  method CreateCustomer(db: Db, f: CustomerForm) returns (r: Result<Id>)
    requires db.Valid()
    modifies db`customers, db`nextId
    ensures db.Valid()
    ensures db.customers == old(db.customers) && db.nextId == old(db.nextId)
    ensures CreateCheck(old(db.customers), f.phone).Some? ==> r == Err(302, CreateCheck(old(db.customers), f.phone).value)
    ensures CreateCheck(old(db.customers), f.phone).None? ==> r == Err(302, "Failed to create customer")
  {
    var check := CreateCheck(db.customers, f.phone);
    if check.Some? {
      return Err(302, check.value);
    }
    var ms := BuildKeptEntries(SubmittedTypes(f.body.types), f.body);
    var c := NewCustomer(OrElse(f.name, ""), f.phone.value, f.notes, ms, None);
    var e := db.InsertCustomer(c);
    assert e == Some(ValidationFailed);
    r := Err(302, "Failed to create customer");
  }

  // ---------------------------------------------------------------- update

  /** The edit form: every field is sent. */
  datatype CustomerEdit = CustomerEdit(name: string, phone: string, notes: string, body: MeasurementBody)

  /** The four assignments: name, phone and notes as sent (trimmed by the schema), and the
      items built from the form. */
  function Edited(c: Customer, e: CustomerEdit): (r: Customer)
    ensures r.shop == c.shop
    ensures r.name == Trim(e.name) && r.phone == Trim(e.phone) && r.notes == Trim(e.notes)
    ensures r.measurements == CastMeasurements(KeptEntries(SubmittedTypes(e.body.types), e.body))
    ensures r.(name := c.name, phone := c.phone, notes := c.notes, measurements := c.measurements) == c
  {
    c.(name := Trim(e.name), phone := Trim(e.phone), notes := Trim(e.notes),
       measurements := CastMeasurements(KeptEntries(SubmittedTypes(e.body.types), e.body)))
  }

  /** The uniqueness check of the PUT looks at every shop: a phone used by a customer of any
      other shop is refused, though the index only forbids it within one shop. The change
      test compares the texts as sent, the query the trimmed one. */
  lemma CrossShopConflict(s: seq<Doc<Customer>>, k: nat, j: nat, e: CustomerEdit)
    requires k < |s| && j < |s| && s[j].val.phone == Trim(e.phone) && e.phone != s[k].val.phone
    ensures First(s, PhoneIs, e.phone).Some?
  {
  }

  /** PUT /:id: a customer by id; a changed phone must not be any customer's; the items
      are rebuilt from the form; a `NaN` in a schema field or a refused save is flashed. */
  method UpdateCustomer(db: Db, id: Id, e: CustomerEdit) returns (r: Result<Id>)
    requires db.Valid()
    modifies db`customers
    ensures db.Valid()
    ensures First(old(db.customers), HasId, id).None? ==>
              r == Err(302, "Customer not found") && db.customers == old(db.customers)
    ensures First(old(db.customers), HasId, id).Some? ==>
              var k := First(old(db.customers), HasId, id).value;
              var c := old(db.customers)[k].val;
              var types := SubmittedTypes(e.body.types);
              var cast := KeptCast(types, e.body);
              var conflict := e.phone != c.phone && First(old(db.customers), PhoneIs, e.phone).Some?;
              var w := SaveAt(old(db.customers), CustomerKey, "phone", ValidCustomer, k, Edited(c, e));
              && (conflict ==> r == Err(302, "Phone number already in use by another customer") && db.customers == old(db.customers))
              && (!conflict && !cast ==> r == Err(302, "Failed to update customer") && db.customers == old(db.customers))
              && (!conflict && cast ==> db.customers == w.docs)
              && (!conflict && cast && w.error.Some? ==> r == Err(302, "Failed to update customer"))
              && (!conflict && cast && w.error.None? ==> r == Ok(id))
  {
    var k := First(db.customers, HasId, id);
    if k.None? {
      return Err(302, "Customer not found");
    }
    var c := db.customers[k.value].val;
    if e.phone != c.phone {
      var existing := First(db.customers, PhoneIs, e.phone);
      if existing.Some? {
        return Err(302, "Phone number already in use by another customer");
      }
    }
    var ms := BuildKeptEntries(SubmittedTypes(e.body.types), e.body);
    if !KeptCast(SubmittedTypes(e.body.types), e.body) {
      return Err(302, "Failed to update customer");
    }
    var n := c.(name := Trim(e.name), phone := Trim(e.phone), notes := Trim(e.notes), measurements := CastMeasurements(ms));
    var err := db.SaveCustomerAt(k.value, n);
    if err.Some? {
      return Err(302, "Failed to update customer");
    }
    r := Ok(id);
  }

  // ---------------------------------------------------------------- delete

  /** DELETE /:id: the customer by id is removed, and every order that refers to it. */
  method DeleteCustomer(db: Db, id: Id) returns (r: Result<string>)
    requires db.Valid()
    modifies db`customers, db`orders
    ensures db.Valid()
    ensures First(old(db.customers), HasId, id).None? ==>
              r == Err(302, "Customer not found") && db.customers == old(db.customers) && db.orders == old(db.orders)
    ensures r.Ok? <==> First(old(db.customers), HasId, id).Some?
    ensures r.Ok? ==> && db.customers == RemoveAt(old(db.customers), First(old(db.customers), HasId, id).value)
                      && db.orders == Reject(old(db.orders), OrderOf, id)
                      && r.value == "Customer deleted successfully!"
    ensures r.Ok? ==> (forall d :: d in db.customers ==> d.id != id) && (forall d :: d in db.orders ==> d.val.customer != id)
  {
    var k := First(db.customers, HasId, id);
    if k.None? {
      return Err(302, "Customer not found");
    }
    RemovedIdGone(db.customers, db.nextId, CustomerKey, k.value);
    RejectExcludes(db.orders, OrderOf, id);
    db.RemoveCustomerAt(k.value);
    db.RemoveOrders(OrderOf, id);
    r := Ok("Customer deleted successfully!");
  }
}
