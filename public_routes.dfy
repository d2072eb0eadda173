/** routes/public.js: the older tracking page. The customer is looked up by phone alone,
    across every shop, and the orders by customer alone; every failure is shown on the
    page itself (status 200) instead of an error status. */
module PublicRoutes {
  import opened Basics
  import opened Collections
  import opened OrderModel
  import opened CustomerModel
  import opened Store
  import opened Views
  import opened PublicApi

  /** `{ customer, isActive: true }`: no shop condition. */
  predicate ActiveOfId(d: Doc<Order>, customer: Id)
  {
    d.val.customer == customer && d.val.isActive
  }

  /** What the page shows: the customer and the orders. */
  datatype TrackResults = TrackResults(customer: Doc<Customer>, orders: seq<Doc<Order>>)

  /** The customer the page looks up: a missing or blank phone is asked for again; the digits
      of the phone are matched against every customer of every shop, the first one found wins. */
  function LegacyCustomer(customers: seq<Doc<Customer>>, phone: Option<string>): (r: Result<Doc<Customer>>)
    ensures !Given(phone) || Trim(phone.value) == "" ==> r == Err(200, "Please enter a phone number")
    ensures Given(phone) && Trim(phone.value) != "" ==>
              && (r.Err? <==> forall k :: 0 <= k < |customers| ==> customers[k].val.phone != DigitsOnly(phone.value))
              && (r.Err? ==> r == Err(200, "No customer found with that phone number"))
    ensures r.Ok? ==> r.value in customers && Given(phone) && r.value.val.phone == DigitsOnly(phone.value)
  {
    if !Given(phone) || Trim(phone.value) == "" then Err(200, "Please enter a phone number")
    else
      var k := First(customers, CustomerMatches, CustomerQuery(DigitsOnly(phone.value), None));
      if k.None? then Err(200, "No customer found with that phone number")
      else Ok(customers[k.value])
  }

  /** `find({ customer, isActive: true }).sort({ createdAt: -1 }).limit(3)`. */
  function LegacyOrders(orders: seq<Doc<Order>>, customer: Id): (r: seq<Doc<Order>>)
    ensures |r| == if Count(orders, ActiveOfId, customer) < TrackLimit then Count(orders, ActiveOfId, customer) else TrackLimit
    ensures forall i :: 0 <= i < |r| ==> r[i] in orders && ActiveOfId(r[i], customer)
    ensures InCreationOrder(orders) ==> NewestOf(orders, ActiveOfId, customer, TrackLimit, r)
  {
    var all := NewestFirst(orders, ActiveOfId, customer);
    var r := Limit(all, TrackLimit);
    assert forall i :: 0 <= i < |r| ==> r[i] == all[i];
    LimitNewest(orders, ActiveOfId, customer, TrackLimit);
    r
  }

  /** POST /track: the customer, then up to three of the customer's newest active orders in
      any shop; none is reported on the page. */
  function Track(customers: seq<Doc<Customer>>, orders: seq<Doc<Order>>, phone: Option<string>): (r: Result<TrackResults>)
    ensures var f := LegacyCustomer(customers, phone); f.Err? ==> r == Err(f.code, f.message)
    ensures LegacyCustomer(customers, phone).Ok? ==>
              var c := LegacyCustomer(customers, phone).value;
              && (Count(orders, ActiveOfId, c.id) == 0 ==> r == Err(200, "No active orders found for this phone number"))
              && (Count(orders, ActiveOfId, c.id) > 0 ==>
                    && r.Ok? && r.value.customer == c
                    && 1 <= |r.value.orders| <= TrackLimit
                    && r.value.orders == LegacyOrders(orders, c.id)
                    && forall i :: 0 <= i < |r.value.orders| ==> r.value.orders[i] in orders && ActiveOfId(r.value.orders[i], c.id))
  {
    var found := LegacyCustomer(customers, phone);
    if found.Err? then Err(found.code, found.message)
    else
      var list := LegacyOrders(orders, found.value.id);
      if |list| == 0 then Err(200, "No active orders found for this phone number")
      else Ok(TrackResults(found.value, list))
  }

  /** When every order of a customer belongs to the customer's shop, the older page lists the
      same orders as the tracking API does without a shop code. */
  lemma SameOrdersAsApi(orders: seq<Doc<Order>>, c: Doc<Customer>)
    requires forall d :: d in orders && d.val.customer == c.id ==> d.val.shop == c.val.shop
    ensures LegacyOrders(orders, c.id) == ActiveOrders(orders, c)
  {
    SameSelection(orders, c);
  }

  lemma {:induction false} SameSelection(orders: seq<Doc<Order>>, c: Doc<Customer>)
    requires forall d :: d in orders && d.val.customer == c.id ==> d.val.shop == c.val.shop
    ensures Select(orders, ActiveOfId, c.id) == Select(orders, ActiveOf, c)
  {
    if orders != [] {
      assert orders[0] in orders;
      assert forall d :: d in orders[1..] ==> d in orders;
      SameSelection(orders[1..], c);
    }
  }
}
