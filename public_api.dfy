/** routes/api/public.js: order tracking for customers, by phone number and optionally by
    shop code. Nothing is written. */
module PublicApi {
  import opened Basics
  import opened Collections
  import opened OrderModel
  import opened CustomerModel
  import opened ShopModel
  import opened Store
  import opened Views
  import opened ShopApi

  /** `{ phone }`, with `shop` added when a shop code was given. */
  datatype CustomerQuery = CustomerQuery(phone: string, shop: Option<Id>)

  predicate CustomerMatches(d: Doc<Customer>, q: CustomerQuery)
  {
    d.val.phone == q.phone && (q.shop.None? || d.val.shop == q.shop)
  }

  /** `{ customer, isActive: true, shop: customer.shop }`. */
  predicate ActiveOf(d: Doc<Order>, c: Doc<Customer>)
  {
    d.val.customer == c.id && d.val.isActive && d.val.shop == c.val.shop
  }

  /** The number of orders shown. */
  const TrackLimit: nat := 3

  /** The shop a supplied code names: no code (or a blank one) restricts nothing; a code no
      shop holds is 404. */
  function CodeFilter(shops: seq<Doc<Shop>>, shopCode: Option<string>): (r: Result<Option<Id>>)
    ensures !(Given(shopCode) && Trim(shopCode.value) != "") ==> r == Ok(None)
    ensures Given(shopCode) && Trim(shopCode.value) != "" ==>
              && (r.Err? <==> forall k :: 0 <= k < |shops| ==> shops[k].val.shopCode != NormalizeCode(shopCode.value))
              && (r.Err? ==> r == Err(404, "Shop not found"))
              && (r.Ok? ==> r.value.Some? && exists k :: 0 <= k < |shops| && shops[k].id == r.value.value
                                                       && shops[k].val.shopCode == NormalizeCode(shopCode.value))
  {
    if !(Given(shopCode) && Trim(shopCode.value) != "") then Ok(None)
    else
      var k := First(shops, CodeIs, NormalizeCode(shopCode.value));
      if k.None? then Err(404, "Shop not found") else Ok(Some(shops[k.value].id))
  }

  /** The customer the request names: the phone is required (400), its digits are looked up,
      in the named shop when there is one; nobody with that phone is 404. */
  function FindCustomer(shops: seq<Doc<Shop>>, customers: seq<Doc<Customer>>, phone: Option<string>,
                        shopCode: Option<string>): (r: Result<Doc<Customer>>)
    ensures !Given(phone) || Trim(phone.value) == "" ==> r == Err(400, "Phone number is required")
    ensures r.Err? ==> r.code in {400, 404}
    ensures r.Ok? ==> && Given(phone) && r.value in customers
                      && r.value.val.phone == DigitsOnly(phone.value)
                      && CodeFilter(shops, shopCode).Ok?
                      && (CodeFilter(shops, shopCode).value.Some? ==> r.value.val.shop == CodeFilter(shops, shopCode).value)
    ensures Given(phone) && Trim(phone.value) != "" && CodeFilter(shops, shopCode).Ok? ==>
              (r.Err? <==> forall k :: 0 <= k < |customers| ==>
                              !CustomerMatches(customers[k], CustomerQuery(DigitsOnly(phone.value), CodeFilter(shops, shopCode).value)))
  {
    if !Given(phone) || Trim(phone.value) == "" then Err(400, "Phone number is required")
    else
      var shop := CodeFilter(shops, shopCode);
      if shop.Err? then Err(shop.code, shop.message)
      else
        var k := First(customers, CustomerMatches, CustomerQuery(DigitsOnly(phone.value), shop.value));
        if k.None? then Err(404, "No customer found with that phone number")
        else Ok(customers[k.value])
  }

  /** `find(...).sort({ createdAt: -1 }).limit(3)`: the customer's newest active orders in
      the customer's shop. */
  function ActiveOrders(orders: seq<Doc<Order>>, c: Doc<Customer>): (r: seq<Doc<Order>>)
    ensures |r| == if Count(orders, ActiveOf, c) < TrackLimit then Count(orders, ActiveOf, c) else TrackLimit
    ensures forall i :: 0 <= i < |r| ==> r[i] in orders && r[i].val.customer == c.id && r[i].val.isActive
                                         && r[i].val.shop == c.val.shop
    ensures InCreationOrder(orders) ==> NewestOf(orders, ActiveOf, c, TrackLimit, r)
  {
    var all := NewestFirst(orders, ActiveOf, c);
    var r := Limit(all, TrackLimit);
    assert forall i :: 0 <= i < |r| ==> r[i] == all[i];
    LimitNewest(orders, ActiveOf, c, TrackLimit);
    r
  }

  // ---------------------------------------------------------------- the answer

  datatype CustomerView = CustomerView(id: Id, name: string, phone: string)

  datatype ShopView = ShopView(name: string, address: string, phone: string)

  datatype TrackedOrder = TrackedOrder(
    id: Id, orderNumber: Option<string>, garmentType: string, description: string, status: string,
    statusIndex: int, price: real, advancePaid: real, balanceDue: real, dueDate: Option<Date>,
    readyPhotoUrl: Option<string>)

  datatype Tracking = Tracking(customer: CustomerView, shop: Option<ShopView>, orders: seq<TrackedOrder>)

  /** One entry of `orders`. */
  function Tracked(d: Doc<Order>, u: ()): (r: TrackedOrder)
    ensures r.id == d.id && r.status == d.val.status
    ensures r.balanceDue == d.val.price - d.val.advancePaid
    ensures r.statusIndex == -1 <==> r.status !in OrderStatuses
    ensures r.statusIndex != -1 ==> 0 <= r.statusIndex < 5 && OrderStatuses[r.statusIndex] == r.status
    ensures r.readyPhotoUrl.None? <==> !Given(d.val.readyPhotoUrl)
  {
    TrackedOrder(d.id, d.val.orderNumber, d.val.garmentType, d.val.description, d.val.status,
                 StatusIndex(d.val.status), d.val.price, d.val.advancePaid, BalanceDue(d.val), d.val.dueDate,
                 PhotoOrNull(d.val))
  }

  /** The name, address and phone of the customer's shop, when it has one that exists
      (`address || ''` and `phone || ''`: the stored texts, empty when not set). */
  function ShopOfCustomer(shops: seq<Doc<Shop>>, c: Doc<Customer>): (r: Option<ShopView>)
    ensures r.Some? ==> c.val.shop.Some? && exists k :: 0 <= k < |shops| && shops[k].id == c.val.shop.value
                                                         && r.value.name == shops[k].val.shopName
                                                         && r.value.address == shops[k].val.address
                                                         && r.value.phone == shops[k].val.phone
    ensures c.val.shop.Some? && (exists k :: 0 <= k < |shops| && shops[k].id == c.val.shop.value) ==> r.Some?
  {
    if c.val.shop.None? then None
    else
      var k := First(shops, HasId, c.val.shop.value);
      if k.None? then None
      else Some(ShopView(shops[k.value].val.shopName, shops[k.value].val.address, shops[k.value].val.phone))
  }

  /** POST /track: the customer (400 and 404 as above), then at most three of the customer's
      newest active orders in the customer's shop; none is 404. */
  function Track(shops: seq<Doc<Shop>>, customers: seq<Doc<Customer>>, orders: seq<Doc<Order>>,
                 phone: Option<string>, shopCode: Option<string>): (r: Result<Tracking>)
    ensures var f := FindCustomer(shops, customers, phone, shopCode);
            f.Err? ==> r == Err(f.code, f.message)
    ensures FindCustomer(shops, customers, phone, shopCode).Ok? ==>
              var c := FindCustomer(shops, customers, phone, shopCode).value;
              && (Count(orders, ActiveOf, c) == 0 ==> r == Err(404, "No active orders found for this phone number"))
              && (Count(orders, ActiveOf, c) > 0 ==>
                    && r.Ok? && r.value.customer == CustomerView(c.id, c.val.name, c.val.phone)
                    && r.value.shop == ShopOfCustomer(shops, c)
                    && 1 <= |r.value.orders| <= TrackLimit
                    && r.value.orders == MapAll(ActiveOrders(orders, c), Tracked, ())
                    && forall i :: 0 <= i < |r.value.orders| ==>
                         exists d :: d in orders && ActiveOf(d, c) && r.value.orders[i] == Tracked(d, ()))
  {
    var found := FindCustomer(shops, customers, phone, shopCode);
    if found.Err? then Err(found.code, found.message)
    else
      var c := found.value;
      var list := ActiveOrders(orders, c);
      if |list| == 0 then Err(404, "No active orders found for this phone number")
      else
        var r := MapAll(list, Tracked, ());
        assert forall i :: 0 <= i < |r| ==> list[i] in orders && ActiveOf(list[i], c) && r[i] == Tracked(list[i], ());
        Ok(Tracking(CustomerView(c.id, c.val.name, c.val.phone), ShopOfCustomer(shops, c), r))
  }
}
