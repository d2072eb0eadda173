/** routes/api/admin/dashboard.js: the shop admin's overview. Every figure is read from the
    caller's shop; nothing is written. */
module AdminDashboardApi {
  import opened Basics
  import opened Collections
  import opened OrderModel
  import opened CustomerModel
  import opened InventoryModel
  import opened Store
  import opened Views
  import opened Sorting
  import opened AdminOrdersApi
  import opened AdminInventoryApi

  // ---------------------------------------------------------------- queries

  /** `{ shop, status: 'Ready for Pickup', isActive: true }`. */
  predicate ReadyInShop(d: Doc<Order>, shop: Id)
  {
    d.val.isActive && d.val.shop == Some(shop) && d.val.status == "Ready for Pickup"
  }

  /** `{ shop, $expr: { $lte: ['$quantity', '$lowStockThreshold'] } }`. */
  predicate LowInShop(d: Doc<Item>, shop: Id)
  {
    d.val.shop == Some(shop) && IsLowStock(d.val)
  }

  // ---------------------------------------------------------------- status breakdown

  /** One `$group` result: a status and the number of orders holding it. */
  datatype StatusCount = StatusCount(status: string, count: nat)

  /** The statuses the orders hold, each once. */
  function Statuses(list: seq<Doc<Order>>): (r: seq<string>)
    ensures forall x :: multiset(r)[x] <= 1
    ensures forall i :: 0 <= i < |list| ==> list[i].val.status in r
  {
    if list == [] then []
    else
      var rest := Statuses(list[1..]);
      var x := list[0].val.status;
      assert forall i :: 1 <= i < |list| ==> list[i] == list[1..][i - 1];
      if x in rest then rest
      else
        assert forall y :: multiset([x] + rest)[y] == (if y == x then 1 else 0) + multiset(rest)[y];
        [x] + rest
  }

  /** Dropping the first order lowers no count, and its own status is counted. */
  lemma CountsFront(list: seq<Doc<Order>>)
    requires list != []
    ensures forall x :: Count(list, HasStatus, x) >= Count(list[1..], HasStatus, x)
    ensures Count(list, HasStatus, list[0].val.status) > 0
  {
  }

  /** Only statuses some order holds are listed. */
  lemma {:induction false} StatusesHeld(list: seq<Doc<Order>>)
    ensures forall x :: x in Statuses(list) ==> Count(list, HasStatus, x) > 0
  {
    if list != [] {
      StatusesHeld(list[1..]);
      CountsFront(list);
    }
  }

  function Itself(s: string): string
  {
    s
  }

  /** The `$group` entry of one status over the orders. */
  function Tallied(status: string, list: seq<Doc<Order>>): StatusCount
  {
    StatusCount(status, Count(list, HasStatus, status))
  }

  /** The sum of the counts of a breakdown. */
  function SumCounts(b: seq<StatusCount>): nat
  {
    if b == [] then 0 else b[0].count + SumCounts(b[1..])
  }

  /** The statuses the orders hold, each once, in ascending order (`$sort: { _id: 1 }`). */
  function SortedStatuses(list: seq<Doc<Order>>): (r: seq<string>)
    ensures forall x :: multiset(r)[x] <= 1
    ensures forall i :: 0 <= i < |list| ==> list[i].val.status in r
    ensures forall x :: x in r ==> Count(list, HasStatus, x) > 0
    ensures SortedBy(r, Itself)
  {
    var all := Statuses(list);
    StatusesHeld(list);
    var r := SortBy(all, Itself);
    assert forall x :: x in r <==> x in multiset(r);
    assert forall x :: x in all <==> x in multiset(all);
    r
  }

  /** Two positions of a list whose elements occur at most once hold different elements. */
  lemma DistinctAt(ss: seq<string>, i: nat, j: nat)
    requires forall x :: multiset(ss)[x] <= 1
    requires i < j < |ss|
    ensures ss[i] != ss[j]
  {
    assert ss == ss[..j] + [ss[j]] + ss[j + 1..];
    assert multiset(ss)[ss[j]] == multiset(ss[..j])[ss[j]] + 1 + multiset(ss[j + 1..])[ss[j]];
    assert ss[i] in ss[..j];
  }

  /** `$group` by status, then `$sort: { _id: 1 }`: each status the orders hold, once, in
      ascending order, with the number of orders holding it. */
  function Breakdown(list: seq<Doc<Order>>): (r: seq<StatusCount>)
    ensures forall i, j :: 0 <= i < j < |r| ==> LexLeq(r[i].status, r[j].status) && r[i].status != r[j].status
    ensures forall i :: 0 <= i < |r| ==> r[i].count == Count(list, HasStatus, r[i].status) && r[i].count > 0
    ensures forall i :: 0 <= i < |list| ==> exists k :: 0 <= k < |r| && r[k].status == list[i].val.status
  {
    var ss := SortedStatuses(list);
    TallyFacts(ss, list);
    MapAll(ss, Tallied, list)
  }

  /** Tallying a sorted list of distinct statuses that covers the orders, each held by one
      of them at least. */
  lemma TallyFacts(ss: seq<string>, list: seq<Doc<Order>>)
    requires forall x :: multiset(ss)[x] <= 1
    requires forall i :: 0 <= i < |list| ==> list[i].val.status in ss
    requires forall x :: x in ss ==> Count(list, HasStatus, x) > 0
    requires SortedBy(ss, Itself)
    ensures var r := MapAll(ss, Tallied, list);
            forall i, j :: 0 <= i < j < |r| ==> LexLeq(r[i].status, r[j].status) && r[i].status != r[j].status
    ensures var r := MapAll(ss, Tallied, list);
            forall i :: 0 <= i < |r| ==> r[i].count == Count(list, HasStatus, r[i].status) && r[i].count > 0
    ensures var r := MapAll(ss, Tallied, list);
            forall i :: 0 <= i < |list| ==> exists k :: 0 <= k < |r| && r[k].status == list[i].val.status
  {
    var r := MapAll(ss, Tallied, list);
    forall i, j | 0 <= i < j < |r|
      ensures LexLeq(r[i].status, r[j].status) && r[i].status != r[j].status
    {
      assert r[i].status == Itself(ss[i]) && r[j].status == Itself(ss[j]);
      DistinctAt(ss, i, j);
    }
    forall i | 0 <= i < |r|
      ensures r[i].count == Count(list, HasStatus, r[i].status) && r[i].count > 0
    {
      assert r[i] == Tallied(ss[i], list);
    }
    forall i | 0 <= i < |list|
      ensures exists k :: 0 <= k < |r| && r[k].status == list[i].val.status
    {
      var k :| 0 <= k < |ss| && ss[k] == list[i].val.status;
      assert r[k].status == ss[k];
    }
  }

  /** The breakdown accounts for every order exactly once: its counts add up to the number
      of orders it was computed from. */
  lemma BreakdownSums(list: seq<Doc<Order>>)
    ensures SumCounts(Breakdown(list)) == |list|
  {
    TallyTotal(list, SortedStatuses(list));
  }

  /** Counted over a list of distinct statuses that holds every status of the orders, each
      order is counted once. */
  lemma {:induction false} TallyTotal(list: seq<Doc<Order>>, ss: seq<string>)
    requires forall x :: multiset(ss)[x] <= 1
    requires forall i :: 0 <= i < |list| ==> list[i].val.status in ss
    ensures SumCounts(MapAll(ss, Tallied, list)) == |list|
  {
    if list == [] {
      TallyNone(ss);
    } else {
      var d, rest := list[0], list[1..];
      assert list == [d] + rest;
      TallySplit(d, rest, ss);
      assert forall i :: 0 <= i < |rest| ==> rest[i] == list[i + 1];
      TallyTotal(rest, ss);
    }
  }

  lemma {:induction false} TallyNone(ss: seq<string>)
    ensures SumCounts(MapAll(ss, Tallied, [])) == 0
  {
    if ss != [] {
      TallyNone(ss[1..]);
    }
  }

  /** Adding one order in front raises the sum by the number of times its status is listed. */
  lemma {:induction false} TallySplit(d: Doc<Order>, rest: seq<Doc<Order>>, ss: seq<string>)
    ensures SumCounts(MapAll(ss, Tallied, [d] + rest)) == multiset(ss)[d.val.status] + SumCounts(MapAll(ss, Tallied, rest))
  {
    if ss != [] {
      TallySplit(d, rest, ss[1..]);
      TallyHead(ss, [d] + rest);
      TallyHead(ss, rest);
      CountFront(d, rest, ss[0]);
      MultisetFront(ss, d.val.status);
    }
  }

  lemma TallyHead(ss: seq<string>, list: seq<Doc<Order>>)
    requires ss != []
    ensures SumCounts(MapAll(ss, Tallied, list)) == Count(list, HasStatus, ss[0]) + SumCounts(MapAll(ss[1..], Tallied, list))
  {
    var m := MapAll(ss, Tallied, list);
    assert m[0] == Tallied(ss[0], list);
    assert m[1..] == MapAll(ss[1..], Tallied, list);
  }

  lemma CountFront(d: Doc<Order>, rest: seq<Doc<Order>>, x: string)
    ensures Count([d] + rest, HasStatus, x) == (if d.val.status == x then 1 else 0) + Count(rest, HasStatus, x)
  {
    var all := [d] + rest;
    assert all[0] == d && all[1..] == rest;
  }

  lemma MultisetFront(ss: seq<string>, x: string)
    requires ss != []
    ensures multiset(ss)[x] == (if ss[0] == x then 1 else 0) + multiset(ss[1..])[x]
  {
    assert ss == [ss[0]] + ss[1..];
  }

  // ---------------------------------------------------------------- recent orders

  /** One entry of `recentOrders`. */
  datatype RecentOrder = RecentOrder(
    id: Id, orderNumber: Option<string>, garmentType: string, status: string, statusIndex: int,
    price: real, advancePaid: real, balanceDue: real, dueDate: Option<Date>, customer: Option<CustomerRef>)

  function Recent(d: Doc<Order>, customers: seq<Doc<Customer>>): (r: RecentOrder)
    ensures r.id == d.id && r.status == d.val.status
    ensures r.price == d.val.price && r.advancePaid == d.val.advancePaid
    ensures r.balanceDue == r.price - r.advancePaid
    ensures r.statusIndex == -1 <==> r.status !in OrderStatuses
    ensures r.statusIndex != -1 ==> 0 <= r.statusIndex < 5 && OrderStatuses[r.statusIndex] == r.status
    ensures r.customer.None? <==> forall k :: 0 <= k < |customers| ==> customers[k].id != d.val.customer
  {
    RecentOrder(d.id, d.val.orderNumber, d.val.garmentType, d.val.status, StatusIndex(d.val.status),
                d.val.price, d.val.advancePaid, BalanceDue(d.val), d.val.dueDate,
                Populate(customers, d.val.customer))
  }

  /** The dashboard entry reports what the order list of the admin API reports for the same
      order. */
  lemma RecentAgreesWithList(d: Doc<Order>, customers: seq<Doc<Customer>>)
    ensures var r, f := Recent(d, customers), FormatOrder(d, customers);
            && r.id == f.id && r.orderNumber == f.orderNumber && r.garmentType == f.garmentType
            && r.status == f.status && r.statusIndex == f.statusIndex && r.price == f.price
            && r.advancePaid == f.advancePaid && r.balanceDue == f.balanceDue
            && r.dueDate == f.dueDate && r.customer == f.customer
  {
  }

  // ---------------------------------------------------------------- the dashboard

  datatype Stats = Stats(totalCustomers: nat, totalActiveOrders: nat, readyForPickup: nat, lowStockCount: nat)

  datatype Overview = Overview(stats: Stats, statusBreakdown: seq<StatusCount>,
                               recentOrders: seq<RecentOrder>, lowStockItems: seq<FormattedItem>)

  /** The size of `recentOrders`. */
  const RecentLimit: nat := 10

  /** `Inventory.find({ shop, $expr: ... })`, formatted: the shop's items at or below their
      threshold, in store order. */
  function LowStock(items: seq<Doc<Item>>, shop: Id): (r: seq<FormattedItem>)
    ensures |r| == Count(items, LowInShop, shop)
    ensures forall i :: 0 <= i < |r| ==> r[i].isLowStock && r[i].quantity <= r[i].lowStockThreshold
  {
    MapAll(Select(items, LowInShop, shop), FormatItem, ())
  }

  /** Every item of the shop at or below its threshold is listed. */
  lemma LowStockComplete(items: seq<Doc<Item>>, shop: Id)
    ensures forall d :: d in items && d.val.shop == Some(shop) && d.val.quantity <= d.val.lowStockThreshold ==>
              FormatItem(d, ()) in LowStock(items, shop)
  {
    var low := Select(items, LowInShop, shop);
    forall d | d in items && d.val.shop == Some(shop) && d.val.quantity <= d.val.lowStockThreshold
      ensures FormatItem(d, ()) in MapAll(low, FormatItem, ())
    {
      var i :| 0 <= i < |low| && low[i] == d;
      assert MapAll(low, FormatItem, ())[i] == FormatItem(d, ());
    }
  }

  /** `Order.find({ shop }).sort({ createdAt: -1 }).limit(10)`, projected. */
  function RecentOrders(orders: seq<Doc<Order>>, customers: seq<Doc<Customer>>, shop: Id): (r: seq<RecentOrder>)
    ensures |r| == if Count(orders, OrderOfShop, shop) < RecentLimit then Count(orders, OrderOfShop, shop) else RecentLimit
    ensures forall i :: 0 <= i < |r| ==> exists d :: d in orders && OrderOfShop(d, shop) && r[i] == Recent(d, customers)
    ensures InCreationOrder(orders) ==> exists newest :: NewestOf(orders, OrderOfShop, shop, RecentLimit, newest)
                                                         && r == MapAll(newest, Recent, customers)
  {
    ProjectedNewest(orders, OrderOfShop, shop, RecentLimit, Recent, customers);
    MapAll(Limit(NewestFirst(orders, OrderOfShop, shop), RecentLimit), Recent, customers)
  }

  /** The `stats` object. */
  function ShopStats(orders: seq<Doc<Order>>, customers: seq<Doc<Customer>>, items: seq<Doc<Item>>, shop: Id): (r: Stats)
    ensures r.totalCustomers == Count(customers, CustomerOfShop, shop)
    ensures r.totalActiveOrders == Count(orders, ActiveInShop, shop)
    ensures r.readyForPickup == Count(orders, ReadyInShop, shop)
    ensures r.lowStockCount == Count(items, LowInShop, shop)
    ensures r.readyForPickup <= r.totalActiveOrders
  {
    assert forall d :: ReadyInShop(d, shop) ==> ActiveInShop(d, shop);
    CountMonotone(orders, ReadyInShop, shop, ActiveInShop, shop);
    Stats(Count(customers, CustomerOfShop, shop), Count(orders, ActiveInShop, shop),
          Count(orders, ReadyInShop, shop), Count(items, LowInShop, shop))
  }

  /** GET /: the shop's counts, the breakdown of its active orders by status, its ten
      newest orders (inactive ones included) and its items at or below their threshold. */
  function Dashboard(orders: seq<Doc<Order>>, customers: seq<Doc<Customer>>, items: seq<Doc<Item>>, shop: Id): (r: Overview)
    ensures r.stats == ShopStats(orders, customers, items, shop)
    ensures r.statusBreakdown == Breakdown(Select(orders, ActiveInShop, shop))
    ensures r.recentOrders == RecentOrders(orders, customers, shop)
    ensures r.lowStockItems == LowStock(items, shop)
    ensures r.stats.totalActiveOrders == Count(orders, ActiveInShop, shop)
    ensures r.stats.readyForPickup <= r.stats.totalActiveOrders
    ensures SumCounts(r.statusBreakdown) == r.stats.totalActiveOrders
    ensures r.stats.lowStockCount == |r.lowStockItems|
    ensures |r.recentOrders| <= RecentLimit
  {
    var active := Select(orders, ActiveInShop, shop);
    BreakdownSums(active);
    Overview(ShopStats(orders, customers, items, shop), Breakdown(active),
             RecentOrders(orders, customers, shop), LowStock(items, shop))
  }
}
