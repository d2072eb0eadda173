/** What several routes share when they answer: the populated customer reference, the
    photo-or-null field, the work counters of the tailor dashboards, newest-first lists and
    `skip`/`limit` pagination with its page count. */
module Views {
  import opened Basics
  import opened Collections
  import opened OrderModel
  import opened CustomerModel
  import opened InventoryModel
  import opened StaffModel
  import opened Store

  // ---------------------------------------------------------------- shop-scoped queries

  /** `{ _id: id, shop: req.shopId }`. */
  datatype Scoped = Scoped(id: Id, shop: Id)

  predicate OrderAt(d: Doc<Order>, q: Scoped) { d.id == q.id && d.val.shop == Some(q.shop) }

  predicate CustomerAt(d: Doc<Customer>, q: Scoped) { d.id == q.id && d.val.shop == Some(q.shop) }

  predicate ItemAt(d: Doc<Item>, q: Scoped) { d.id == q.id && d.val.shop == Some(q.shop) }

  predicate StaffAt(d: Doc<Staff>, q: Scoped) { d.id == q.id && d.val.shop == Some(q.shop) }

  /** `{ shop: req.shopId }`. */
  predicate OrderOfShop(d: Doc<Order>, shop: Id) { d.val.shop == Some(shop) }

  predicate CustomerOfShop(d: Doc<Customer>, shop: Id) { d.val.shop == Some(shop) }

  predicate ItemOfShop(d: Doc<Item>, shop: Id) { d.val.shop == Some(shop) }

  predicate StaffOfShop(d: Doc<Staff>, shop: Id) { d.val.shop == Some(shop) }

  /** `{ isActive: true, shop: req.shopId }`. */
  predicate ActiveInShop(d: Doc<Order>, shop: Id) { d.val.isActive && d.val.shop == Some(shop) }

  /** `populate('customer', 'name phone')`: the id, name and phone of the customer. */
  datatype CustomerRef = CustomerRef(id: Id, name: string, phone: string)

  /** `populate('customer')` on a detail page: the whole referenced customer document, or
      null when no customer has that id any more; the shop is not looked at. */
  function Referenced(customers: seq<Doc<Customer>>, id: Id): (r: Option<Doc<Customer>>)
    ensures r.None? <==> forall c :: c in customers ==> c.id != id
    ensures r.Some? ==> r.value in customers && r.value.id == id
  {
    var k := First(customers, HasId, id);
    if k.None? then None else Some(customers[k.value])
  }

  /** The referenced customer, or null when no customer has that id any more (a deleted
      customer); `populate` does not look at the shop. */
  function Populate(customers: seq<Doc<Customer>>, id: Id): (r: Option<CustomerRef>)
    ensures r.None? <==> forall k :: 0 <= k < |customers| ==> customers[k].id != id
    ensures r.Some? ==> exists k :: 0 <= k < |customers| && customers[k].id == id
                                  && r.value == CustomerRef(id, customers[k].val.name, customers[k].val.phone)
  {
    var k := First(customers, HasId, id);
    if k.None? then None
    else Some(CustomerRef(id, customers[k.value].val.name, customers[k.value].val.phone))
  }

  /** `o.readyPhotoUrl || null`: an empty text is reported as null. */
  function PhotoOrNull(o: Order): (r: Option<string>)
    ensures r.Some? <==> Given(o.readyPhotoUrl)
    ensures r.Some? ==> r == o.readyPhotoUrl
  {
    if Given(o.readyPhotoUrl) then o.readyPhotoUrl else None
  }

  // ---------------------------------------------------------------- work counters

  predicate HasStatus(d: Doc<Order>, status: string)
  {
    d.val.status == status
  }

  predicate InProgress(d: Doc<Order>, u: ())
  {
    d.val.status in InProgressStatuses
  }

  /** The `stats` object of the tailor dashboards. */
  datatype WorkStats = WorkStats(totalOrders: nat, readyForPickup: nat, inProgress: nat)

  function StatusStats(list: seq<Doc<Order>>): WorkStats
  {
    WorkStats(|list|, Count(list, HasStatus, "Ready for Pickup"), Count(list, InProgress, ()))
  }

  /** An order is counted at most once: ready and in progress exclude each other, and an
      order still in 'Order Placed' (or with any other status) is counted in neither. */
  lemma StatsBounded(list: seq<Doc<Order>>)
    ensures StatusStats(list).readyForPickup + StatusStats(list).inProgress <= StatusStats(list).totalOrders
    ensures StatusStats(list).readyForPickup + StatusStats(list).inProgress + Count(list, HasStatus, "Order Placed") <= |list|
  {
    assert "Ready for Pickup" !in InProgressStatuses;
    DisjointCounts(list, HasStatus, "Ready for Pickup", InProgress, ());
    assert forall d :: HasStatus(d, "Ready for Pickup") ==> NotPlaced(d, ());
    assert forall d :: InProgress(d, ()) ==> NotPlaced(d, ());
    assert forall d :: NotPlaced(d, ()) <==> !HasStatus(d, "Order Placed");
    ComplementCounts(list, NotPlaced, (), HasStatus, "Order Placed");
    SplitCounts(list);
  }

  predicate NotPlaced(d: Doc<Order>, u: ())
  {
    d.val.status != "Order Placed"
  }

  lemma {:induction false} SplitCounts(list: seq<Doc<Order>>)
    ensures Count(list, HasStatus, "Ready for Pickup") + Count(list, InProgress, ()) <= Count(list, NotPlaced, ())
  {
    if list != [] {
      SplitCounts(list[1..]);
      assert "Ready for Pickup" !in InProgressStatuses;
      assert "Order Placed" !in InProgressStatuses;
    }
  }

  // ---------------------------------------------------------------- newest first

  /** `find(q).sort({ createdAt: -1 })`: the matching documents, the latest first. */
  function NewestFirst<T, Q>(s: seq<T>, m: (T, Q) -> bool, q: Q): (r: seq<T>)
    ensures |r| == Count(s, m, q)
    ensures forall i :: 0 <= i < |r| ==> r[i] in s && m(r[i], q)
    ensures forall x :: x in s && m(x, q) ==> x in r
  {
    var list := Select(s, m, q);
    var r := Newest(list);
    assert forall x :: x in list ==> x in r by {
      forall x | x in list ensures x in r {
        var k :| 0 <= k < |list| && list[k] == x;
        assert r[|list| - 1 - k] == x;
      }
    }
    r
  }

  /** Documents in creation order: the ids ascend, as in every collection of the store. */
  predicate InCreationOrder<T>(s: seq<Doc<T>>)
  {
    forall i, j :: 0 <= i < j < |s| ==> s[i].id < s[j].id
  }

  /** Every collection of a valid store is in creation order, so the newest-first results
      below hold for the store's own sequences. */
  lemma StoredInCreationOrder(db: Db)
    requires db.Valid()
    ensures InCreationOrder(db.orders) && InCreationOrder(db.customers) && InCreationOrder(db.items)
    ensures InCreationOrder(db.tailors) && InCreationOrder(db.cuttingMasters)
  {
  }

  /** `r` is what `find(q).sort({ createdAt: -1 }).limit(n)` should give: as many matches
      as there are up to `n`, each a match, from the latest down, and no match left out is
      newer than one shown. */
  ghost predicate NewestOf<T, Q>(s: seq<Doc<T>>, m: (Doc<T>, Q) -> bool, q: Q, n: nat, r: seq<Doc<T>>)
  {
    && |r| == (if Count(s, m, q) < n then Count(s, m, q) else n)
    && (forall i :: 0 <= i < |r| ==> r[i] in s && m(r[i], q))
    && (forall i, j :: 0 <= i < j < |r| ==> r[i].id > r[j].id)
    && (forall x, i :: x in s && m(x, q) && x !in r && 0 <= i < |r| ==> x.id < r[i].id)
  }

  /** Sorted newest first, a query over a collection in creation order lists ids from the
      largest down. */
  lemma NewestFirstDescending<T, Q>(s: seq<Doc<T>>, m: (Doc<T>, Q) -> bool, q: Q)
    ensures var r := NewestFirst(s, m, q);
            InCreationOrder(s) ==> forall i, j :: 0 <= i < j < |r| ==> r[i].id > r[j].id
  {
    if InCreationOrder(s) {
      assert Pairwise(s, IdBefore) by {
        forall i, j | 0 <= i < j < |s| ensures IdBefore(s[i], s[j]) {
        }
      }
      SelectPairwise(s, m, q, IdBefore);
      var sel := Select(s, m, q);
      var r := NewestFirst(s, m, q);
      assert r == Newest(sel);
      forall i, j | 0 <= i < j < |r|
        ensures r[i].id > r[j].id
      {
        var a, b := |sel| - 1 - j, |sel| - 1 - i;
        assert IdBefore(sel[a], sel[b]);
      }
    }
  }

  /** A view that projects the newest-first matches one by one, each projection keeping its
      document's id, lists the ids from the largest down. */
  lemma ProjectedDescending<T, Q, C, U>(s: seq<Doc<T>>, m: (Doc<T>, Q) -> bool, q: Q, f: (Doc<T>, C) -> U, c: C, id: U -> Id)
    requires forall d :: id(f(d, c)) == d.id
    ensures var r := MapAll(NewestFirst(s, m, q), f, c);
            InCreationOrder(s) ==> forall i, j :: 0 <= i < j < |r| ==> id(r[i]) > id(r[j])
  {
    NewestFirstDescending(s, m, q);
  }

  /** `limit(n)` after the newest-first sort keeps the `n` newest matches. */
  lemma LimitNewest<T, Q>(s: seq<Doc<T>>, m: (Doc<T>, Q) -> bool, q: Q, n: nat)
    ensures InCreationOrder(s) ==> NewestOf(s, m, q, n, Limit(NewestFirst(s, m, q), n))
  {
    if InCreationOrder(s) {
      LimitNewestOrdered(s, m, q, n);
    }
  }

  lemma LimitNewestOrdered<T, Q>(s: seq<Doc<T>>, m: (Doc<T>, Q) -> bool, q: Q, n: nat)
    requires InCreationOrder(s)
    ensures NewestOf(s, m, q, n, Limit(NewestFirst(s, m, q), n))
  {
    NewestFirstDescending(s, m, q);
    LimitKeepsNewest(NewestFirst(s, m, q), n);
  }

  /** Cutting a list ordered from the largest id down after `n` entries keeps every entry
      that is newer than any it drops. */
  lemma LimitKeepsNewest<T>(all: seq<Doc<T>>, n: nat)
    requires forall i, j :: 0 <= i < j < |all| ==> all[i].id > all[j].id
    ensures var r := Limit(all, n);
            && (forall i :: 0 <= i < |r| ==> r[i] == all[i])
            && (forall i, j :: 0 <= i < j < |r| ==> r[i].id > r[j].id)
            && (forall x, i :: x in all && x !in r && 0 <= i < |r| ==> x.id < r[i].id)
  {
    var r := Limit(all, n);
    forall x, i | x in all && x !in r && 0 <= i < |r|
      ensures x.id < r[i].id
    {
      var j :| 0 <= j < |all| && all[j] == x;
      assert forall k :: 0 <= k < |r| ==> r[k] == all[k] && r[k] != x;
      assert |r| <= j;
    }
  }

  /** `find(q).sort({ createdAt: -1 }).limit(n)`, each document projected: as many entries
      as there are matches, up to `n`, each the projection of a match, and in a store that
      hands out ids in creation order, the projections of the `n` newest. */
  lemma ProjectedNewest<T, Q, C, U>(s: seq<Doc<T>>, m: (Doc<T>, Q) -> bool, q: Q, n: nat, f: (Doc<T>, C) -> U, c: C)
    ensures var r := MapAll(Limit(NewestFirst(s, m, q), n), f, c);
            && |r| == (if Count(s, m, q) < n then Count(s, m, q) else n)
            && (forall i :: 0 <= i < |r| ==> exists x :: x in s && m(x, q) && r[i] == f(x, c))
            && (InCreationOrder(s) ==> exists newest :: NewestOf(s, m, q, n, newest) && r == MapAll(newest, f, c))
  {
    ProjectedMatchesOnly(s, m, q, Limit(NewestFirst(s, m, q), n), f, c);
    LimitNewest(s, m, q, n);
  }

  /** Projecting a list of matches gives entries that are each the projection of a match. */
  lemma ProjectedMatchesOnly<T, Q, C, U>(s: seq<T>, m: (T, Q) -> bool, q: Q, l: seq<T>, f: (T, C) -> U, c: C)
    requires forall i :: 0 <= i < |l| ==> l[i] in s && m(l[i], q)
    ensures var r := MapAll(l, f, c);
            forall i :: 0 <= i < |r| ==> exists x :: x in s && m(x, q) && r[i] == f(x, c)
  {
    var r := MapAll(l, f, c);
    forall i | 0 <= i < |r|
      ensures exists x :: x in s && m(x, q) && r[i] == f(x, c)
    {
      assert l[i] in s && m(l[i], q);
    }
  }

  /** `list.map(d => f(d, c))`: one projection per document, in the same order. */
  function MapAll<T, C, U>(s: seq<T>, f: (T, C) -> U, c: C): (r: seq<U>)
    ensures |r| == |s|
    ensures forall i :: 0 <= i < |s| ==> r[i] == f(s[i], c)
  {
    if s == [] then [] else [f(s[0], c)] + MapAll(s[1..], f, c)
  }

  /** The projected newest-first list of a query shows exactly the matching documents:
      each entry is the projection of a match, and each match has its entry. */
  lemma ProjectedMatches<T, Q, C, U>(s: seq<T>, m: (T, Q) -> bool, q: Q, f: (T, C) -> U, c: C)
    ensures var r := MapAll(NewestFirst(s, m, q), f, c);
            && |r| == Count(s, m, q)
            && (forall i :: 0 <= i < |r| ==> exists x :: x in s && m(x, q) && r[i] == f(x, c))
            && (forall x :: x in s && m(x, q) ==> f(x, c) in r)
  {
    ProjectedSound(s, m, q, f, c);
    ProjectedComplete(s, m, q, f, c);
  }

  lemma ProjectedSound<T, Q, C, U>(s: seq<T>, m: (T, Q) -> bool, q: Q, f: (T, C) -> U, c: C)
    ensures var r := MapAll(NewestFirst(s, m, q), f, c);
            forall i :: 0 <= i < |r| ==> exists x :: x in s && m(x, q) && r[i] == f(x, c)
  {
    var n := NewestFirst(s, m, q);
    var r := MapAll(n, f, c);
    forall i | 0 <= i < |r|
      ensures exists x :: x in s && m(x, q) && r[i] == f(x, c)
    {
      var x := n[i];
      assert x in s && m(x, q) && r[i] == f(x, c);
    }
  }

  lemma ProjectedComplete<T, Q, C, U>(s: seq<T>, m: (T, Q) -> bool, q: Q, f: (T, C) -> U, c: C)
    ensures var r := MapAll(NewestFirst(s, m, q), f, c);
            forall x :: x in s && m(x, q) ==> f(x, c) in r
  {
    var n := NewestFirst(s, m, q);
    forall x | x in s && m(x, q)
      ensures f(x, c) in MapAll(n, f, c)
    {
      var i :| 0 <= i < |n| && n[i] == x;
      assert MapAll(n, f, c)[i] == f(x, c);
    }
  }

  /** Each entry of a page of such a list is the projection of a matching document. */
  lemma PagedMatches<T, Q, C, U>(s: seq<T>, m: (T, Q) -> bool, q: Q, f: (T, C) -> U, c: C, page: int, limit: int)
    ensures var r := Paginate(MapAll(NewestFirst(s, m, q), f, c), page, limit);
            && (r.Ok? ==> r.value.total == Count(s, m, q))
            && (r.Ok? ==> forall i :: 0 <= i < |r.value.items| ==> exists x :: x in s && m(x, q) && r.value.items[i] == f(x, c))
  {
    var all := MapAll(NewestFirst(s, m, q), f, c);
    ProjectedSound(s, m, q, f, c);
    var r := Paginate(all, page, limit);
    if r.Ok? {
      var skip := (page - 1) * limit;
      forall i | 0 <= i < |r.value.items|
        ensures exists x :: x in s && m(x, q) && r.value.items[i] == f(x, c)
      {
        assert 0 <= skip + i < |all| && r.value.items[i] == all[skip + i];
      }
    }
  }

  /** A page of such a list holds, from the skip on, the projections of the newest-first
      matches, as many as fit. */
  lemma PagedNewest<T, Q, C, U>(s: seq<T>, m: (T, Q) -> bool, q: Q, f: (T, C) -> U, c: C, page: int, limit: int)
    ensures var r := Paginate(MapAll(NewestFirst(s, m, q), f, c), page, limit);
            var all := NewestFirst(s, m, q);
            var skip := (page - 1) * limit;
            r.Ok? ==> && |r.value.items| == PageSize(Count(s, m, q), skip, limit)
                      && forall i :: 0 <= i < |r.value.items| ==> skip + i < |all| && r.value.items[i] == f(all[skip + i], c)
  {
  }

  /** `items` is the window of `all` that `skip(skip).limit(limit)` leaves, each projected by `f`. */
  ghost predicate PageFrom<T, C, U>(items: seq<U>, all: seq<T>, skip: int, limit: int, f: (T, C) -> U, c: C)
  {
    && |items| == PageSize(|all|, skip, limit)
    && forall i :: 0 <= i < |items| ==> 0 <= skip + i < |all| && items[i] == f(all[skip + i], c)
  }

  /** `find(q).sort({ createdAt: -1 }).skip(...).limit(...)`, each document projected, with
      the count as the total: the page holds, from the skip on, the projections of the
      newest-first matches, as many as fit. */
  function NewestPage<T, Q, C, U>(s: seq<T>, m: (T, Q) -> bool, q: Q, f: (T, C) -> U, c: C, page: int, limit: int): (r: Result<Page<U>>)
    ensures r.Err? <==> (page - 1) * limit < 0
    ensures r.Err? ==> r.code == 500
    ensures r.Ok? ==> r.value.total == Count(s, m, q) && r.value.page == page
    ensures r.Ok? ==> PageFrom(r.value.items, NewestFirst(s, m, q), (page - 1) * limit, limit, f, c)
  {
    PagedNewest(s, m, q, f, c, page, limit);
    Paginate(MapAll(NewestFirst(s, m, q), f, c), page, limit)
  }

  /** A query sorted by `createdAt` descending lists ids from the largest down. */
  lemma NewestDescending<T, K, Q>(s: seq<Doc<T>>, next: nat, key: T -> Option<K>, m: (Doc<T>, Q) -> bool, q: Q)
    requires Table(s, next, key)
    ensures var r := Newest(Select(s, m, q));
            forall i, j :: 0 <= i < j < |r| ==> r[i].id > r[j].id
  {
    assert Pairwise(s, IdBefore);
    SelectPairwise(s, m, q, IdBefore);
  }

  // ---------------------------------------------------------------- pagination

  /** `Math.ceil(total / limit)` for a limit that is not zero. */
  function CeilDiv(total: nat, limit: int): (r: int)
    requires limit != 0
    ensures limit > 0 ==> (r - 1) * limit < total <= r * limit || (total == 0 && r == 0)
    ensures limit > 0 ==> r >= 0
    ensures limit < 0 ==> r <= 0
  {
    if limit > 0 then (total + limit - 1) / limit else -(total / -limit)
  }

  /** One page of a list: the page's documents, the total, the page number and the page
      count (null when the limit is 0 and the division gives Infinity or NaN). */
  datatype Page<T> = Page(items: seq<T>, total: nat, page: int, pages: Option<int>)

  /** `skip((page - 1) * limit).limit(parseInt(limit))` with `pages: Math.ceil(total /
      limit)`. A negative skip is refused by the server; a limit of 0 means no limit, and a
      negative limit is read as its absolute value. */
  function Paginate<T>(s: seq<T>, page: int, limit: int): (r: Result<Page<T>>)
    ensures r.Err? <==> (page - 1) * limit < 0
    ensures r.Err? ==> r.code == 500
    ensures r.Ok? ==> r.value.total == |s| && r.value.page == page
    ensures r.Ok? ==> (r.value.pages.None? <==> limit == 0)
    ensures r.Ok? ==> var skip := (page - 1) * limit;
                      && (limit != 0 ==> |r.value.items| <= Abs(limit))
                      && (forall i :: 0 <= i < |r.value.items| ==> skip + i < |s| && r.value.items[i] == s[skip + i])
                      && |r.value.items| == PageSize(|s|, skip, limit)
  {
    var skip := (page - 1) * limit;
    if skip < 0 then Err(500, "Server error")
    else
      var rest := if skip <= |s| then s[skip..] else [];
      var items := if limit == 0 then rest else Limit(rest, Abs(limit));
      Ok(Page(items, |s|, page, if limit == 0 then None else Some(CeilDiv(|s|, limit))))
  }

  /** The number of documents a page holds: those from the skip on, at most the limit of
      them unless the limit is 0. */
  function PageSize(n: nat, skip: int, limit: int): nat
  {
    if skip >= n then 0 else if limit == 0 || n - skip <= Abs(limit) then n - skip else Abs(limit)
  }

  function Abs(n: int): nat
  {
    if n < 0 then -n else n
  }

  /** With a positive limit, the pages 1 to `pages` cover the list, and the document at
      position `j` is shown on page `j / limit + 1`, at place `j % limit`. */
  lemma PageOfIndex<T>(s: seq<T>, limit: int, j: nat)
    requires limit > 0 && j < |s|
    ensures var p := j / limit + 1;
            && Paginate(s, p, limit).Ok?
            && j % limit < |Paginate(s, p, limit).value.items|
            && Paginate(s, p, limit).value.items[j % limit] == s[j]
            && 1 <= p <= Paginate(s, p, limit).value.pages.value
  {
    var p := j / limit + 1;
    DivParts(j, limit);
    assert (p - 1) * limit + j % limit == j;
    CeilCovers(|s|, limit, j);
  }

  lemma DivParts(j: nat, limit: int)
    requires limit > 0
    ensures (j / limit) * limit + j % limit == j && 0 <= j % limit < limit
    ensures (j / limit + 1 - 1) * limit == (j / limit) * limit
  {
  }

  /** A position before the end lies on one of the first `Math.ceil(total / limit)` pages. */
  lemma CeilCovers(total: nat, limit: int, j: nat)
    requires limit > 0 && j < total
    ensures j / limit < CeilDiv(total, limit)
  {
    var c := CeilDiv(total, limit);
    DivParts(j, limit);
    if j / limit >= c {
      MulMono(j / limit, c, limit);
    }
  }

  lemma MulMono(a: int, b: int, l: int)
    requires l > 0 && a >= b
    ensures a * l >= b * l
  {
  }
}
