/** The order record of models/Order.js: its enumerations and defaults, the schema rules
    that `save()` enforces, the `balanceDue` and `statusIndex` virtuals, and the order-number
    generator with its 26000-step cycle 1A, 2A, …, 1000A, 1B, …, 1000Z, 1A, … */
module OrderModel {
  import opened Basics
  import opened Collections

  /** `ORDER_STATUSES`, in workflow order. */
  const OrderStatuses: seq<string> := ["Order Placed", "Cutting", "In Stitching", "Final Touches", "Ready for Pickup"]

  /** The three statuses the dashboards count as "in progress". */
  const InProgressStatuses: seq<string> := ["Cutting", "In Stitching", "Final Touches"]

  const GarmentTypes: seq<string> := ["Suit", "Shirt", "Kurta", "Other"]

  const CuttingStatuses: seq<string> := ["Pending", "Done"]

  /** A due date, as the milliseconds since the epoch that `new Date` yields. */
  type Date = int

  /** A stored order. A field that may be null or missing is an `Option`; `cuttingStatus`
      is missing on orders saved before that field existed. */
  datatype Order = Order(
    customer: Id,
    orderNumber: Option<string>,
    garmentType: string,
    description: string,
    status: string,
    price: real,
    advancePaid: real,
    dueDate: Option<Date>,
    isActive: bool,
    readyPhotoUrl: Option<string>,
    pendingReadyPhoto: Option<string>,
    pendingApproval: bool,
    assignedTailor: Option<Id>,
    assignedCuttingMaster: Option<Id>,
    cuttingStatus: Option<string>,
    shop: Option<Id>)

  /** `new Order({ customer, garmentType, shop })`: every other field takes its schema default. */
  function NewOrder(customer: Id, garmentType: string, shop: Option<Id>): Order
  {
    Order(customer, None, garmentType, "", "Order Placed", 0.0, 0.0, None, true,
          None, None, false, None, None, Some("Pending"), shop)
  }

  /** What `save()` accepts: the enumerations, the two minimums and the required shop. */
  predicate ValidOrder(o: Order)
  {
    && o.garmentType in GarmentTypes
    && o.status in OrderStatuses
    && o.price >= 0.0
    && o.advancePaid >= 0.0
    && (o.cuttingStatus.None? || o.cuttingStatus.value in CuttingStatuses)
    && o.shop.Some?
  }

  /** The defaults give a valid order of a known garment in the first status, not yet
      cut, waiting for approval of nothing. */
  lemma NewOrderDefaults(customer: Id, garmentType: string, shop: Id)
    requires garmentType in GarmentTypes
    ensures ValidOrder(NewOrder(customer, garmentType, Some(shop)))
    ensures StatusIndex(NewOrder(customer, garmentType, Some(shop)).status) == 0
    ensures NewOrder(customer, garmentType, Some(shop)).isActive
    ensures !NewOrder(customer, garmentType, Some(shop)).pendingApproval
  {
  }

  /** Without a shop, no order can be saved: the legacy create paths never store one. */
  lemma NoShopNoSave(o: Order)
    requires o.shop.None?
    ensures !ValidOrder(o)
  {
  }

  // ---------------------------------------------------------------- virtuals

  /** `balanceDue`: the price less the advance, not clamped at zero. It never exceeds the
      price of a valid order, and an advance above the price gives a negative balance
      rather than zero. */
  function BalanceDue(o: Order): (r: real)
    ensures r + o.advancePaid == o.price
    ensures ValidOrder(o) ==> r <= o.price
    ensures o.advancePaid > o.price ==> r < 0.0
  {
    o.price - o.advancePaid
  }

  /** `statusIndex`: the position of a status in `ORDER_STATUSES`, -1 for any other text. */
  function StatusIndex(status: string): (r: int)
    ensures -1 <= r < |OrderStatuses|
    ensures r >= 0 <==> status in OrderStatuses
    ensures r >= 0 ==> OrderStatuses[r] == status
  {
    IndexOf(OrderStatuses, status)
  }

  /** Statuses further along the workflow have larger indexes. */
  lemma StatusIndexOrder()
    ensures StatusIndex("Order Placed") == 0 && StatusIndex("Cutting") == 1
    ensures StatusIndex("In Stitching") == 2 && StatusIndex("Final Touches") == 3
    ensures StatusIndex("Ready for Pickup") == 4
  {
    assert OrderStatuses[0] == "Order Placed";
    assert OrderStatuses[1] == "Cutting" && "Cutting" != "Order Placed";
    assert OrderStatuses[2] == "In Stitching";
    assert OrderStatuses[3] == "Final Touches";
    assert OrderStatuses[4] == "Ready for Pickup";
  }

  /** The in-progress statuses are the three between the first and the last. */
  lemma InProgressIsMiddle(status: string)
    ensures status in InProgressStatuses <==> 1 <= StatusIndex(status) <= 3
  {
    StatusIndexOrder();
  }

  // ---------------------------------------------------------------- order numbers

  /** The text matches `^\d+[A-Z]$`. */
  predicate IsOrderCode(s: string)
  {
    |s| >= 2 && AllDigits(s[..|s| - 1]) && IsUpper(s[|s| - 1])
  }

  /** `parseInt(match[1], 10)`. */
  function CodeNumber(s: string): nat
    requires IsOrderCode(s)
  {
    DecimalValue(s[..|s| - 1])
  }

  /** `match[2]`. */
  function CodeLetter(s: string): char
    requires IsOrderCode(s)
  {
    s[|s| - 1]
  }

  /** `generateNextOrderNumber` after its lookup: the code that follows the shop's latest
      well-formed code, or "1A" when there is none. */
  function NextOrderNumber(last: Option<string>): (r: string)
    ensures IsOrderCode(r)
    ensures last.None? || !IsOrderCode(last.value) ==> r == "1A"
    ensures last.Some? && IsOrderCode(last.value) && CodeNumber(last.value) < 1000 ==>
              CodeNumber(r) == CodeNumber(last.value) + 1 && CodeLetter(r) == CodeLetter(last.value)
    ensures last.Some? && IsOrderCode(last.value) && CodeNumber(last.value) >= 1000 && CodeLetter(last.value) == 'Z' ==>
              r == "1A"
    ensures last.Some? && IsOrderCode(last.value) && CodeNumber(last.value) >= 1000 && CodeLetter(last.value) != 'Z' ==>
              CodeNumber(r) == 1 && CodeLetter(r) as int == CodeLetter(last.value) as int + 1
  {
    if last.None? || last.value == [] then "1A"
    else if !IsOrderCode(last.value) then "1A"
    else
      var n := CodeNumber(last.value);
      var letter := CodeLetter(last.value);
      if n < 1000 then
        CodeOf(n + 1, letter)
      else if letter == 'Z' then "1A"
      else CodeOf(1, (letter as int + 1) as char)
  }

  /** The text `${number}${letter}`. */
  function CodeOf(n: nat, letter: char): (r: string)
    requires IsUpper(letter)
    ensures IsOrderCode(r) && CodeNumber(r) == n && CodeLetter(r) == letter
  {
    var r := Decimal(n) + [letter];
    assert r[..|r| - 1] == Decimal(n);
    DecimalRoundTrip(n);
    r
  }

  /** A code is determined by its number and its letter. */
  lemma CodeOfParts(s: string)
    requires IsOrderCode(s)
    requires CodeNumber(s) > 0 && s[0] != '0'
    ensures s == CodeOf(CodeNumber(s), CodeLetter(s))
  {
    var digits := s[..|s| - 1];
    DecimalCanonical(digits);
    assert s == digits + [s[|s| - 1]];
  }

  /** A numeral without a leading zero is the numeral of its value. */
  lemma {:induction false} DecimalCanonical(s: string)
    requires |s| >= 1 && AllDigits(s) && s[0] != '0'
    ensures Decimal(DecimalValue(s)) == s
  {
    var init := s[..|s| - 1];
    var d := s[|s| - 1] as int - '0' as int;
    if init == [] {
      assert DecimalValue(s) == d;
      assert s == [DigitChar(d)];
    } else {
      assert init[0] == s[0];
      DecimalCanonical(init);
      DecimalPositive(init);
      var v := DecimalValue(s);
      assert v == DecimalValue(init) * 10 + d;
      assert v / 10 == DecimalValue(init) && v % 10 == d;
      assert s == init + [DigitChar(d)];
    }
  }

  lemma {:induction false} DecimalPositive(s: string)
    requires |s| >= 1 && AllDigits(s) && s[0] != '0'
    ensures DecimalValue(s) >= 1
  {
    if |s| > 1 {
      assert s[..|s| - 1][0] == s[0];
      DecimalPositive(s[..|s| - 1]);
    }
  }

  /** The orders of `shop` whose number is a well-formed code (the generator's query). */
  predicate HasCodeInShop(d: Doc<Order>, shop: Id)
  {
    d.val.shop == Some(shop) && d.val.orderNumber.Some? && IsOrderCode(d.val.orderNumber.value)
  }

  /** The lookup of `generateNextOrderNumber`: the number of the newest order of the shop
      that carries a well-formed code. */
  function LatestCode(orders: seq<Doc<Order>>, shop: Id): (r: Option<string>)
    ensures r.None? <==> forall d :: d in orders ==> !HasCodeInShop(d, shop)
    ensures r.Some? ==> IsOrderCode(r.value)
    ensures r.Some? ==> exists k :: LastCodeAt(orders, shop, k) && orders[k].val.orderNumber == r
  {
    var newest := Newest(orders);
    var i := First(newest, HasCodeInShop, shop);
    if i.None? then
      assert forall d :: d in orders ==> d in newest by {
        forall d | d in orders ensures d in newest {
          var k :| 0 <= k < |orders| && orders[k] == d;
          assert newest[|orders| - 1 - k] == d;
        }
      }
      None
    else
      var k := |orders| - 1 - i.value;
      assert orders[k] == newest[i.value];
      assert forall j :: k < j < |orders| ==> orders[j] == newest[|orders| - 1 - j];
      assert LastCodeAt(orders, shop, k);
      Some(newest[i.value].val.orderNumber.value)
  }

  /** `Order.generateNextOrderNumber(shopId)` over the order store. */
  function GenerateNextOrderNumber(orders: seq<Doc<Order>>, shop: Id): (r: string)
    ensures IsOrderCode(r)
    ensures (forall d :: d in orders ==> !HasCodeInShop(d, shop)) ==> r == "1A"
  {
    NextOrderNumber(LatestCode(orders, shop))
  }

  /** Codes of another shop do not influence a shop's next code. */
  lemma OtherShopsIgnored(orders: seq<Doc<Order>>, d: Doc<Order>, shop: Id)
    requires d.val.shop != Some(shop)
    ensures GenerateNextOrderNumber(orders + [d], shop) == GenerateNextOrderNumber(orders, shop)
  {
    SameLatestCode(orders, d, shop);
  }

  lemma SameLatestCode(orders: seq<Doc<Order>>, d: Doc<Order>, shop: Id)
    requires d.val.shop != Some(shop)
    ensures LatestCode(orders + [d], shop) == LatestCode(orders, shop)
  {
    var s := orders + [d];
    var a, b := LatestCode(s, shop), LatestCode(orders, shop);
    assert forall k :: 0 <= k < |orders| ==> s[k] == orders[k];
    if a.Some? {
      var k :| LastCodeAt(s, shop, k) && s[k].val.orderNumber == a;
      assert k != |orders|;
      assert LastCodeAt(orders, shop, k);
      assert b.Some? by { assert orders[k] in orders; }
      var k' :| LastCodeAt(orders, shop, k') && orders[k'].val.orderNumber == b;
      LastCodeUnique(orders, shop, k, k');
    } else {
      assert forall x :: x in orders ==> x in s;
    }
  }

  /** Position `k` holds the newest well-formed code of the shop. */
  predicate LastCodeAt(orders: seq<Doc<Order>>, shop: Id, k: int)
  {
    0 <= k < |orders| && HasCodeInShop(orders[k], shop) && forall j :: k < j < |orders| ==> !HasCodeInShop(orders[j], shop)
  }

  lemma LastCodeUnique(orders: seq<Doc<Order>>, shop: Id, k: int, k': int)
    requires LastCodeAt(orders, shop, k) && LastCodeAt(orders, shop, k')
    ensures k == k'
  {
  }

  // ---------------------------------------------------------------- the cycle

  const CycleLength: nat := 26000

  /** The `p`-th code of the cycle: numbers 1..1000 within each letter A..Z. */
  function CycleCode(p: nat): (r: string)
    requires p < CycleLength
    ensures IsOrderCode(r)
    ensures CodeNumber(r) == p % 1000 + 1
    ensures CodeLetter(r) as int == 'A' as int + p / 1000
  {
    CodeOf(p % 1000 + 1, ('A' as int + p / 1000) as char)
  }

  /** Each code of the cycle is followed by the next one, and the last by the first. */
  lemma NextInCycle(p: nat)
    requires p < CycleLength
    ensures NextOrderNumber(Some(CycleCode(p))) == CycleCode((p + 1) % CycleLength)
  {
    if p % 1000 < 999 {
      NextSameLetter(p);
    } else if p / 1000 == 25 {
      NextWraps(p);
    } else {
      NextLetter(p);
    }
  }

  lemma NextSameLetter(p: nat)
    requires p < CycleLength && p % 1000 < 999
    ensures NextOrderNumber(Some(CycleCode(p))) == CycleCode((p + 1) % CycleLength)
  {
    var c, letter := CycleCode(p), ('A' as int + p / 1000) as char;
    assert CodeNumber(c) == p % 1000 + 1 < 1000 && CodeLetter(c) == letter;
    assert NextOrderNumber(Some(c)) == CodeOf(p % 1000 + 2, letter);
    SameThousand(p);
    assert CycleCode(p + 1) == CodeOf(p % 1000 + 2, letter);
  }

  lemma SameThousand(p: nat)
    requires p < CycleLength && p % 1000 < 999
    ensures (p + 1) % 1000 == p % 1000 + 1 && (p + 1) / 1000 == p / 1000
    ensures (p + 1) % CycleLength == p + 1
  {
  }

  lemma NextWraps(p: nat)
    requires p < CycleLength && p % 1000 == 999 && p / 1000 == 25
    ensures NextOrderNumber(Some(CycleCode(p))) == CycleCode((p + 1) % CycleLength)
  {
    assert p == 25999;
    var c := CycleCode(p);
    assert CodeNumber(c) == 1000 && CodeLetter(c) == 'Z';
    assert NextOrderNumber(Some(c)) == "1A";
    CycleStart();
  }

  lemma NextLetter(p: nat)
    requires p < CycleLength && p % 1000 == 999 && p / 1000 < 25
    ensures NextOrderNumber(Some(CycleCode(p))) == CycleCode((p + 1) % CycleLength)
  {
    var c, letter := CycleCode(p), ('A' as int + p / 1000) as char;
    assert CodeNumber(c) == 1000 && CodeLetter(c) == letter != 'Z';
    assert NextOrderNumber(Some(c)) == CodeOf(1, (letter as int + 1) as char);
    NextThousand(p);
    assert CycleCode(p + 1) == CodeOf(1, (letter as int + 1) as char);
  }

  lemma NextThousand(p: nat)
    requires p < CycleLength && p % 1000 == 999 && p / 1000 < 25
    ensures (p + 1) % 1000 == 0 && (p + 1) / 1000 == p / 1000 + 1
    ensures (p + 1) % CycleLength == p + 1
  {
    assert p + 1 == (p / 1000 + 1) * 1000;
  }

  /** The codes the generator produces from "1A" on, one call per step. */
  function Iterate(k: nat): string
  {
    if k == 0 then "1A" else NextOrderNumber(Some(Iterate(k - 1)))
  }

  /** The `k`-th code is the `k mod 26000`-th code of the cycle: the sequence runs
      1A..1000A, 1B..1000B, …, 1000Z and starts over. */
  lemma {:induction false} IterateInCycle(k: nat)
    ensures Iterate(k) == CycleCode(k % CycleLength)
  {
    if k == 0 {
      CycleStart();
    } else {
      IterateInCycle(k - 1);
      IterateStep(k);
    }
  }

  lemma IterateStep(k: nat)
    requires k > 0 && Iterate(k - 1) == CycleCode((k - 1) % CycleLength)
    ensures Iterate(k) == CycleCode(k % CycleLength)
  {
    StepMod(k);
    NextInCycle((k - 1) % CycleLength);
  }

  /** The cycle starts at "1A". */
  lemma CycleStart()
    ensures CycleCode(0) == "1A"
  {
    assert Decimal(1) == "1";
  }

  lemma StepMod(k: nat)
    requires k > 0
    ensures ((k - 1) % CycleLength + 1) % CycleLength == k % CycleLength
  {
  }

  /** Different positions of the cycle give different codes. */
  lemma CycleCodeInjective(p: nat, q: nat)
    requires p < CycleLength && q < CycleLength
    requires CycleCode(p) == CycleCode(q)
    ensures p == q
  {
    assert p % 1000 == q % 1000 && p / 1000 == q / 1000;
  }

  /** Two steps give the same code exactly when they are a multiple of 26000 apart, so
      the sequence has period 26000 and no shorter one. */
  lemma CyclePeriod(i: nat, j: nat)
    ensures Iterate(i) == Iterate(j) <==> i % CycleLength == j % CycleLength
  {
    IterateInCycle(i);
    IterateInCycle(j);
    if Iterate(i) == Iterate(j) {
      CycleCodeInjective(i % CycleLength, j % CycleLength);
    }
  }
}
