# Tailor shop: a verified model

The system is a multi-tenant tailoring shop server. Every shop has its own admins, tailors, cutting masters, customers, orders and inventory items. All of these sit in one document store, and each document names its shop.

Several groups of handlers act on that store:
- JSON API handlers for the admin, tailor, cutting-master and public tracking screens;
- an older set of server-rendered pages that answer with a flash message and a redirect;
- the browser-side measurement editor of the customer forms.

This project models the record rules of the schemas, the handlers' checks and updates, and the editor's block bookkeeping, and proves what each of them promises.

## How the model is laid out

- `basics.dfy` (`Basics`): results carry an HTTP-like code and a message. A flash followed by a redirect is code 302. Re-rendering the public page with an error is code 200. The file also holds the outcome of parsing a request field (`Parsed`: absent, blank, a value, or invalid), digit stripping, trimming and decimal text.
- `collections.dfy`, `sorting.dfy`: the query shapes. These are selecting by a filter, the first match, counting, newest first, limit, pagination, and sorting by a key. A filter is a named predicate over a document and a query value.
- `order_model.dfy`, `customer_model.dfy`, `inventory_model.dfy`, `shop_model.dfy`, `staff_model.dfy`: one datatype per schema, its defaults, and its validation predicate.
  - The order-code generator is here, together with its period of 26000.
  - The shop-code hook is here too.
- `store.dfy` (`Store`): the class `Db` holds one sequence of documents per collection, in creation order, plus the next id.
  - Insertion and saving enforce validation and the unique indexes. They report `ValidationFailed` or `DuplicateKey(field)` and leave the collection unchanged on failure.
  - "Newest first" is the reverse of creation order, so ids descend.
- One module per route file. Handlers that only read are functions of the collections. Handlers that write are methods on `Db`, and their postconditions give the new collection and the answer.
  - Where a handler writes, a pure specification is proved about separately. Examples are `StaffApi.Create` for the staff handlers and `OrderRoutes.LegacyMerge` for the legacy order edit.
- `measurement_form.dfy` (`MeasurementForm`): the editor's tables are constants. The page is the class `Editor`, which holds the block counter and the blocks.

Where the code and its own comments or schemas disagree, the model follows the code:
- The order-code generator rolls over for every number of 1000 or more. The comments at models/Order.js:93 (the sequence "… 1000A, 1B …") and models/Order.js:116 ("number === 1000") describe a rollover at exactly 1000, but the test at models/Order.js:112 sends every number of 1000 or more to the next letter.
- The legacy create handlers build records without a shop, yet the schemas declare the shop `required` (models/Order.js:85, models/Customer.js:68, models/Tailor.js:23). Their save therefore always fails validation, and the model states that outcome rather than a creation.

Behaviour of the code that the model states as it is:
- An admin PUT of a customer that omits `measurements` clears them (`AdminCustomersApi.OmittedMeasurementsCleared`).
- A phone search with no digit in it lists every customer of the shop (`AdminCustomersApi.NoDigitsListsAll`).
- The `$inc` increment is not validated, so a negative amount can take a stock below zero (`AdminInventoryApi.Increment`).
- Public tracking without a shop code takes the first customer with that phone in any shop. The older `/track` page ignores shops entirely (`PublicRoutes.Track`).
- The older pages check uniqueness across every shop (`CustomerRoutes.CrossShopConflict`, `AdminTailorRoutes.Refusal`).
- The older pages read only eight numeric fields per measurement. `arm` is read but is not a schema field, so it is dropped (`TailorRoutes.StoredEntry`, `MeasurementForm.UnreadFieldsLost`).
- Equality queries on a trimmed schema field (`phone`, `username`) are cast through the schema's `trim` setter, so a value is compared trimmed with what is stored (`CustomerRoutes.PhoneIs`, `AdminTailorRoutes.UsernameIs`, `StaffApi.UsernameIn`). The `phone !== customer.phone` test of the older customer PUT compares the texts as sent, so a phone differing only in blanks counts as changed (`CustomerRoutes.CrossShopConflict`).

## Model

| member | source | states |
|---|---|---|
| Basics.ParsedOr | routes/api/admin/inventory.js:33 | `p ? parse(p) : d`: a missing or empty field gives the default, a parsed one its value, and only a text the parser rejects gives no number |
| Basics.ParsedIfSent | routes/api/admin/orders.js:123-124 | `p !== undefined ? parse(p) : d`: only an absent field keeps the default; an empty text is parsed too and yields no number |
| Basics.DateOr | routes/orders.js:95 | a date field that is missing or empty keeps the given default, a parsed one its value, and a text that is no date gives an invalid date |
| Basics.OrElse | routes/api/admin/orders.js:81 | `t \|\| d` gives the text when it is non-empty and the default otherwise |
| Basics.IndexOf | models/Order.js:132 | the first position of the value, or -1 exactly when it is absent |
| Basics.DigitsOnly | routes/api/public.js:20 | stripping the non-digits leaves only digits, no longer than the text, and a character survives exactly when it is a digit of the text |
| Basics.DigitsOnlyChar | routes/api/public.js:20 | on one character, a digit is kept and anything else is dropped |
| Basics.DigitsOnlyAppend | routes/api/public.js:20 | the digits of a concatenation are the digits of its parts, in order, so the digits are kept in the order of the text |
| Basics.DigitsOnlyKeepsDigits | routes/api/admin/customers.js:60 | stripping the non-digits of a digits-only text changes nothing |
| Basics.NoDigitsNothingLeft | routes/api/admin/customers.js:27-28 | a text without digits strips to the empty text |
| Basics.ToUpper | routes/api/shop.js:85 | upper-casing keeps the length and maps every character on its own |
| Basics.Trim | routes/api/public.js:16 | the trimmed text is a window of the text with only white space before and after it, and it neither starts nor ends with white space |
| Basics.TrimKeeps | models/Shop.js:14-15 | a text that neither starts nor ends with white space is its own trim |
| Basics.TrimEmptyIffBlank | routes/public.js:16 | a text trims to nothing exactly when it is all white space |
| Basics.Decimal | models/Order.js:113 | a number prints as a non-empty string of digits |
| Basics.DecimalRoundTrip | models/Order.js:109-113 | reading back the printed numeral of a number gives the number |
| Basics.DecimalInjective | models/Order.js:113 | different numbers print differently |
| Basics.PadStart3 | models/Shop.js:39 | padding to three places keeps the numeral at the end and fills with zeros in front |
| Basics.Utf16Length | routes/api/shop.js:24 | `length` counts UTF-16 code units: at least one and at most two per character, and exactly one per character when no character lies above U+FFFF |
| Basics.AstralCountsTwice | routes/api/admin/tailors.js:33 | three characters above U+FFFF have a length of six, so such a password passes the six-character minimum |
| OrderModel.NewOrderDefaults | models/Order.js:11-89 | an order built from a customer, a known garment and a shop takes the schema defaults, passes validation, starts in the first status, active and not awaiting approval |
| OrderModel.NoShopNoSave | models/Order.js:82-86 | without a shop an order fails validation, so it can never be saved |
| OrderModel.BalanceDue | models/Order.js:126-128 | the balance due is the price less the advance, not clamped: it never exceeds the price of a valid order and is negative when the advance exceeds the price |
| OrderModel.StatusIndex | models/Order.js:131-133 | the index lies in -1..4, is non-negative exactly for the five statuses, and then names that status |
| OrderModel.StatusIndexOrder | models/Order.js:3-9 | the five statuses have indexes 0 to 4 in workflow order |
| OrderModel.InProgressIsMiddle | models/Order.js:3-9 | a status is one the dashboards count as in progress exactly when its index is 1, 2 or 3 |
| OrderModel.NextOrderNumber | models/Order.js:104-122 | the next code is always well formed; no previous code or a malformed one gives 1A; below 1000 the number grows by one and keeps its letter; 1000Z restarts at 1A; 1000 with another letter moves to 1 and the next letter |
| OrderModel.CodeOf | models/Order.js:113 | the text of a number and a letter is a well-formed code that parses back to the same number and letter |
| OrderModel.CodeOfParts | models/Order.js:106-110 | a well-formed code without a leading zero is rebuilt exactly from its parsed number and letter |
| OrderModel.LatestCode | models/Order.js:97-102 | the lookup finds nothing exactly when the shop has no order with a well-formed code, and otherwise returns a well-formed code held by an order of the shop |
| OrderModel.GenerateNextOrderNumber | models/Order.js:95-123 | the generator always returns a well-formed code, and 1A for a shop without coded orders |
| OrderModel.OtherShopsIgnored | models/Order.js:98 | adding an order of another shop does not change a shop's next code |
| OrderModel.CycleCode | models/Order.js:91-94 | the p-th code of the cycle has number p mod 1000 + 1 and letter A + p div 1000 |
| OrderModel.NextInCycle | models/Order.js:112-122 | each code of the 26000-code cycle is followed by the next one, and the last by the first |
| OrderModel.IterateInCycle | models/Order.js:91-94 | starting from 1A, the k-th generated code is the (k mod 26000)-th code of the cycle |
| OrderModel.CycleStart | models/Order.js:104 | the cycle starts at 1A |
| OrderModel.CycleCodeInjective | models/Order.js:91-94 | different positions of the cycle give different codes |
| OrderModel.CyclePeriod | models/Order.js:91-94 | two generated codes are equal exactly when their steps are a multiple of 26000 apart |
| CustomerModel.CastMeasurement | models/Customer.js:3-50 | casting a submitted measurement keeps its type and exactly the submitted values of fields the schema declares, unchanged; any other field is dropped |
| CustomerModel.CastMeasurements | models/Customer.js:70 | the list is cast item by item, keeping its length and order |
| CustomerModel.TrimKeepsDigits | models/Customer.js:62 | trimming leaves a digits-only phone unchanged |
| CustomerModel.ArmNotStored | models/Customer.js:11-46 | a field named `arm` is never stored: the schema does not declare it |
| CustomerModel.NewCustomerValid | models/Customer.js:52-78 | a customer with a non-blank name, a valid phone, known measurement types and a shop passes validation |
| CustomerModel.CastKeepsTypes | models/Customer.js:5-9 | casting measurements of known types yields valid measurements |
| ShopModel.CodePrefix | models/Shop.js:34-37 | the prefix is the first (up to) three letters of the shop name, upper-cased, every other character dropped |
| ShopModel.TimePart | models/Shop.js:39 | the time part is three digits whose value is the clock's milliseconds mod 1000, zero-padded |
| ShopModel.RandPart | models/Shop.js:40 | the random part lies in 10..99 |
| ShopModel.GenerateCode | models/Shop.js:34-41 | a generated code is 5 to 8 upper-case letters and digits: the name prefix, then the three time digits, then the two random digits |
| ShopModel.PreValidate | models/Shop.js:32-43 | the hook leaves a shop that has a code alone and gives one without a code the generated code; the other fields are untouched and the code is never empty afterwards |
| ShopModel.PreValidateOnce | models/Shop.js:33 | running the hook a second time changes nothing |
| ShopModel.CodeSettersKeep | models/Shop.js:9-15 | the uppercase and trim setters leave a generated code unchanged |
| ShopModel.GeneratedCodeNormal | models/Shop.js:9-15 | a generated code is already in the trimmed, upper-cased form in which codes are looked up |
| StaffModel.NoShopNoStaff | models/Tailor.js:20-24 | a tailor built without a shop never passes validation |
| Collections.Select | routes/api/admin/tailors.js:9 | `find(q)` returns no more documents than the collection holds, each of them from the collection and matching, and every matching document |
| Collections.Reject | routes/api/admin/customers.js:153 | what `deleteMany(q)` leaves is drawn from the collection, holds no matching document and keeps every other one |
| Collections.First | routes/api/admin/tailors.js:37 | `findOne(q)` gives the first matching position, or nothing exactly when no document matches |
| Collections.Newest | routes/api/admin/tailors.js:9 | sorting by creation time descending reverses the store order |
| Collections.Limit | routes/public.js:41 | `limit(n)` keeps a prefix of at most n documents, and all of them when there are no more than n |
| Collections.RemoveAt | routes/api/admin/tailors.js:57 | deleting the document at a position keeps every other document, in order |
| Collections.SelectRejectPartition | routes/api/admin/customers.js:153 | every document is either found by a query or removed by the matching `deleteMany` |
| Collections.DisjointCounts | routes/api/cutting-master.js:20-24 | two counts no document matches together add up to at most the collection |
| Collections.ComplementCounts | routes/api/cutting-master.js:20-24 | two counts every document matches exactly one of add up to the collection |
| Collections.CountMonotone | routes/api/admin/dashboard.js:16-17 | a stricter query never counts more documents |
| Collections.SelectSelect | routes/customers.js:128 | filtering a query's result is the query asking for both conditions |
| Collections.SelectPairwise | routes/api/admin/orders.js:42 | a query result keeps the store's ascending creation order |
| Collections.RejectPairwise | routes/api/admin/customers.js:153 | what `deleteMany` leaves keeps the ascending creation order |
| Sorting.LexTotal | routes/api/admin/inventory.js:21 | any two texts are ordered one way or the other |
| Sorting.LexTrans | routes/api/admin/inventory.js:21 | the text order is transitive |
| Sorting.SortBy | routes/api/admin/inventory.js:21 | `sort({ field: 1 })` yields the same documents, each as often, in ascending order of the field |
| Sorting.InsertSorted | routes/inventory.js:8 | inserting into a sorted list keeps it sorted and adds exactly the one document |
| Store.Insert | models/Customer.js:80-81 | saving a new document fails validation exactly when the schema refuses it, then fails on the unique index exactly when another document holds its key, and otherwise appends it under the next id; a refused write changes nothing |
| Store.SaveAt | models/Inventory.js:34-35 | saving a loaded document validates, then checks the unique index against every other document, and otherwise replaces it in place under its own id; a refused write changes nothing |
| Store.InsertKeepsTable | models/Order.js:149 | an insert keeps ids increasing and below the next id, and keeps the unique index |
| Store.SaveKeepsTable | models/Order.js:149 | a save keeps ids and the unique index |
| Store.UpdateKeepsTable | models/Inventory.js:34-35 | an update that leaves the indexed fields alone keeps the unique index |
| Store.SameKeySaves | models/Inventory.js:34-35 | a save that keeps the indexed fields cannot hit the unique index: it succeeds exactly when validation passes |
| Store.RemoveKeepsTable | models/Tailor.js:30 | deleting a document keeps ids and the unique index |
| Store.RemovedIdGone | routes/api/admin/tailors.js:57 | after the delete no document of the collection has the deleted id |
| Store.RejectKeepsTable | routes/api/admin/customers.js:153 | `deleteMany` keeps ids and the unique index |
| Store.Db.InsertOrder | models/Order.js:149 | the orders become the outcome of the insert, and the next id moves on only when it succeeds |
| Store.Db.SaveOrderAt | models/Order.js:149 | the orders become the outcome of the save |
| Store.Db.UpdateOrderAt | routes/api/tailor.js:101-105 | exactly the one order is replaced |
| Store.Db.RemoveOrderAt | routes/api/admin/orders.js:165 | exactly the one order is removed |
| Store.Db.RemoveOrders | routes/api/admin/customers.js:153 | the orders become those the query does not match |
| Store.Db.InsertCustomer | models/Customer.js:81 | the customers become the outcome of the insert |
| Store.Db.SaveCustomerAt | models/Customer.js:81 | the customers become the outcome of the save |
| Store.Db.RemoveCustomerAt | routes/api/admin/customers.js:150 | exactly the one customer is removed |
| Store.Db.SaveItemAt | models/Inventory.js:35 | the items become the outcome of the save |
| Store.Db.UpdateItemAt | routes/api/admin/inventory.js:34-38 | exactly the one item is replaced, without validation |
| Store.Db.InsertShop | models/Shop.js:10-12 | the shops become the outcome of the insert |
| Store.Db.RemoveShopAt | routes/api/shop.js:47 | exactly the one shop is removed |
| Store.Db.InsertAdmin | models/Admin.js:25 | the admins become the outcome of the insert |
| Store.Db.InsertTailor | models/Tailor.js:30 | the tailors become the outcome of the insert |
| Store.Db.RemoveTailorAt | routes/api/admin/tailors.js:57 | exactly the one tailor is removed |
| Store.Db.InsertCuttingMaster | models/CuttingMaster.js:30 | the cutting masters become the outcome of the insert |
| Store.Db.RemoveCuttingMasterAt | routes/api/admin/cutting-masters.js:57 | exactly the one cutting master is removed |
| Views.Populate | routes/api/admin/orders.js:40 | the populated reference is null exactly when no customer has that id, and otherwise names an existing customer |
| Views.Referenced | routes/api/tailor.js:48 | the populated customer document is null exactly when no customer has the referenced id, and otherwise is a stored customer with that id |
| Views.PhotoOrNull | routes/api/tailor.js:65 | an empty or missing photo is reported as null, any other one as it is |
| Views.StatsBounded | routes/api/tailor.js:16-22 | ready and in-progress orders together never exceed the total, and with the placed ones never exceed the list |
| Views.SplitCounts | routes/api/tailor.js:18-21 | ready and in-progress orders are counted among the orders past the first status, each once |
| Views.NewestFirst | routes/api/tailor.js:11-14 | a query sorted newest first lists exactly the matching documents, as many as the count |
| Views.StoredInCreationOrder | routes/api/admin/orders.js:42 | every collection of a valid store holds its documents in creation order, the order the newest-first queries reverse |
| Views.NewestFirstDescending | routes/api/admin/orders.js:42 | when the collection is held in creation order, the newest-first list runs from the largest id down |
| Views.ProjectedDescending | routes/api/tailor.js:13 | a view projecting the newest-first matches one by one, each line keeping its document's id, lists the ids from the largest down |
| Views.LimitNewest | routes/public.js:40-41 | sorted newest first and cut at n, a query keeps as many matches as there are up to n, newest first, and every match left out is older than each one kept |
| Views.LimitKeepsNewest | routes/public.js:41 | cutting a list ordered from the largest id down keeps a prefix, still descending, and drops only entries older than each one kept |
| Views.ProjectedNewest | routes/api/admin/dashboard.js:30-34 | the projected list of a query sorted newest first and cut at n has one entry per match up to n, each projecting a match, and projects the n newest |
| Views.MapAll | routes/api/tailor.js:26 | `map` gives one projection per document, in the same order |
| Views.ProjectedMatches | routes/api/admin/customers.js:31-36 | the projected list has the count's length, each entry projects a match, and each match has its entry |
| Views.PagedMatches | routes/api/admin/orders.js:39-51 | every entry of a page projects a matching document, and the total is the count of matches |
| Views.NewestDescending | routes/api/admin/orders.js:42 | sorted by creation time descending, the ids run from the largest down |
| Views.CeilDiv | routes/api/admin/orders.js:51 | `Math.ceil(total / limit)`: the smallest number of pages of a positive limit that hold the total |
| Views.Paginate | routes/api/admin/orders.js:43-51 | a negative skip is refused (500); otherwise the page holds the documents from the skip on, at most the limit of them (all of them for limit 0), with the total and the page number as sent |
| Views.NewestPage | routes/api/admin/orders.js:39-51 | a negative skip is 500; otherwise the total is the count of matches, the page number is as sent, and the items project the newest-first matches from the skip on, as many as fit |
| Views.PagedNewest | routes/api/admin/orders.js:39-51 | the page of the projected newest-first matches holds the projections of the matches from the skip on, its size fixed by the count, skip and limit |
| Views.PageOfIndex | routes/api/admin/orders.js:43-44 | with a positive limit the document at position j appears on page j div limit + 1 at place j mod limit, and that page is within the page count |
| Views.CeilCovers | routes/api/admin/orders.js:51 | every position before the end lies on one of the counted pages |
| TailorApi.Dashboard | routes/api/tailor.js:9-43 | the total, ready and in-progress counters are the numbers of active orders of the shop assigned to the tailor, of those with status Ready for Pickup, and of those cutting, stitching or in final touches; ready plus in progress is at most the total; the list has one line for exactly each counted order, newest first (ids descending) |
| TailorApi.BoardCounters | routes/api/tailor.js:16-22 | the counters over the board count its orders, those Ready for Pickup and those in progress, the last two together at most the total |
| TailorApi.LinesNewestFirst | routes/api/tailor.js:13 | the board lines run from the newest order down |
| TailorApi.OrderDetail | routes/api/tailor.js:46-81 | the detail is 404 exactly when no order with that id is in the tailor's shop and assigned to the tailor (inactive ones included), and otherwise gives such an order's id, status, status index, balance and photo, and its customer document, null exactly when no customer has the referenced id |
| TailorApi.StatusUpdate | routes/api/tailor.js:96-99 | the update sets the status, sets the photo only when a non-empty one is sent, and changes nothing else |
| TailorApi.StatusUpdateKeeps | routes/api/tailor.js:101-105 | the update leaves the indexed fields alone, and a valid order stays valid with a known status |
| TailorApi.CheckStatus | routes/api/tailor.js:88-94 | the body passes exactly when the status is one of the five and a ready status comes with a photo; an unknown status is reported first |
| TailorApi.ReadyHasPhoto | routes/api/tailor.js:92-99 | an order this route marks ready always has a photo afterwards |
| TailorApi.PatchStatus | routes/api/tailor.js:85-121 | a refused body is 400 and an order outside the tailor's shop or assignment is 404, both with no change; otherwise exactly that order gets the update and the reply reports its new status, index and photo |
| TailorApi.PutMeasurements | routes/api/tailor.js:125-145 | a customer outside the shop is 404 with no change; otherwise the whole list is replaced by the one sent (the empty list when none is), cast by the schema, and saved; a refused save is 500 |
| TailorApi.NoListClears | routes/api/tailor.js:131 | sending no list clears the measurements, and a valid customer stays valid |
| CuttingMasterApi.CutDisplay | routes/api/cutting-master.js:33 | the shown cutting status is the stored one, or 'Pending' when it is missing or empty |
| CuttingMasterApi.DisplayMatchesCount | routes/api/cutting-master.js:20-33 | an order is shown as 'Done' exactly when it is counted as done, and otherwise exactly when it is counted as pending; a valid order shows Pending or Done |
| CuttingMasterApi.CuttingStats | routes/api/cutting-master.js:20-24 | the total is the number of orders listed, done the number whose cutting is finished, pending the rest, and the two add up to the total |
| CuttingMasterApi.Dashboard | routes/api/cutting-master.js:9-46 | the total, done and pending counters are the numbers of active orders of the shop assigned to the caller, of those whose cutting is done and of those whose cutting is pending, pending plus done is the total, and the list has one line for exactly each counted order, newest first (ids descending) |
| CuttingMasterApi.BoardCounters | routes/api/cutting-master.js:20-24 | the cutting counters over the board count its orders, those whose cutting is done and those whose cutting is pending |
| CuttingMasterApi.LinesNewestFirst | routes/api/cutting-master.js:17 | the board lines run from the newest order down |
| CuttingMasterApi.OrderDetail | routes/api/cutting-master.js:49-92 | the detail is 404 exactly when no order with that id is in the shop and assigned to the caller, and otherwise gives such an order's id, status, cutting status, status index, balance and photo, and its customer document, null exactly when no customer has the referenced id |
| CuttingMasterApi.CutUpdateKeeps | routes/api/cutting-master.js:103-107 | setting a cutting status keeps the indexed fields and the main status, and keeps a valid order valid |
| CuttingMasterApi.PatchCuttingStatus | routes/api/cutting-master.js:96-122 | anything but Pending or Done is 400 and an order outside the caller's scope is 404, both with no change; otherwise only that order's cutting status changes, and the reply carries its unchanged main status |
| CuttingMasterApi.AssignTailor | routes/api/cutting-master.js:126-158 | a missing tailor id is 400, a tailor of another shop is 404, an order outside the caller's scope is 404, all with no change; otherwise only that order's assigned tailor changes, to a tailor of the caller's shop, whose name is returned |
| CuttingMasterApi.AssignKeeps | routes/api/cutting-master.js:139-143 | assigning a tailor keeps the status, the cutting status and validity |
| CuttingMasterApi.TailorList | routes/api/cutting-master.js:161-175 | the list holds exactly the tailors of the caller's shop, as many as the count, sorted by name |
| AdminOrdersApi.FormatOrder | routes/api/admin/orders.js:8-28 | the formatted order copies id, status, activity, price and advance, computes the balance as price less advance and the status index (-1 exactly for an unknown status), and has no customer exactly when no customer has the referenced id |
| AdminOrdersApi.EffectiveStatus | routes/api/admin/orders.js:34-36 | the status parameter filters only when it is one of the five statuses |
| AdminOrdersApi.ListOrders | routes/api/admin/orders.js:30-58 | with page 1 and limit 20 by default, a negative skip is 500; otherwise the page is the requested one, holds at most the limit, and holds the formatted orders of the shop's active orders (of the status, when it filters) sorted newest first, from the skip on, as many as fit |
| AdminOrdersApi.ListedOrders | routes/api/admin/orders.js:30-58 | the total is the count of the shop's active orders (of the status, when it filters), and each entry of the page formats such an order |
| AdminOrdersApi.UnknownStatusIgnored | routes/api/admin/orders.js:34-36 | asking for a status outside the five gives the same answer as asking for none |
| AdminOrdersApi.ListedInShop | routes/api/admin/orders.js:33 | every listed order is an active order of the caller's shop |
| AdminOrdersApi.Draft | routes/api/admin/orders.js:76-87 | the new order is in the caller's shop, active, with the generated number, the sent customer and garment, the trimmed description, price, advance and due date as sent or their defaults, the sent status or 'Order Placed', and the schema defaults elsewhere; a price, advance or date that does not parse gives no order |
| AdminOrdersApi.DraftDefaults | routes/api/admin/orders.js:76-87 | a form with only a customer and a garment gives exactly the schema's default order with the generated number |
| AdminOrdersApi.CreateOrder | routes/api/admin/orders.js:62-100 | a missing customer or garment is 400 and a customer of another shop is 404, with no change; otherwise the draft is inserted, a validation failure is 400, any other failure 500, and a created order is appended in the caller's shop and returned formatted |
| AdminOrdersApi.OrderDetail | routes/api/admin/orders.js:103-112 | the detail is 404 exactly when no order with that id is in the caller's shop, and otherwise formats such an order |
| AdminOrdersApi.Merge | routes/api/admin/orders.js:121-126 | the edit fails exactly when a sent price or advance is empty or not a number, or a sent date is not a date |
| AdminOrdersApi.MergeFields | routes/api/admin/orders.js:121-126 | a field changes only when it is sent: the garment when non-empty, the description trimmed, price and advance parsed, the date parsed or cleared when empty, the status only when it is one of the five |
| AdminOrdersApi.MergeFrame | routes/api/admin/orders.js:121-126 | no field other than those six changes |
| AdminOrdersApi.MergeKeeps | routes/api/admin/orders.js:121-126 | an edit that sends nothing changes nothing, and no edit touches the order number, the shop or the customer |
| AdminOrdersApi.ApplyEdit | routes/api/admin/orders.js:121-126 | the six assignments one at a time give the merged order, and report failure exactly when the merge fails |
| AdminOrdersApi.PutOrder | routes/api/admin/orders.js:115-136 | an order of another shop is 404 with no change; a failed cast or a refused save is 500 with no change; otherwise the merged order is saved in place and returned formatted |
| AdminOrdersApi.PatchStatus | routes/api/admin/orders.js:140-160 | a status outside the five is 400 and an order of another shop 404, both with no change; otherwise only that order's status changes and it is returned formatted |
| AdminOrdersApi.DeleteOrder | routes/api/admin/orders.js:163-172 | the delete is 404 with no change exactly when no order with that id is in the caller's shop; otherwise that order is removed, and no order of another shop is ever removed |
| AdminCustomersApi.PhoneQuery | routes/api/admin/customers.js:27-28 | the phone search takes effect exactly when the parameter is sent and not blank, and then keeps exactly the digits of the parameter |
| AdminCustomersApi.ListCustomers | routes/api/admin/customers.js:22-43 | with page 1 and limit 20 by default, a negative skip is an error; otherwise the page is the requested one, holds at most the limit, and holds the formatted customers of the shop whose phone contains the searched digits, sorted newest first, from the skip on, as many as fit |
| AdminCustomersApi.ListedCustomers | routes/api/admin/customers.js:22-43 | the total counts the shop's customers whose phone contains the searched digits, and each entry of the page formats such a customer |
| AdminCustomersApi.NoDigitsListsAll | routes/api/admin/customers.js:27-28 | a non-blank search with no digit in it matches every customer of the shop |
| AdminCustomersApi.FirstUnknownType | routes/api/admin/customers.js:70-74 | no type is reported exactly when every item has one of the ten known types; a reported type is that of the first item with an unknown type |
| AdminCustomersApi.CheckTypes | routes/api/admin/customers.js:70-74 | the loop over the items returns the first unknown type, or none |
| AdminCustomersApi.CreateNoDuplicate | routes/api/admin/customers.js:65-77 | once no customer of the shop has the cleaned phone, the save cannot fail on the phone key; with a non-blank name and known types it succeeds |
| AdminCustomersApi.CreateCustomer | routes/api/admin/customers.js:52-86 | missing name or phone is 400, fewer than 10 or more than 15 digits is 400, a phone taken in the shop is 409, an unknown type is 400 naming it, and each of these leaves the customers unchanged; otherwise the customer with the cleaned phone is inserted in the shop, a duplicate key answering 409 and a failed validation 500 |
| AdminCustomersApi.Line | routes/api/admin/customers.js:106-109 | a line carries the order's id, status, price and advance; its balance is price less advance, and its status index is -1 exactly for an unknown status |
| AdminCustomersApi.Detail | routes/api/admin/customers.js:90-114 | 404 exactly when no customer of the shop has the id; otherwise the customer and exactly the lines of its orders in the shop, newest first (ids descending) |
| AdminCustomersApi.Edited | routes/api/admin/customers.js:128-137 | the edited customer keeps its shop, takes the cleaned phone when one is sent, keeps its name when none is sent and its notes when they are absent, and takes the sent measurements item for item |
| AdminCustomersApi.OmittedMeasurementsCleared | routes/api/admin/customers.js:124-137 | an update that does not send measurements clears the customer's measurements |
| AdminCustomersApi.UpdateNoDuplicate | routes/api/admin/customers.js:129-139 | when the phone is unchanged or free in the shop, saving the edit cannot fail on the phone key |
| AdminCustomersApi.UpdateCustomer | routes/api/admin/customers.js:122-145 | no customer of the shop with the id is 404, a changed phone used in the shop is 409, both leaving the customers unchanged; otherwise the edit is saved in place and answered, any save error being 500 |
| AdminCustomersApi.DeleteCustomer | routes/api/admin/customers.js:148-159 | 404 changes nothing; otherwise the customer is removed and with it exactly its orders in the shop, orders of other shops being kept |
| CustomerRoutes.SearchDigits | routes/customers.js:12-13 | the search takes effect exactly when the parameter is sent and not blank, and then holds only digits |
| CustomerRoutes.ListCustomers | routes/customers.js:7-22 | exactly the customers, of every shop, whose phone contains the searched digits, newest first (ids descending), and the search text echoed back (empty when absent) |
| CustomerRoutes.BlankSearchListsAll | routes/customers.js:10-16 | a missing or blank search lists every customer |
| CustomerRoutes.ShowCustomer | routes/customers.js:119-136 | not found exactly when no customer has the id (flash and redirect); otherwise that customer and exactly the orders that refer to it, newest first (ids descending) |
| CustomerRoutes.KeptEntriesMatch | routes/customers.js:68-92 | at most one item per submitted type; every item is built for a non-empty submitted type, and every non-empty submitted type has its item |
| CustomerRoutes.NoEmptyKeepsAll | routes/customers.js:69-75 | with no empty type, one item per submitted type, in order |
| CustomerRoutes.BuildKeptEntries | routes/customers.js:68-92 | the loop builds the items of the non-empty types, in order |
| CustomerRoutes.CreateCheck | routes/customers.js:48-58 | no refusal exactly when the phone is sent, its digits number 10 to 15, and no customer of any shop has the phone, trimmed; a bad phone is refused first |
| CustomerRoutes.CreateCustomer | routes/customers.js:36-116 | the customers never change: a refusal is flashed, and otherwise the shopless customer fails validation and "Failed to create customer" is flashed |
| CustomerRoutes.Edited | routes/customers.js:222-225 | name, phone and notes are the texts sent, trimmed by the schema; the measurements are the items built from the form; the shop and every other field are kept |
| CustomerRoutes.CrossShopConflict | routes/customers.js:178-183 | a phone that differs as sent from the stored one and whose trimmed text a customer of any shop holds is found by the check |
| CustomerRoutes.UpdateCustomer | routes/customers.js:166-236 | not found, a phone changed as sent whose trimmed text is already in use, and an unparsable number leave the customers unchanged with their flash; otherwise the edit is saved in place, a refused save being flashed |
| CustomerRoutes.DeleteCustomer | routes/customers.js:239-258 | not found changes nothing; otherwise the customer is removed with every order that refers to it, in any shop |
| OrderRoutes.StatusFilter | routes/orders.js:12-14 | the status filters exactly when it is sent, not empty and not 'all', and is then used as sent |
| OrderRoutes.ListOrders | routes/orders.js:7-25 | exactly the active orders of every shop, of the status when it filters, newest first (ids descending) |
| OrderRoutes.CreateChecks | routes/orders.js:64-127 | the five refusals in their order (no customer, blank garment, unknown customer, a price or advance that is not a number, a bad due date); past them, the order built has no shop, is active, has the generated number, the trimmed description, price and advance defaulting to 0, the due date when sent and the status defaulting to Order Placed |
| OrderRoutes.CreateOrder | routes/orders.js:56-161 | the orders never change and the answer is always a redirect: a refusal is flashed, and otherwise the shopless order fails validation |
| OrderRoutes.LegacyMerge | routes/orders.js:226-233 | the merge fails exactly when a price, an advance or a due date does not cast |
| OrderRoutes.LegacyMergeFields | routes/orders.js:226-231 | an empty field keeps its old value except the description, which is reset to empty; no other field changes |
| OrderRoutes.EmptyEditClearsDescription | routes/orders.js:227 | an empty edit form keeps the order but clears its description |
| OrderRoutes.ApplyLegacyEdit | routes/orders.js:226-231 | the six assignments give the merged order, or report the failed cast |
| OrderRoutes.PutOrder | routes/orders.js:214-242 | an unknown id or a failed cast leaves the orders unchanged with its flash; otherwise the merged order is saved in place, a refused save being flashed |
| OrderRoutes.PatchStatus | routes/orders.js:245-275 | a status outside the five is 400 and an unknown id 404, both changing nothing; otherwise exactly the status of that order changes, whatever its shop |
| OrderRoutes.DeleteOrder | routes/orders.js:278-294 | not found exactly when no order has the id, changing nothing; otherwise that order is removed, whatever its shop, and no order has the id afterwards |
| TailorRoutes.Dashboard | routes/tailor.js:7-23 | one line for exactly each active order of every shop, newest first (ids descending), the total equal to their number, ready the number of them with status Ready for Pickup, in progress the number cutting, stitching or in final touches, the two together at most the total |
| TailorRoutes.ActiveCounters | routes/tailor.js:13-17 | filtering the active orders by status counts the orders of every shop that are active and hold that status |
| TailorRoutes.LinesNewestFirst | routes/tailor.js:11 | the dashboard lines run from the newest order down |
| TailorRoutes.OrderDetail | routes/tailor.js:32-50 | not found exactly when no order has the id; otherwise that order, its status index (-1 exactly for an unknown status, else the position of the status) and its customer document, null exactly when no customer has the referenced id |
| TailorRoutes.PatchStatus | routes/tailor.js:59-87 | a status outside the five is 400 and an unknown id 404, both changing nothing; otherwise exactly the status of that order changes and is answered |
| TailorRoutes.EditMeasurements | routes/tailor.js:90-108 | not found exactly when no customer has the id; otherwise that customer |
| TailorRoutes.Entry | routes/tailor.js:134-145 | the item has the submitted type and a value for exactly the editor fields whose input parsed to a number |
| TailorRoutes.StoredEntry | routes/tailor.js:134-146 | the stored item keeps the type and exactly the seven schema fields whose input parsed, with the numbers sent, and never `arm` |
| TailorRoutes.BuildEntries | routes/tailor.js:133-147 | the loop builds one item per submitted type, in order, and reports whether every schema number parsed |
| TailorRoutes.TypesAsWritten | routes/tailor.js:132 | only a list of types is read; a single type or none reads as no type |
| TailorRoutes.SingleTypeWiped | routes/tailor.js:129-133 | checking a single type and saving leaves the customer with no measurements |
| TailorRoutes.SubmittedTypes | routes/customers.js:61-64 | a missing field is no type, a single text is a list of one, a list is kept |
| TailorRoutes.SubmittedKeepsEveryType | routes/tailor.js:132-147 | with the types normalised there is one item per submitted type, the single one included; the two readings differ exactly on a single type |
| TailorRoutes.ReplaceMeasurementsSaves | routes/tailor.js:129-150 | replacing only the measurements of a valid customer by items of known types passes validation and the phone index |
| TailorRoutes.PutMeasurements | routes/tailor.js:117-158 | an unknown id changes nothing; otherwise the measurements are replaced by the items of the types read as written, an array only (a single checked type builds nothing and wipes them), a number that does not cast or a refused save changing nothing and flashing an error |
| MeasurementForm.Label | public/js/measurements.js:63 | a field with a label shows its label, any other field its own name |
| MeasurementForm.TypesAreSchemaTypes | public/js/measurements.js:1-12 | the editor offers exactly the ten types the schema accepts |
| MeasurementForm.FieldsAreSchemaFields | public/js/measurements.js:14-25 | every field offered for any type is a schema field and has a label |
| MeasurementForm.LabelsCoverSchema | public/js/measurements.js:27-56 | the labels cover exactly the schema's fields |
| MeasurementForm.UnknownTypeFallsBack | public/js/measurements.js:115 | a type outside the table gets the fields of 'other' |
| MeasurementForm.InputNames | public/js/measurements.js:60-66 | one input per field of the type, named field, underscore, type |
| MeasurementForm.UnreadFieldsLost | public/js/measurements.js:14-25 | a field the editor offers beyond the eight the server-rendered routes read is never stored |
| MeasurementForm.Capitalize | public/js/measurements.js:128-130 | same length, the first character upper-cased and the rest kept |
| MeasurementForm.CapitalizedTypes | public/js/measurements.js:89 | the option text of each of the ten types starts with a capital letter and keeps the rest |
| MeasurementForm.UsedTypesChosen | public/js/measurements.js:72-74 | a type counts as used exactly when it is not empty and some select holds it |
| MeasurementForm.Submitted | public/js/measurements.js:87 | the form posts the value of each select, in page order |
| MeasurementForm.NothingChosenAllAvailable | public/js/measurements.js:72-76 | before any select has a value, nothing is used and every type is offered |
| MeasurementForm.AppendKeepsRepeats | public/js/measurements.js:101 | adding a block with nothing chosen keeps the chosen types pairwise different |
| MeasurementForm.Editor.Add | public/js/measurements.js:69-102 | nothing is added exactly when every type is chosen; otherwise a block with the next id offering the unchosen types is appended and the counter moves on |
| MeasurementForm.Editor.Choose | public/js/measurements.js:104-107 | exactly the picked block's select changes |
| MeasurementForm.Editor.ChooseUnused | public/js/measurements.js:72-89 | a pick is taken exactly when it is empty or no other block holds that type; it keeps the chosen types pairwise different |
| MeasurementForm.Editor.Remove | public/js/measurements.js:124-126 | the block with the id leaves the page, no other block changes, and no block keeps that id |
| MeasurementForm.Editor.ValidateBlocks | public/js/measurements.js:132-151 | accepted exactly when there is a block and every block has a type chosen |
| MeasurementForm.TwoBlankBlocks | public/js/measurements.js:69-101 | pressing Add twice on a fresh page gives two blocks that both offer the whole table |
| MeasurementForm.SameTypeTwice | public/js/measurements.js:72-89 | two blocks added before either has a type can both pick the same one, and the form then posts it twice |
| MeasurementForm.DistinctSubmission | public/js/measurements.js:132-151 | a validated page whose picks kept the chosen types pairwise different posts every type once |
| AdminInventoryApi.FormatItem | routes/api/admin/inventory.js:5-16 | the entry copies id, name, quantity, unit and threshold, and is low on stock exactly when the quantity is at most the threshold |
| AdminInventoryApi.ShopItems | routes/api/admin/inventory.js:21 | exactly the shop's items, sorted by name |
| AdminInventoryApi.ListItems | routes/api/admin/inventory.js:19-27 | one entry per item of the shop, names in ascending order |
| AdminInventoryApi.ListedItems | routes/api/admin/inventory.js:21-22 | every entry formats an item of the shop, and every item of the shop has its entry |
| AdminInventoryApi.Clamped | routes/api/admin/inventory.js:55 | the lowered quantity is never negative, is the difference when that is not negative and 0 otherwise |
| AdminInventoryApi.QuantityOnly | routes/api/admin/inventory.js:33-55 | changing the quantity keeps the item's key, unit and threshold, and a non-negative quantity keeps it valid |
| AdminInventoryApi.Increment | routes/api/admin/inventory.js:31-45 | an amount that does not parse is 500 and an item outside the shop 404, both changing nothing; otherwise exactly that item's quantity grows by the amount (1 by default), unchecked, and the entry is answered |
| AdminInventoryApi.Decrement | routes/api/admin/inventory.js:49-62 | an item outside the shop is 404 and an amount that does not parse 500, both changing nothing; otherwise the quantity is lowered but not below zero and saved, a refused save being 500; an answered quantity is never negative |
| InventoryRoutes.IntText | routes/inventory.js:38-64 | the amount as text: a minus sign exactly for a negative amount, the decimal digits otherwise |
| InventoryRoutes.AllItems | routes/inventory.js:8 | every item of every shop, sorted by name, a permutation of the stored items |
| InventoryRoutes.Increment | routes/inventory.js:22-45 | an amount that does not parse and an unknown id change nothing with their flash; otherwise exactly that item's quantity grows by the amount, whatever its shop, and the flash names the item and the amount |
| InventoryRoutes.Decrement | routes/inventory.js:48-71 | an unknown id and an amount that does not parse change nothing with their flash; otherwise the quantity is lowered but not below zero and saved, a refused save being flashed; no stored quantity it writes is negative |
| AdminDashboardApi.Statuses | routes/api/admin/dashboard.js:26 | each status of the orders appears once, and every order's status appears |
| AdminDashboardApi.StatusesHeld | routes/api/admin/dashboard.js:26 | only statuses some order has are listed |
| AdminDashboardApi.SortedStatuses | routes/api/admin/dashboard.js:26-27 | the same groups, in ascending order of status |
| AdminDashboardApi.Breakdown | routes/api/admin/dashboard.js:24-46 | one entry per status of the orders, strictly ascending, each with the positive number of orders of that status |
| AdminDashboardApi.BreakdownSums | routes/api/admin/dashboard.js:24-28 | the counts of the breakdown add up to the number of orders grouped |
| AdminDashboardApi.TallyTotal | routes/api/admin/dashboard.js:26 | tallying a list of distinct statuses that covers every order counts every order once |
| AdminDashboardApi.Recent | routes/api/admin/dashboard.js:47-61 | the entry copies id, status, price and advance, computes the balance and the status index (-1 exactly for an unknown status), and has no customer exactly when none has the referenced id |
| AdminDashboardApi.RecentAgreesWithList | routes/api/admin/dashboard.js:47-61 | the dashboard entry reports what the admin order list reports for the same order |
| AdminDashboardApi.LowStock | routes/api/admin/dashboard.js:19-69 | one entry per item of the shop at or below its threshold, each flagged low |
| AdminDashboardApi.LowStockComplete | routes/api/admin/dashboard.js:19-22 | every item of the shop at or below its threshold is listed |
| AdminDashboardApi.RecentOrders | routes/api/admin/dashboard.js:30-34 | the shop's orders, active or not, as many as there are up to ten, each formatted from an order of the shop; with ids in creation order, exactly the ten newest, newest first |
| AdminDashboardApi.ShopStats | routes/api/admin/dashboard.js:15-22 | the counters are the numbers of the shop's customers, active orders, active orders ready for pickup and items at or below their threshold; ready is at most active |
| AdminDashboardApi.Dashboard | routes/api/admin/dashboard.js:12-70 | the stats are those counters, the breakdown is that of the shop's active orders and sums to the active count, the recent orders are the ten newest of the shop, and the low-stock list is the shop's low items, as many as counted |
| ShopApi.ShopOf | routes/api/shop.js:33-34 | the shop saved has the trimmed name and the code generated from it by the pre-validate hook |
| ShopApi.RegisterError | routes/api/shop.js:63-74 | a thrown error is always refused: 409 exactly for a duplicate key (the admin's on `username`, otherwise a code collision), 500 exactly for a failed validation |
| ShopApi.Register | routes/api/shop.js:14-75 | a missing field is 400 and a password shorter than six UTF-16 units 400; any refusal leaves shops and admins as they were, the shop being deleted again when its admin cannot be saved; on success exactly the new shop and its admin, bound to it, are appended and answered |
| ShopApi.RemoveLast | routes/api/shop.js:47 | deleting the shop just appended restores the shops as they were |
| ShopApi.Lookup | routes/api/shop.js:78-97 | a missing or blank code is 400; otherwise found exactly when some shop holds the trimmed, upper-cased code (else 404), and the answer is that shop's id, name and code |
| ShopApi.LookupFindsRegistered | routes/api/shop.js:33-85 | a shop just registered is found again by its own generated code |
| ShopApi.NewestCodeFound | models/Shop.js:10-16 | with the code index unique, the shop stored last is the first found with its code |
| PublicApi.CodeFilter | routes/api/public.js:24-30 | no or a blank shop code restricts nothing; otherwise 404 exactly when no shop holds the normalised code, else the id of a shop that does |
| PublicApi.FindCustomer | routes/api/public.js:16-36 | a missing or blank phone is 400 and every refusal is 400 or 404; a customer found has exactly the digits of the phone and belongs to the named shop when one is named; 404 exactly when no customer matches |
| PublicApi.ActiveOrders | routes/api/public.js:38-41 | the customer's active orders in the customer's shop, as many as there are up to three; with ids in creation order, exactly the three newest, newest first |
| PublicApi.Tracked | routes/api/public.js:57-70 | the entry copies id and status, computes the balance and the status index (-1 exactly for an unknown status), and has no photo exactly when none is set |
| PublicApi.ShopOfCustomer | routes/api/public.js:48-56 | the shop shown exists exactly when the customer has a shop and it exists, and bears that shop's name, address and phone |
| PublicApi.Track | routes/api/public.js:12-76 | the customer's refusals pass through; no active order is 404; otherwise the customer, the customer's shop as looked up, and the entries of its newest active orders in its shop, one to three of them |
| PublicRoutes.LegacyCustomer | routes/public.js:14-33 | a blank phone and an unknown phone re-render the page with their message; a customer found, in any shop, has exactly the digits of the phone |
| PublicRoutes.LegacyOrders | routes/public.js:36-41 | the customer's active orders in any shop, as many as there are up to three; with ids in creation order, exactly the three newest, newest first |
| PublicRoutes.Track | routes/public.js:12-54 | the customer's messages pass through; no active order re-renders with its message; otherwise the customer and its three newest active orders |
| PublicRoutes.SameOrdersAsApi | routes/public.js:36-41 | when all of a customer's orders are in its own shop, the page shows the same orders as the tracking API |
| StaffApi.Entry | routes/api/admin/tailors.js:11-16 | the entry copies the account's id, username and name |
| StaffApi.List | routes/api/admin/tailors.js:7-22 | one entry per account of the shop |
| StaffApi.Listed | routes/api/admin/tailors.js:9-17 | every entry is of an account of the shop, and every such account is listed |
| StaffApi.ListedNewestFirst | routes/api/admin/tailors.js:9 | the entries run from the newest account down |
| StaffApi.Refusal | routes/api/admin/tailors.js:30-38 | the checks in order: a missing field, a password shorter than six UTF-16 units, then 409 exactly when an account of the shop has the username, trimmed |
| StaffApi.SaveError | routes/api/admin/tailors.js:47-50 | a duplicate key is 409 and a failed validation 500 |
| StaffApi.Create | routes/api/admin/tailors.js:26-52 | a refusal passes through and any refusal keeps the accounts; on success exactly one valid account of the shop is appended and its entry answered; success exactly when there is no refusal and the insert succeeds |
| StaffApi.CheckedIsUnique | routes/api/admin/tailors.js:37-44 | once no account of the shop has the trimmed username, the save cannot fail on the username key |
| StaffApi.CompleteFormCreates | routes/api/admin/tailors.js:26-46 | a complete form with an unused username and a password of at least six UTF-16 units creates the account |
| StaffApi.Delete | routes/api/admin/tailors.js:55-64 | 404 when no account of the shop has the id; otherwise that account is removed and named in the answer |
| StaffApi.DeleteOnlyOwn | routes/api/admin/tailors.js:57 | on success the id is gone, exactly one account fewer remains, and no other shop's account is touched |
| StaffApi.CreateTailor | routes/api/admin/tailors.js:26-52 | the stored tailors and the answer are those of the creation specification, the password length counted in UTF-16 units |
| StaffApi.DeleteTailor | routes/api/admin/tailors.js:55-64 | the stored tailors and the answer are those of the deletion specification, with "Tailor" as the noun |
| StaffApi.CreateCuttingMaster | routes/api/admin/cutting-masters.js:26-52 | the stored cutting masters and the answer are those of the creation specification, the password length counted in UTF-16 units |
| StaffApi.DeleteCuttingMaster | routes/api/admin/cutting-masters.js:55-64 | the stored cutting masters and the answer are those of the deletion specification, with "Cutting Master" as the noun |
| AdminTailorRoutes.AllTailors | routes/admin-tailors.js:7-14 | every tailor of every shop, each once |
| AdminTailorRoutes.AllTailorsNewestFirst | routes/admin-tailors.js:9 | the page lists ids from the largest down |
| AdminTailorRoutes.Refusal | routes/admin-tailors.js:33-53 | the checks in order: a missing field, passwords that differ, a password shorter than six UTF-16 units, then a refusal exactly when a tailor of any shop has the username, trimmed |
| AdminTailorRoutes.StricterThanApi | routes/admin-tailors.js:33-53 | a form these checks let through passes the shop API's checks in every shop |
| AdminTailorRoutes.CreateTailor | routes/admin-tailors.js:28-81 | the tailors never change: a refusal is flashed, and otherwise the shopless tailor fails validation and "Error creating tailor" is flashed |
| AdminTailorRoutes.DeleteTailor | routes/admin-tailors.js:84-100 | an unknown id changes nothing; otherwise the tailor with the id, in any shop, is removed, named in the flash, and no tailor keeps the id |

## Left out

- Express wiring, sessions, flash storage, CORS, JWT issuance and the authentication middleware: the caller's shop and identity are parameters of the handlers.
- Password hashing and comparison (bcrypt): the hash is a parameter, and the login handlers are not part of this model.
- The clock and `Math.random()`: the order-number timestamp and random part, and the shop-code time and random parts, are parameters; their uniqueness is not modelled.
- Number and date parsing (`parseFloat`, `parseInt`, `new Date`): the scalar request fields that the handlers parse arrive as their parsing outcome (`Parsed`), so NaN and invalid dates are inputs; floating-point rounding is not modelled and prices are `real`. The JSON API's `measurements` list is not such a field: it arrives as a list of items whose numeric values are already numbers (`seq<Measurement>` with `map<string, real>` values).
- TailorApi.PutMeasurements: a measurement value that Mongoose cannot cast to a Number (such as `"abc"`) and a `measurements` that is not an array are not representable; in the code the cast error makes `save()` fail and the route answers 500 with nothing saved.
- AdminCustomersApi.CreateCustomer: the same uncastable value or non-array `measurements` is not representable; in the code the save fails and the route answers 500 with nothing inserted (an object that is not iterable already fails the type-check loop, with the same 500).
- AdminCustomersApi.UpdateCustomer: the same uncastable value or non-array `measurements` is not representable; in the code the save fails and the route answers 500 with the customer unchanged.
- The MongoDB query engine: filters, `$regex`, `$expr`, `$group`, `populate` and sorting are written out over sequences; `createdAt` and `updatedAt` are not stored, and creation order is id order.
- ObjectId casting: ids are natural numbers, so a malformed id (a CastError answered 500) is not modelled.
- Concurrency: the read-then-write race of order-number generation and the non-atomic decrement; the model is sequential.
- Errors thrown outside the store (a lost connection and the like) and their catch-all answers ("Server error", "An error occurred. Please try again.") are not modelled; only the store's own refusals are.
- The text of Mongoose validation errors: a failed validation is one outcome, `ValidationFailed`.
- OrderRoutes.CreateOrder: the flash for a failed validation is "Validation error" without the joined list of field messages the code appends.
- HTML rendering and the DOM: the GET pages that only render a form (`/new`, `/:id/edit` without a lookup), and the DOM insertions of public/js/measurements.js; `buildFieldsHtml` is modelled only through the input names it produces.
- public/js/order-status.js, public/js/theme.js, seed.js, server.js, routes/dashboard.js, routes/auth.js, routes/tailor-auth.js and routes/api/auth.js are not part of this model.
- Pending approval and bulk assignment: no handler in the modelled code implements them.
- Basics.ToUpper: only `a` to `z` are upper-cased; the rest of Unicode case mapping (`ı` to `I`, accented letters, `ß` to `SS`, which lengthens the text) is not modelled, so a typed shop code holding such a letter can match a stored code in the code and not in the model.
- AdminOrdersApi.ListOrders: `page` and `limit` arrive as integers. The query strings are coerced twice in the code: by `Number` in `(page - 1) * limit` and `total / limit`, and by `parseInt` in `limit(...)` and the echoed `page`. A text such as `10abc` (NaN for one, 10 for the other) or `2.5` is not modelled.
- AdminCustomersApi.ListCustomers: the same integer `page` and `limit`, without the two coercions of their query strings.

## Findings

| source | as written | input that shows it | evidently intended | confidence | as-written member | corrected member |
|---|---|---|---|---|---|---|
| routes/tailor.js:132 | only an array of types is read, so a form with one checked type, which arrives as a single text, is read as no type and the PUT saves an empty list | `measurementTypes = "shirt"` with `length_shirt = "40"`: the customer's measurements are wiped | a single type is a list of one, as routes/customers.js:61-64 normalises it | not executed | TailorRoutes.SingleTypeWiped | TailorRoutes.SubmittedKeepsEveryType |
| public/js/measurements.js:72-89 | the offered types are computed when a block is added, from the selects' values at that moment, so two blocks added before either has a value both offer every type | press Add twice, then choose `shirt` in both blocks: the form posts `shirt` twice | a type chosen in one block cannot be chosen in another | not executed | MeasurementForm.SameTypeTwice | MeasurementForm.DistinctSubmission |
