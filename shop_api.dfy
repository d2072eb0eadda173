/** routes/api/shop.js: registering a shop together with its first admin, and finding a
    shop by the code customers type in. The bcrypt hash, the clock and `Math.random()` are
    parameters; the login token is not modelled. */
module ShopApi {
  import opened Basics
  import opened Collections
  import opened ShopModel
  import opened StaffModel
  import opened Store

  /** The request body of POST /register. */
  datatype Registration = Registration(shopName: Option<string>, phone: Option<string>, address: Option<string>,
                                       adminUsername: Option<string>, adminPassword: Option<string>)

  /** The 201 answer: the new shop and its admin. */
  datatype Registered = Registered(shopId: Id, shopName: string, shopCode: string, adminId: Id, username: string)

  /** The shop the route saves, after the pre-validate hook has given it a code. */
  function ShopOf(f: Registration, now: nat, random: real): (r: Shop)
    requires 0.0 <= random < 1.0
    ensures r.shopName == Trim(OrElse(f.shopName, ""))
    ensures r.shopCode == GenerateCode(r.shopName, now, random)
  {
    PreValidate(NewShop(OrElse(f.shopName, ""), OrElse(f.phone, ""), OrElse(f.address, "")), now, random)
  }

  /** How an error thrown out of the route is answered: a duplicate key on `username` is the
      admin's, any other duplicate key is taken for a shop-code collision, anything else is
      a server error. */
  function RegisterError(e: WriteError): (r: Result<Registered>)
    ensures r.Err?
    ensures r.code == 409 <==> e.DuplicateKey?
    ensures r.code == 500 <==> e.ValidationFailed?
  {
    match e
    case DuplicateKey(field) =>
      if field == "username" then Err(409, "Admin username already exists in this shop")
      else Err(409, "Shop code conflict, please try again")
    case ValidationFailed => Err(500, "Server error")
  }

  /** POST /register: the three required fields (400), the password length (400), then the
      shop is saved and its admin after it; when the admin cannot be saved the shop is
      deleted again, so a failed registration leaves no shop behind. */
  method Register(db: Db, f: Registration, passwordHash: string, now: nat, random: real) returns (r: Result<Registered>)
    requires db.Valid() && 0.0 <= random < 1.0
    modifies db`shops, db`admins, db`nextId
    ensures db.Valid()
    ensures !(Given(f.shopName) && Given(f.adminUsername) && Given(f.adminPassword)) ==>
              r == Err(400, "Shop name, admin username, and admin password are required")
    ensures Given(f.shopName) && Given(f.adminUsername) && Given(f.adminPassword) && Utf16Length(f.adminPassword.value) < MinPasswordLength ==>
              r == Err(400, "Password must be at least 6 characters")
    ensures r.Err? ==> db.shops == old(db.shops) && db.admins == old(db.admins)
    ensures Given(f.shopName) && Given(f.adminUsername) && Given(f.adminPassword) && Utf16Length(f.adminPassword.value) >= MinPasswordLength ==>
              var s := ShopOf(f, now, random);
              var ws := Insert(old(db.shops), old(db.nextId), ShopKey, "shopCode", ValidShop, s);
              var a := NewAdmin(f.adminUsername.value, passwordHash, Some(old(db.nextId)));
              var wa := Insert(old(db.admins), old(db.nextId) + 1, AdminKey, "username", ValidAdmin, a);
              && (ws.error.Some? ==> r == RegisterError(ws.error.value))
              && (ws.error.None? && wa.error.Some? ==> r == RegisterError(wa.error.value))
              && (ws.error.None? && wa.error.None? ==>
                    && db.shops == old(db.shops) + [Doc(old(db.nextId), s)]
                    && db.admins == old(db.admins) + [Doc(old(db.nextId) + 1, a)]
                    && r == Ok(Registered(old(db.nextId), s.shopName, s.shopCode, old(db.nextId) + 1, a.username)))
  {
    if !(Given(f.shopName) && Given(f.adminUsername) && Given(f.adminPassword)) {
      return Err(400, "Shop name, admin username, and admin password are required");
    }
    if Utf16Length(f.adminPassword.value) < MinPasswordLength {
      return Err(400, "Password must be at least 6 characters");
    }
    var s := ShopOf(f, now, random);
    var shopId := db.nextId;
    var e := db.InsertShop(s);
    if e.Some? {
      assert db.shops == old(db.shops) && db.admins == old(db.admins);
      return RegisterError(e.value);
    }
    assert db.shops == old(db.shops) + [Doc(shopId, s)];
    assert db.admins == old(db.admins) && db.nextId == shopId + 1;
    var a := NewAdmin(f.adminUsername.value, passwordHash, Some(shopId));
    var adminId := db.nextId;
    e := SaveAdminOrUndoShop(db, a);
    if e.Some? {
      RemoveLast(old(db.shops), Doc(shopId, s));
      return RegisterError(e.value);
    }
    r := Ok(Registered(shopId, s.shopName, s.shopCode, adminId, a.username));
  }

  /** The admin save of a registration; when it fails, the shop saved just before it (the
      last one) is deleted again. */
  method SaveAdminOrUndoShop(db: Db, a: Admin) returns (e: Option<WriteError>)
    requires db.Valid() && |db.shops| > 0
    modifies db`shops, db`admins, db`nextId
    ensures db.Valid()
    ensures var wa := Insert(old(db.admins), old(db.nextId), AdminKey, "username", ValidAdmin, a);
            e == wa.error && db.admins == wa.docs
    ensures e.Some? ==> db.shops == RemoveAt(old(db.shops), |old(db.shops)| - 1)
    ensures e.None? ==> db.shops == old(db.shops) && db.nextId == old(db.nextId) + 1
  {
    e := db.InsertAdmin(a);
    if e.Some? {
      db.RemoveShopAt(|db.shops| - 1);
    }
  }

  lemma RemoveLast<T>(s: seq<T>, x: T)
    ensures RemoveAt(s + [x], |s|) == s
  {
    assert (s + [x])[..|s|] == s;
  }

  // ---------------------------------------------------------------- lookup

  /** The public fields of a shop. */
  datatype ShopInfo = ShopInfo(id: Id, shopName: string, shopCode: string)

  predicate CodeIs(d: Doc<Shop>, code: string)
  {
    d.val.shopCode == code
  }

  /** GET /lookup?code=: a missing or blank code is 400; the code is trimmed and uppercased
      before the search; no shop with that code is 404. */
  function Lookup(shops: seq<Doc<Shop>>, code: Option<string>): (r: Result<ShopInfo>)
    ensures !Given(code) || Trim(code.value) == "" ==> r == Err(400, "Shop code is required")
    ensures Given(code) && Trim(code.value) != "" ==>
              && (r.Ok? <==> exists k :: 0 <= k < |shops| && shops[k].val.shopCode == NormalizeCode(code.value))
              && (r.Err? ==> r == Err(404, "Shop not found"))
              && (r.Ok? ==> r.value.shopCode == NormalizeCode(code.value)
                            && exists k :: 0 <= k < |shops| && r.value == ShopInfo(shops[k].id, shops[k].val.shopName, shops[k].val.shopCode))
  {
    if !Given(code) || Trim(code.value) == "" then Err(400, "Shop code is required")
    else
      var k := First(shops, CodeIs, NormalizeCode(code.value));
      if k.None? then Err(404, "Shop not found")
      else Ok(ShopInfo(shops[k.value].id, shops[k.value].val.shopName, shops[k.value].val.shopCode))
  }

  /** A shop just registered is found again by its own code: the generated code is already
      in normal form, and the unique index means no other shop holds it. */
  lemma LookupFindsRegistered(shops: seq<Doc<Shop>>, next: nat, id: Id, s: Shop, name: string, now: nat, random: real)
    requires 0.0 <= random < 1.0 && s.shopCode == GenerateCode(name, now, random)
    requires Table(shops + [Doc(id, s)], next, ShopKey)
    ensures Lookup(shops + [Doc(id, s)], Some(s.shopCode)) == Ok(ShopInfo(id, s.shopName, s.shopCode))
  {
    GeneratedCodeNormal(name, now, random);
    CodeSettersKeep(name, now, random);
    assert NormalizeCode(s.shopCode) == s.shopCode;
    assert Trim(s.shopCode) == s.shopCode;
    NewestCodeFound(shops, next, id, s);
  }

  /** With the code index unique, the shop appended last is the first holding its code. */
  lemma NewestCodeFound(shops: seq<Doc<Shop>>, next: nat, id: Id, s: Shop)
    requires Table(shops + [Doc(id, s)], next, ShopKey)
    ensures First(shops + [Doc(id, s)], CodeIs, s.shopCode) == Some(|shops|)
  {
    var all := shops + [Doc(id, s)];
    forall k | 0 <= k < |shops|
      ensures !CodeIs(all[k], s.shopCode)
    {
      assert ShopKey(all[k].val) != ShopKey(all[|shops|].val);
    }
    OnlyLastMatches(all, s.shopCode);
  }

  lemma OnlyLastMatches(all: seq<Doc<Shop>>, c: string)
    requires |all| > 0 && CodeIs(all[|all| - 1], c)
    requires forall k :: 0 <= k < |all| - 1 ==> !CodeIs(all[k], c)
    ensures First(all, CodeIs, c) == Some(|all| - 1)
  {
  }
}
