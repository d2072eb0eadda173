/** routes/api/admin/tailors.js and routes/api/admin/cutting-masters.js: an admin lists,
    creates and deletes the tailors and cutting masters of the admin's own shop. The two
    files differ only in the collection and the words of their messages, so one
    specification serves both and each collection has its own method. */
module StaffApi {
  import opened Basics
  import opened Collections
  import opened StaffModel
  import opened Store
  import opened Views

  /** The JSON of one account (the timestamp is not modelled). */
  datatype StaffEntry = StaffEntry(id: Id, username: string, name: string)

  function Entry(d: Doc<Staff>, u: ()): (r: StaffEntry)
    ensures r.id == d.id && r.username == d.val.username && r.name == d.val.name
  {
    StaffEntry(d.id, d.val.username, d.val.name)
  }

  // ---------------------------------------------------------------- list

  /** GET /: the accounts of the caller's shop, newest first. */
  function List(staff: seq<Doc<Staff>>, shop: Id): (r: seq<StaffEntry>)
    ensures |r| == Count(staff, StaffOfShop, shop)
  {
    MapAll(NewestFirst(staff, StaffOfShop, shop), Entry, ())
  }

  /** The list shows exactly the shop's accounts. */
  lemma Listed(staff: seq<Doc<Staff>>, shop: Id)
    ensures forall i :: 0 <= i < |List(staff, shop)| ==>
              exists d :: d in staff && d.val.shop == Some(shop) && List(staff, shop)[i] == Entry(d, ())
    ensures forall d :: d in staff && d.val.shop == Some(shop) ==> Entry(d, ()) in List(staff, shop)
  {
    ProjectedMatches(staff, StaffOfShop, shop, Entry, ());
  }

  /** The list runs from the latest account down. */
  lemma ListedNewestFirst(staff: seq<Doc<Staff>>, next: nat, shop: Id)
    requires Table(staff, next, StaffKey)
    ensures var r := List(staff, shop); forall i, j :: 0 <= i < j < |r| ==> r[i].id > r[j].id
  {
    NewestDescending(staff, next, StaffKey, StaffOfShop, shop);
    var n := NewestFirst(staff, StaffOfShop, shop);
    assert n == Newest(Select(staff, StaffOfShop, shop));
    var r := List(staff, shop);
    assert r == MapAll(n, Entry, ());
    forall i, j | 0 <= i < j < |r|
      ensures r[i].id > r[j].id
    {
      assert r[i] == Entry(n[i], ()) && r[j] == Entry(n[j], ());
    }
  }

  // ---------------------------------------------------------------- create

  /** The request body of POST /. */
  datatype StaffForm = StaffForm(username: Option<string>, name: Option<string>, password: Option<string>)

  /** `{ username, shop }`; the schema's `trim` setter casts the query value too, so the
      stored username is compared with the trimmed text. */
  predicate UsernameIn(d: Doc<Staff>, q: (string, Id))
  {
    d.val.username == Trim(q.0) && d.val.shop == Some(q.1)
  }

  /** What happens to a collection, and the answer. */
  datatype Outcome<T> = Outcome(staff: seq<Doc<Staff>>, reply: Result<T>)

  /** The checks before the save, in order: the three fields, the password length, then no
      account of the same shop with that username. */
  function Refusal(staff: seq<Doc<Staff>>, shop: Id, f: StaffForm): (r: Option<Result<StaffEntry>>)
    ensures r.Some? ==> r.value.Err?
    ensures !(Given(f.username) && Given(f.name) && Given(f.password)) ==>
              r == Some(Err(400, "Username, name, and password are required"))
    ensures Given(f.username) && Given(f.name) && Given(f.password) && Utf16Length(f.password.value) < MinPasswordLength ==>
              r == Some(Err(400, "Password must be at least 6 characters"))
    ensures Given(f.username) && Given(f.name) && Given(f.password) && Utf16Length(f.password.value) >= MinPasswordLength ==>
              && ((exists d :: d in staff && UsernameIn(d, (f.username.value, shop))) ==> r == Some(Err(409, "Username already exists")))
              && (r.None? <==> forall d :: d in staff ==> !UsernameIn(d, (f.username.value, shop)))
  {
    if !(Given(f.username) && Given(f.name) && Given(f.password)) then
      Some(Err(400, "Username, name, and password are required"))
    else if Utf16Length(f.password.value) < MinPasswordLength then Some(Err(400, "Password must be at least 6 characters"))
    else if First(staff, UsernameIn, (f.username.value, shop)).Some? then Some(Err(409, "Username already exists"))
    else None
  }

  /** A duplicate key at the save is answered as the check above; anything else is 500. */
  function SaveError(e: WriteError): (r: Result<StaffEntry>)
    ensures r.Err? && (r.code == 409 <==> e.DuplicateKey?) && (r.code == 500 <==> e.ValidationFailed?)
  {
    if e.DuplicateKey? then Err(409, "Username already exists") else Err(500, "Server error")
  }

  /** POST /: after the checks the account is built in the caller's shop and saved; the
      answer is 201 with its id, username and name. */
  function Create(staff: seq<Doc<Staff>>, next: nat, shop: Id, f: StaffForm, passwordHash: string): (r: Outcome<StaffEntry>)
    ensures Refusal(staff, shop, f).Some? ==> r == Outcome(staff, Refusal(staff, shop, f).value)
    ensures r.reply.Err? ==> r.staff == staff
    ensures r.reply.Ok? ==>
              && r.staff == staff + [Doc(next, NewStaff(f.username.value, f.name.value, passwordHash, Some(shop)))]
              && r.reply.value == Entry(Doc(next, NewStaff(f.username.value, f.name.value, passwordHash, Some(shop))), ())
              && ValidStaff(r.staff[|staff|].val) && r.staff[|staff|].val.shop == Some(shop)
    ensures r.reply.Ok? <==> Refusal(staff, shop, f).None?
                             && Insert(staff, next, StaffKey, "username", ValidStaff,
                                       NewStaff(f.username.value, f.name.value, passwordHash, Some(shop))).error.None?
  {
    var refusal := Refusal(staff, shop, f);
    if refusal.Some? then Outcome(staff, refusal.value)
    else
      var s := NewStaff(f.username.value, f.name.value, passwordHash, Some(shop));
      var w := Insert(staff, next, StaffKey, "username", ValidStaff, s);
      if w.error.Some? then Outcome(staff, SaveError(w.error.value))
      else Outcome(w.docs, Ok(Entry(Doc(next, s), ())))
  }

  /** Once the checks pass, the save cannot collide on the username: the check looked for
      the very key the unique index holds, the trimmed username in the shop. A 409 from the
      save needs a concurrent insert. */
  lemma CheckedIsUnique(staff: seq<Doc<Staff>>, next: nat, shop: Id, f: StaffForm, passwordHash: string)
    requires Refusal(staff, shop, f).None?
    ensures Insert(staff, next, StaffKey, "username", ValidStaff,
                   NewStaff(f.username.value, f.name.value, passwordHash, Some(shop))).error != Some(DuplicateKey("username"))
  {
    var s := NewStaff(f.username.value, f.name.value, passwordHash, Some(shop));
    forall j | 0 <= j < |staff|
      ensures StaffKey(staff[j].val) != StaffKey(s)
    {
      assert staff[j] in staff;
      assert !UsernameIn(staff[j], (f.username.value, shop));
    }
  }

  /** A complete form with a trimmed username and name that nobody in the shop uses is
      always created. */
  lemma CompleteFormCreates(staff: seq<Doc<Staff>>, next: nat, shop: Id, f: StaffForm, passwordHash: string)
    requires Given(f.username) && Given(f.name) && Given(f.password) && Utf16Length(f.password.value) >= MinPasswordLength
    requires Trim(f.username.value) == f.username.value && Trim(f.name.value) == f.name.value && passwordHash != ""
    requires forall d :: d in staff ==> !UsernameIn(d, (f.username.value, shop))
    ensures Create(staff, next, shop, f, passwordHash).reply.Ok?
  {
    CheckedIsUnique(staff, next, shop, f, passwordHash);
  }

  // ---------------------------------------------------------------- delete

  /** DELETE /:id: `findOneAndDelete({ _id, shop })`; an account of another shop is not found. */
  function Delete(staff: seq<Doc<Staff>>, shop: Id, id: Id, noun: string): (r: Outcome<string>)
    ensures First(staff, StaffAt, Scoped(id, shop)).None? ==> r == Outcome(staff, Err(404, noun + " not found"))
    ensures First(staff, StaffAt, Scoped(id, shop)).Some? ==>
              var k := First(staff, StaffAt, Scoped(id, shop)).value;
              && r.staff == RemoveAt(staff, k)
              && r.reply == Ok(noun + " \"" + staff[k].val.name + "\" deleted")
              && staff[k].id == id && staff[k].val.shop == Some(shop)
  {
    var k := First(staff, StaffAt, Scoped(id, shop));
    if k.None? then Outcome(staff, Err(404, noun + " not found"))
    else Outcome(RemoveAt(staff, k.value), Ok(noun + " \"" + staff[k.value].val.name + "\" deleted"))
  }

  /** A delete removes the one account and touches no other shop: afterwards the id is gone
      and every account of another shop is still there. */
  lemma DeleteOnlyOwn(staff: seq<Doc<Staff>>, next: nat, shop: Id, id: Id, noun: string)
    requires Table(staff, next, StaffKey)
    ensures var r := Delete(staff, shop, id, noun);
            && (r.reply.Ok? ==> forall d :: d in r.staff ==> d.id != id)
            && (forall d :: d in staff && d.val.shop != Some(shop) ==> d in r.staff)
            && (r.reply.Ok? ==> |r.staff| == |staff| - 1)
  {
    var k := First(staff, StaffAt, Scoped(id, shop));
    if k.Some? {
      RemovedIdGone(staff, next, StaffKey, k.value);
      var t := RemoveAt(staff, k.value);
      forall d | d in staff && d.val.shop != Some(shop)
        ensures d in t
      {
        var i :| 0 <= i < |staff| && staff[i] == d;
        if i < k.value { assert t[i] == d; } else { assert i != k.value; assert t[i - 1] == d; }
      }
    }
  }

  // ---------------------------------------------------------------- the two collections

  method CreateTailor(db: Db, shop: Id, f: StaffForm, passwordHash: string) returns (r: Result<StaffEntry>)
    requires db.Valid()
    modifies db`tailors, db`nextId
    ensures db.Valid()
    ensures var c := Create(old(db.tailors), old(db.nextId), shop, f, passwordHash);
            db.tailors == c.staff && r == c.reply
  {
    var refusal := Refusal(db.tailors, shop, f);
    if refusal.Some? {
      return refusal.value;
    }
    var s := NewStaff(f.username.value, f.name.value, passwordHash, Some(shop));
    var id := db.nextId;
    var e := db.InsertTailor(s);
    if e.Some? {
      return SaveError(e.value);
    }
    r := Ok(Entry(Doc(id, s), ()));
  }

  method DeleteTailor(db: Db, shop: Id, id: Id) returns (r: Result<string>)
    requires db.Valid()
    modifies db`tailors
    ensures db.Valid()
    ensures var c := Delete(old(db.tailors), shop, id, "Tailor");
            db.tailors == c.staff && r == c.reply
  {
    var noun := "Tailor";
    var k := First(db.tailors, StaffAt, Scoped(id, shop));
    if k.None? {
      return Err(404, noun + " not found");
    }
    var name := db.tailors[k.value].val.name;
    db.RemoveTailorAt(k.value);
    r := Ok(noun + " \"" + name + "\" deleted");
  }

  method CreateCuttingMaster(db: Db, shop: Id, f: StaffForm, passwordHash: string) returns (r: Result<StaffEntry>)
    requires db.Valid()
    modifies db`cuttingMasters, db`nextId
    ensures db.Valid()
    ensures var c := Create(old(db.cuttingMasters), old(db.nextId), shop, f, passwordHash);
            db.cuttingMasters == c.staff && r == c.reply
  {
    var refusal := Refusal(db.cuttingMasters, shop, f);
    if refusal.Some? {
      return refusal.value;
    }
    var s := NewStaff(f.username.value, f.name.value, passwordHash, Some(shop));
    var id := db.nextId;
    var e := db.InsertCuttingMaster(s);
    if e.Some? {
      return SaveError(e.value);
    }
    r := Ok(Entry(Doc(id, s), ()));
  }

  method DeleteCuttingMaster(db: Db, shop: Id, id: Id) returns (r: Result<string>)
    requires db.Valid()
    modifies db`cuttingMasters
    ensures db.Valid()
    ensures var c := Delete(old(db.cuttingMasters), shop, id, "Cutting Master");
            db.cuttingMasters == c.staff && r == c.reply
  {
    var noun := "Cutting Master";
    var k := First(db.cuttingMasters, StaffAt, Scoped(id, shop));
    if k.None? {
      return Err(404, noun + " not found");
    }
    var name := db.cuttingMasters[k.value].val.name;
    db.RemoveCuttingMasterAt(k.value);
    r := Ok(noun + " \"" + name + "\" deleted");
  }
}
