/** routes/admin-tailors.js: the older tailor pages. Nothing here is scoped to a shop, and
    every outcome is a flash message followed by a redirect. */
module AdminTailorRoutes {
  import opened Basics
  import opened Collections
  import opened StaffModel
  import opened Store
  import opened StaffApi

  /** GET /: every tailor of every shop, newest first. */
  function AllTailors(tailors: seq<Doc<Staff>>): (r: seq<Doc<Staff>>)
    ensures |r| == |tailors|
    ensures forall d :: d in r <==> d in tailors
  {
    var r := Newest(tailors);
    assert forall i :: 0 <= i < |tailors| ==> tailors[i] == r[|tailors| - 1 - i];
    r
  }

  /** The page lists ids from the largest down. */
  lemma AllTailorsNewestFirst(tailors: seq<Doc<Staff>>, next: nat)
    requires Table(tailors, next, StaffKey)
    ensures var r := AllTailors(tailors); forall i, j :: 0 <= i < j < |r| ==> r[i].id > r[j].id
  {
    var r := AllTailors(tailors);
    forall i, j | 0 <= i < j < |r| ensures r[i].id > r[j].id {
      assert r[i] == tailors[|tailors| - 1 - i] && r[j] == tailors[|tailors| - 1 - j];
    }
  }

  /** The new-tailor form. */
  datatype TailorForm = TailorForm(username: Option<string>, name: Option<string>, password: Option<string>,
                                   confirmPassword: Option<string>)

  /** `{ username }` in any shop; the schema's `trim` setter casts the query value too, so
      the stored username is compared with the trimmed text. */
  predicate UsernameIs(d: Doc<Staff>, username: string)
  {
    d.val.username == Trim(username)
  }

  /** The checks of POST /, in order; the first that fails is the message shown. */
  function Refusal(tailors: seq<Doc<Staff>>, f: TailorForm): (r: Option<string>)
    ensures !(Given(f.username) && Given(f.name) && Given(f.password) && Given(f.confirmPassword)) ==>
              r == Some("All fields are required")
    ensures Given(f.username) && Given(f.name) && Given(f.password) && Given(f.confirmPassword) ==>
              && (f.password != f.confirmPassword ==> r == Some("Passwords do not match"))
              && (f.password == f.confirmPassword && Utf16Length(f.password.value) < MinPasswordLength ==>
                    r == Some("Password must be at least 6 characters"))
              && (f.password == f.confirmPassword && Utf16Length(f.password.value) >= MinPasswordLength ==>
                    && (r.None? <==> forall d :: d in tailors ==> d.val.username != Trim(f.username.value))
                    && (r.Some? ==> r == Some("Username already exists")))
  {
    if !(Given(f.username) && Given(f.name) && Given(f.password) && Given(f.confirmPassword)) then
      Some("All fields are required")
    else if f.password != f.confirmPassword then Some("Passwords do not match")
    else if Utf16Length(f.password.value) < MinPasswordLength then Some("Password must be at least 6 characters")
    else if First(tailors, UsernameIs, f.username.value).Some? then Some("Username already exists")
    else None
  }

  /** The older page is stricter than the shop API: a form it lets through passes the API's
      checks in every shop. */
  lemma StricterThanApi(tailors: seq<Doc<Staff>>, f: TailorForm, shop: Id)
    requires Refusal(tailors, f).None?
    ensures StaffApi.Refusal(tailors, shop, StaffForm(f.username, f.name, f.password)).None?
  {
  }

  /** POST /: after the checks the tailor is built without a shop, which the schema requires,
      so the save always fails; the flash is the catch-all one and no tailor is created. */
  method CreateTailor(db: Db, f: TailorForm, passwordHash: string) returns (r: Result<Id>)
    requires db.Valid()
    modifies db`tailors, db`nextId
    ensures db.Valid()
    ensures db.tailors == old(db.tailors) && db.nextId == old(db.nextId)
    ensures Refusal(old(db.tailors), f).Some? ==> r == Err(302, Refusal(old(db.tailors), f).value)
    ensures Refusal(old(db.tailors), f).None? ==> r == Err(302, "Error creating tailor")
  {
    var refusal := Refusal(db.tailors, f);
    if refusal.Some? {
      return Err(302, refusal.value);
    }
    NoShopNoStaff(f.username.value, f.name.value, passwordHash);
    var e := db.InsertTailor(NewStaff(f.username.value, f.name.value, passwordHash, None));
    assert e == Some(ValidationFailed);
    r := Err(302, "Error creating tailor");
  }

  /** DELETE /:id: `findByIdAndDelete`, in any shop; an unknown id is reported. */
  method DeleteTailor(db: Db, id: Id) returns (r: Result<string>)
    requires db.Valid()
    modifies db`tailors
    ensures db.Valid()
    ensures First(old(db.tailors), HasId, id).None? ==> r == Err(302, "Tailor not found") && db.tailors == old(db.tailors)
    ensures First(old(db.tailors), HasId, id).Some? ==>
              var k := First(old(db.tailors), HasId, id).value;
              && db.tailors == RemoveAt(old(db.tailors), k)
              && r == Ok("Tailor \"" + old(db.tailors)[k].val.name + "\" deleted successfully")
    ensures r.Ok? ==> forall d :: d in db.tailors ==> d.id != id
  {
    var k := First(db.tailors, HasId, id);
    if k.None? {
      return Err(302, "Tailor not found");
    }
    var name := db.tailors[k.value].val.name;
    RemovedIdGone(db.tailors, db.nextId, StaffKey, k.value);
    db.RemoveTailorAt(k.value);
    r := Ok("Tailor \"" + name + "\" deleted successfully");
  }
}
