/** The account records of models/Admin.js, models/Tailor.js and models/CuttingMaster.js:
    a username and a password hash per shop (tailors and cutting masters also carry a name).
    The hash comes from bcrypt and is a parameter. */
module StaffModel {
  import opened Basics

  /** The shortest password the account routes accept. */
  const MinPasswordLength: nat := 6

  /** A tailor or a cutting master. */
  datatype Staff = Staff(username: string, name: string, passwordHash: string, shop: Option<Id>)

  datatype Admin = Admin(username: string, passwordHash: string, shop: Option<Id>)

  /** `new Tailor({ username, name, passwordHash, shop })` (likewise for cutting masters). */
  function NewStaff(username: string, name: string, passwordHash: string, shop: Option<Id>): Staff
  {
    Staff(Trim(username), Trim(name), passwordHash, shop)
  }

  function NewAdmin(username: string, passwordHash: string, shop: Option<Id>): Admin
  {
    Admin(Trim(username), passwordHash, shop)
  }

  /** What `save()` accepts: every field present, after trimming. */
  predicate ValidStaff(s: Staff)
  {
    s.username != "" && s.name != "" && s.passwordHash != "" && s.shop.Some?
  }

  predicate ValidAdmin(a: Admin)
  {
    a.username != "" && a.passwordHash != "" && a.shop.Some?
  }

  /** The legacy tailor form stores no shop, so what it builds never passes validation. */
  lemma NoShopNoStaff(username: string, name: string, passwordHash: string)
    ensures !ValidStaff(NewStaff(username, name, passwordHash, None))
  {
  }
}
