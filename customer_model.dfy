/** The customer record of models/Customer.js: the measurement items with their ten types
    and nullable numeric fields, the phone pattern, and what a Mongoose document keeps of the
    values a route assigns (trimmed texts, schema fields only). */
module CustomerModel {
  import opened Basics

  /** The `type` enumeration of a measurement item. */
  const MeasurementTypes: seq<string> :=
    ["pant", "shirt", "coat", "jacket", "kurta", "salwar", "sherwani", "lehenga", "saree", "other"]

  /** The numeric fields of a measurement item, in schema order. */
  const MeasurementFields: seq<string> :=
    ["length", "shoulder", "chest", "waist", "hip", "neck",
     "thigh", "knee", "bottom", "crotch",
     "sleeveLength", "bicep", "collar", "cuff",
     "armhole", "crossBack", "sleeve", "slits",
     "skirtLength", "skirtWaist", "skirtHip",
     "blouseLength", "blouseChest", "blouseUnderbust", "blouseShoulder", "blouseSleeve",
     "petticoatLength", "petticoatWaist"]

  /** A measurement item: its type, the numeric fields that hold a number (a field that is
      not in `values` is null), and its notes. */
  datatype Measurement = Measurement(mtype: string, values: map<string, real>, notes: string)

  datatype Customer = Customer(
    name: string,
    phone: string,
    shop: Option<Id>,
    measurements: seq<Measurement>,
    notes: string)

  /** The item a document holds for an assigned one: fields outside the schema are dropped
      and the notes are trimmed. */
  function CastMeasurement(m: Measurement): (r: Measurement)
    ensures r.mtype == m.mtype
    ensures forall f :: f in r.values <==> f in m.values && f in MeasurementFields
    ensures forall f :: f in r.values ==> r.values[f] == m.values[f]
  {
    Measurement(m.mtype, map f | f in m.values && f in MeasurementFields :: m.values[f], Trim(m.notes))
  }

  function CastMeasurements(ms: seq<Measurement>): (r: seq<Measurement>)
    ensures |r| == |ms|
    ensures forall i :: 0 <= i < |ms| ==> r[i] == CastMeasurement(ms[i])
  {
    seq(|ms|, i requires 0 <= i < |ms| => CastMeasurement(ms[i]))
  }

  /** `new Customer({ name, phone, notes, measurements, shop })`: texts trimmed, notes
      defaulting to the empty text. */
  function NewCustomer(name: string, phone: string, notes: Option<string>, ms: seq<Measurement>, shop: Option<Id>): Customer
  {
    Customer(Trim(name), Trim(phone), shop, CastMeasurements(ms), if notes.Some? then Trim(notes.value) else "")
  }

  /** A measurement item of a known type with every numeric field null and empty notes:
      the schema defaults. */
  function NewMeasurement(mtype: string): Measurement
  {
    Measurement(mtype, map[], "")
  }

  /** `/^\d{10,15}$/`. */
  predicate ValidPhone(p: string)
  {
    10 <= |p| <= 15 && AllDigits(p)
  }

  predicate ValidMeasurement(m: Measurement)
  {
    m.mtype in MeasurementTypes
  }

  /** What `save()` accepts: a name, a phone of 10 to 15 digits, a shop, and a known type on
      every measurement item. */
  predicate ValidCustomer(c: Customer)
  {
    && c.name != ""
    && ValidPhone(c.phone)
    && c.shop.Some?
    && forall i :: 0 <= i < |c.measurements| ==> ValidMeasurement(c.measurements[i])
  }

  /** A text made of digits is left as it is by `trim`, so a cleaned phone is stored as
      cleaned. */
  lemma TrimKeepsDigits(p: string)
    requires AllDigits(p)
    ensures Trim(p) == p
  {
    assert p == [] || (!IsSpace(p[0]) && !IsSpace(p[|p| - 1]));
    TrimKeeps(p);
  }

  /** A field the schema does not declare, such as the `arm` the legacy forms send, is never
      stored. */
  lemma ArmNotStored(m: Measurement)
    ensures "arm" !in CastMeasurement(m).values
  {
    assert "arm" !in MeasurementFields;
  }

  /** A new customer with a name that is not blank, a valid cleaned phone, known measurement
      types and a shop passes validation. */
  lemma NewCustomerValid(name: string, phone: string, notes: Option<string>, ms: seq<Measurement>, shop: Id)
    requires exists i :: 0 <= i < |name| && !IsSpace(name[i])
    requires ValidPhone(phone)
    requires forall i :: 0 <= i < |ms| ==> ms[i].mtype in MeasurementTypes
    ensures ValidCustomer(NewCustomer(name, phone, notes, ms, Some(shop)))
  {
    TrimEmptyIffBlank(name);
    TrimKeepsDigits(phone);
    CastKeepsTypes(ms);
  }

  lemma CastKeepsTypes(ms: seq<Measurement>)
    requires forall i :: 0 <= i < |ms| ==> ms[i].mtype in MeasurementTypes
    ensures forall i :: 0 <= i < |CastMeasurements(ms)| ==> ValidMeasurement(CastMeasurements(ms)[i])
  {
  }
}
