/** public/js/measurements.js: the measurement editor of the customer forms. The page holds
    a counter and a list of blocks, one per measurement item; each block has a type select
    whose options are fixed when the block is added. The tables of types, fields and labels
    and the pure helpers are modelled; the HTML it writes is not. */
module MeasurementForm {
  import opened Basics
  import opened Collections
  import opened CustomerModel
  import opened Views
  import opened TailorRoutes

  // ---------------------------------------------------------------- tables

  /** `MEASUREMENT_TYPES`. */
  const EditorTypes: seq<string> :=
    ["pant", "shirt", "coat", "jacket", "kurta", "salwar", "sherwani", "lehenga", "saree", "other"]

  /** `FIELDS_FOR_TYPE[t]`, or the fields of 'other' for a type the table does not name. */
  function FieldsFor(t: string): seq<string>
  {
    if t == "pant" then ["length", "waist", "hip", "thigh", "knee", "bottom", "crotch"]
    else if t == "shirt" then ["length", "shoulder", "chest", "waist", "sleeveLength", "bicep", "collar", "cuff"]
    else if t == "coat" || t == "sherwani" then ["length", "shoulder", "chest", "waist", "hip", "sleeveLength", "armhole", "crossBack"]
    else if t == "jacket" then ["length", "shoulder", "chest", "waist", "sleeve", "neck"]
    else if t == "kurta" then ["length", "shoulder", "chest", "waist", "hip", "sleeveLength", "collar", "slits"]
    else if t == "salwar" then ["length", "waist", "hip", "crotch", "bottom"]
    else if t == "lehenga" then ["skirtLength", "skirtWaist", "skirtHip", "blouseLength", "blouseChest", "blouseUnderbust", "blouseShoulder", "blouseSleeve"]
    else if t == "saree" then ["blouseLength", "blouseChest", "blouseUnderbust", "blouseShoulder", "blouseSleeve", "petticoatLength", "petticoatWaist"]
    else ["length", "shoulder", "chest", "waist", "hip", "neck", "thigh", "knee", "bottom", "crotch",
          "sleeveLength", "bicep", "collar", "cuff", "armhole", "crossBack", "sleeve", "slits"]
  }

  /** `FIELD_LABELS`. */
  const FieldLabels: map<string, string> := map[
    "length" := "Length", "shoulder" := "Shoulder", "chest" := "Chest", "waist" := "Waist",
    "hip" := "Hip", "neck" := "Neck", "thigh" := "Thigh", "knee" := "Knee", "bottom" := "Bottom",
    "crotch" := "Crotch", "sleeveLength" := "Sleeve Length", "bicep" := "Bicep", "collar" := "Collar",
    "cuff" := "Cuff", "armhole" := "Armhole", "crossBack" := "Cross Back", "sleeve" := "Sleeve",
    "slits" := "Slits", "skirtLength" := "Skirt Length", "skirtWaist" := "Skirt Waist",
    "skirtHip" := "Skirt Hip", "blouseLength" := "Blouse Length", "blouseChest" := "Blouse Chest",
    "blouseUnderbust" := "Blouse Underbust", "blouseShoulder" := "Blouse Shoulder",
    "blouseSleeve" := "Blouse Sleeve", "petticoatLength" := "Petticoat Length",
    "petticoatWaist" := "Petticoat Waist"]

  /** `FIELD_LABELS[f] || f`. */
  function Label(f: string): (r: string)
    ensures f in FieldLabels ==> r == FieldLabels[f]
    ensures f !in FieldLabels ==> r == f
  {
    if f in FieldLabels then FieldLabels[f] else f
  }

  /** The editor offers exactly the ten types the schema accepts. */
  lemma TypesAreSchemaTypes()
    ensures EditorTypes == MeasurementTypes
  {
  }

  /** Every field the editor offers for any type is a field of the schema and has a label of
      its own, so the fallback to the raw name is never used. */
  lemma FieldsAreSchemaFields(t: string)
    ensures forall f :: f in FieldsFor(t) ==> f in MeasurementFields && f in FieldLabels && Label(f) == FieldLabels[f]
  {
  }

  /** The labels cover exactly the schema's fields. */
  lemma LabelsCoverSchema()
    ensures forall f :: f in FieldLabels <==> f in MeasurementFields
  {
  }

  /** A type outside the table gets the fields of 'other'. */
  lemma UnknownTypeFallsBack(t: string)
    requires t !in EditorTypes
    ensures FieldsFor(t) == FieldsFor("other")
  {
  }

  /** The inputs of a block: one per field, named `${f}_${type}`, the names the routes read. */
  function InputNames(t: string): (r: seq<string>)
    ensures |r| == |FieldsFor(t)|
    ensures forall i :: 0 <= i < |r| ==> r[i] == InputName(FieldsFor(t)[i], t)
  {
    MapAll(FieldsFor(t), InputName, t)
  }

  /** The server-rendered routes read eight fields only: a field the editor offers beyond
      them (a knee, any lehenga or saree field) is sent and never stored. */
  lemma UnreadFieldsLost(t: string, b: MeasurementBody, f: string)
    requires f in FieldsFor(t) && f !in EditorFields
    ensures f !in Entry(t, b).values
    ensures f !in CastMeasurement(Entry(t, b)).values
  {
  }

  /** `str.charAt(0).toUpperCase() + str.slice(1)`. */
  function Capitalize(s: string): (r: string)
    ensures |r| == |s|
    ensures s != [] ==> r[0] == UpperChar(s[0]) && r[1..] == s[1..]
  {
    if s == [] then [] else ToUpper(s[..1]) + s[1..]
  }

  /** The option texts of the ten types start with a capital and keep the rest. */
  lemma CapitalizedTypes(t: string)
    requires t in EditorTypes
    ensures |Capitalize(t)| == |t| && IsUpper(Capitalize(t)[0]) && Capitalize(t)[1..] == t[1..]
  {
  }

  // ---------------------------------------------------------------- blocks

  /** A block on the page: its id number, the options its select was built with, and the
      selected value (empty for 'Select Type'). */
  datatype Block = Block(id: nat, options: seq<string>, selected: string)

  function Selected(b: Block, u: ()): string
  {
    b.selected
  }

  predicate NotEmpty(t: string, u: ())
  {
    t != ""
  }

  /** `usedTypes`: the non-empty values of the selects, in page order. */
  function UsedTypes(blocks: seq<Block>): seq<string>
  {
    Select(MapAll(blocks, Selected, ()), NotEmpty, ())
  }

  /** A type counts as used exactly when some select holds it. */
  lemma UsedTypesChosen(blocks: seq<Block>)
    ensures forall t :: t in UsedTypes(blocks) <==> t != "" && exists i :: 0 <= i < |blocks| && blocks[i].selected == t
  {
    var all := MapAll(blocks, Selected, ());
    forall t | t != "" && exists i :: 0 <= i < |blocks| && blocks[i].selected == t
      ensures t in UsedTypes(blocks)
    {
      var i :| 0 <= i < |blocks| && blocks[i].selected == t;
      assert all[i] == t;
    }
  }

  predicate Unused(t: string, used: seq<string>)
  {
    t !in used
  }

  /** `availableTypes`: the types of the table no select has chosen, in table order. */
  function Available(types: seq<string>, blocks: seq<Block>): seq<string>
  {
    Select(types, Unused, UsedTypes(blocks))
  }

  predicate BlockIs(b: Block, id: nat)
  {
    b.id == id
  }

  /** The selected types of the blocks are pairwise different. */
  predicate NoRepeats(blocks: seq<Block>)
  {
    forall i, j :: 0 <= i < j < |blocks| && blocks[i].selected != "" ==> blocks[i].selected != blocks[j].selected
  }

  /** `measurementTypes` as the form posts it: the value of each select, in page order. */
  function Submitted(blocks: seq<Block>): (r: seq<string>)
    ensures |r| == |blocks|
    ensures forall i :: 0 <= i < |blocks| ==> r[i] == blocks[i].selected
  {
    MapAll(blocks, Selected, ())
  }

  /** Before any select has a value, every type is offered. */
  lemma NothingChosenAllAvailable(types: seq<string>, blocks: seq<Block>)
    requires forall i :: 0 <= i < |blocks| ==> blocks[i].selected == ""
    ensures UsedTypes(blocks) == []
    ensures Available(types, blocks) == types
  {
    NoneSelected(MapAll(blocks, Selected, ()));
    NothingUsed(types);
  }

  lemma {:induction false} NoneSelected(s: seq<string>)
    requires forall i :: 0 <= i < |s| ==> s[i] == ""
    ensures Select(s, NotEmpty, ()) == []
  {
    if s != [] {
      NoneSelected(s[1..]);
    }
  }

  lemma {:induction false} NothingUsed(s: seq<string>)
    ensures Select(s, Unused, []) == s
  {
    if s != [] {
      NothingUsed(s[1..]);
      assert s == [s[0]] + s[1..];
    }
  }

  lemma AppendKeepsRepeats(blocks: seq<Block>, b: Block)
    requires b.selected == ""
    ensures NoRepeats(blocks) ==> NoRepeats(blocks + [b])
  {
  }

  /** Ids below `counter` and ascending, and each select on one of its options or on none. */
  ghost predicate WellNumbered(blocks: seq<Block>, counter: nat)
  {
    && (forall i :: 0 <= i < |blocks| ==> blocks[i].id < counter)
    && (forall i, j :: 0 <= i < j < |blocks| ==> blocks[i].id < blocks[j].id)
    && (forall i :: 0 <= i < |blocks| ==> blocks[i].selected == "" || blocks[i].selected in blocks[i].options)
  }

  lemma AppendKeepsOrder(blocks: seq<Block>, counter: nat, b: Block)
    requires WellNumbered(blocks, counter) && b.id == counter && b.selected == ""
    ensures WellNumbered(blocks + [b], counter + 1)
  {
    var t := blocks + [b];
    assert forall i :: 0 <= i < |blocks| ==> t[i] == blocks[i];
  }

  /** The page's editor: `measurementCounter` and the blocks in page order. */
  class Editor {
    /** The table the selects are built from: `MEASUREMENT_TYPES` on the customer pages. */
    const types: seq<string>
    var counter: nat
    var blocks: seq<Block>

    /** Block ids are below the counter and ascend in page order, so no two are equal; each
        select holds one of its options or nothing. */
    ghost predicate Valid()
      reads this
    {
      WellNumbered(blocks, counter)
    }

    constructor (table: seq<string>)
      ensures Valid() && types == table && counter == 0 && blocks == []
    {
      types := table;
      counter, blocks := 0, [];
    }

    /** `addMeasurementType()`: nothing is added once every type is chosen; otherwise a new
        block with the next id, offering the types not chosen yet, and the counter moves on. */
    method Add() returns (added: bool)
      requires Valid()
      modifies this
      ensures Valid()
      ensures added <==> Available(types, old(blocks)) != []
      ensures added ==> blocks == old(blocks) + [Block(old(counter), Available(types, old(blocks)), "")] && counter == old(counter) + 1
      ensures !added ==> blocks == old(blocks) && counter == old(counter)
      ensures NoRepeats(old(blocks)) ==> NoRepeats(blocks)
    {
      var available := Available(types, blocks);
      if available == [] {
        return false;
      }
      var b := Block(counter, available, "");
      AppendKeepsRepeats(blocks, b);
      AppendKeepsOrder(blocks, counter, b);
      blocks := blocks + [b];
      counter := counter + 1;
      added := true;
    }

    /** The `onchange` of a select: the value picked among the block's options. */
    method Choose(i: nat, t: string)
      requires Valid() && i < |blocks| && (t == "" || t in blocks[i].options)
      modifies this`blocks
      ensures Valid()
      ensures blocks == old(blocks)[i := old(blocks)[i].(selected := t)]
    {
      blocks := blocks[i := blocks[i].(selected := t)];
    }

    /** The same pick, refused when another block has already chosen that type. */
    method ChooseUnused(i: nat, t: string) returns (ok: bool)
      requires Valid() && i < |blocks| && (t == "" || t in blocks[i].options)
      modifies this`blocks
      ensures Valid()
      ensures ok <==> t == "" || forall j :: 0 <= j < |old(blocks)| && j != i ==> old(blocks)[j].selected != t
      ensures ok ==> blocks == old(blocks)[i := old(blocks)[i].(selected := t)]
      ensures !ok ==> blocks == old(blocks)
      ensures NoRepeats(old(blocks)) ==> NoRepeats(blocks)
    {
      ok := t == "" || forall j :: 0 <= j < |blocks| && j != i ==> blocks[j].selected != t;
      if ok {
        blocks := blocks[i := blocks[i].(selected := t)];
      }
    }

    /** `removeMeasurementType(id)`: the block with that id leaves the page. */
    method Remove(id: nat)
      requires Valid()
      modifies this`blocks
      ensures Valid()
      ensures First(old(blocks), BlockIs, id).None? ==> blocks == old(blocks)
      ensures First(old(blocks), BlockIs, id).Some? ==> blocks == RemoveAt(old(blocks), First(old(blocks), BlockIs, id).value)
      ensures forall b :: b in blocks ==> b.id != id
      ensures NoRepeats(old(blocks)) ==> NoRepeats(blocks)
    {
      var k := First(blocks, BlockIs, id);
      if k.Some? {
        blocks := RemoveAt(blocks, k.value);
      }
    }

    /** `validateMeasurements()`: at least one block, and a type chosen in each. */
    method ValidateBlocks() returns (ok: bool)
      ensures ok <==> |blocks| > 0 && forall i :: 0 <= i < |blocks| ==> blocks[i].selected != ""
    {
      if |blocks| == 0 {
        return false;
      }
      var i := 0;
      while i < |blocks|
        invariant 0 <= i <= |blocks|
        invariant forall j :: 0 <= j < i ==> blocks[j].selected != ""
      {
        if blocks[i].selected == "" {
          return false;
        }
        i := i + 1;
      }
      return true;
    }
  }

  /** A fresh page on which "Add" was pressed twice: both blocks offer the whole table. */
  method TwoBlankBlocks(table: seq<string>) returns (e: Editor)
    requires table != []
    ensures fresh(e) && e.Valid() && e.types == table
    ensures e.blocks == [Block(0, table, ""), Block(1, table, "")]
  {
    e := new Editor(table);
    AddOnBlankPage(e);
    assert e.blocks == [Block(0, table, "")];
    AddOnBlankPage(e);
  }

  /** "Add" on a page where no block has a type yet: the new block offers the whole table. */
  method AddOnBlankPage(e: Editor)
    requires e.Valid() && e.types != []
    requires forall i :: 0 <= i < |e.blocks| ==> e.blocks[i].selected == ""
    modifies e
    ensures e.Valid() && e.counter == old(e.counter) + 1
    ensures e.blocks == old(e.blocks) + [Block(old(e.counter), e.types, "")]
  {
    NothingChosenAllAvailable(e.types, e.blocks);
    var added := e.Add();
  }

  /** Two blocks added before either has a type both offer every type of the table, and
      both can then pick the same one (`shirt` on the customer pages): the form posts that
      type twice. */
  method SameTypeTwice(table: seq<string>, t: string) returns (e: Editor, types: seq<string>)
    requires t in table
    ensures types == [t, t]
  {
    e := TwoBlankBlocks(table);
    e.Choose(0, t);
    e.Choose(1, t);
    types := Submitted(e.blocks);
  }

  /** A validated page whose picks went through `ChooseUnused` posts every type once. */
  lemma DistinctSubmission(blocks: seq<Block>)
    requires NoRepeats(blocks) && forall i :: 0 <= i < |blocks| ==> blocks[i].selected != ""
    ensures forall i, j :: 0 <= i < j < |blocks| ==> Submitted(blocks)[i] != Submitted(blocks)[j]
  {
  }
}
