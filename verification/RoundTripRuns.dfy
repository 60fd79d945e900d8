/** Packing and unpacking as runs of the two methods, and an object that can be
    packed but not unpacked. */
module RoundTripRuns {
  import opened Bytes
  import opened Grammar
  import opened UnitText
  import opened LegacySpec
  import opened LegacyTrees
  import opened LegacyAgreement
  import opened Schemas
  import opened SchemaIndex
  import opened Pack
  import opened Packer
  import opened Unpack
  import opened Unpacker
  import opened RoundTrip
  import Modes
  import W = Writer

  /** Packs into a buffer and unpacks what is in it. */
  method PackAndUnpack(index: Index, cells: seq<Cell>, omit: bool, capacity: nat, before: seq<Cell>, relaxed: bool)
    returns (packed: W.Status, r: Result<seq<Cell>>)
    requires index.Valid() && SchemaOk(index.schema) && ObjectFits(index.schema, cells) && ObjectFits(index.schema, before)
    requires 0 < capacity <= W.SIZE_MAX
    ensures var v := PackObject(index.schema, cells, omit, 0);
      (v.Ok? ==> (packed == W.Success <==> |PrintValue(v.value)| < capacity)) &&
      (packed == W.Success ==>
        v.Ok? && (WithinLimit(0, Enters(v.value)) ==>
          r.Ok? && ObjectFits(index.schema, r.value) && ObjectsEqual(index.schema, cells, r.value, 0)) &&
        (!WithinLimit(0, Enters(v.value)) && !relaxed ==> r.Err?))
  {
    hide PackObject, ObjectFits, SchemaOk, Index.Valid, PrintValue, ValueOk, Enters, Unpacked, ObjectsEqual, ParseText;
    var w := new W.Writer(W.BufferMode, capacity, 0, (chunks, chunk) => true);
    packed := PackInto(w, index, cells, omit);
    if packed != W.Success {
      return packed, Err(packed);
    }
    r := UnpackRange(index, w.buffer[..w.length], before, relaxed);
    PackUnpack(index.schema, cells, omit, before);
    PackedAccepted(index.schema, cells, omit);
  }

  /** Within the limit, the text of a packed object is accepted. */
  lemma PackedAccepted(schema: Schema, cells: seq<Cell>, omit: bool)
    requires SchemaOk(schema) && ObjectFits(schema, cells) && PackObject(schema, cells, omit, 0).Ok?
    ensures var v := PackObject(schema, cells, omit, 0).value;
      WithinLimit(0, Enters(v)) ==> ParseText(PrintValue(v), Modes.AutoMode, 0).Accepted?
  {
    hide PackFields, SchemaOk, ObjectFits, PrintValue, ValueOk, Enters, ParseText, PrintDocument, DocumentOk, ListOk;
    FieldsListOk(schema, cells, omit, 0);
    PackedDocument(PackFields(schema, cells, omit, 0, 0).value, {});
    var v := PackObject(schema, cells, omit, 0).value;
    DocumentParsed(Document([], v, []));
  }

  // --------------------------------------- what is packed but not unpacked

  const NAME: Text := [0x61]

  /** A structure that holds an array of structures, `n` times. */
  function Chain(n: nat): Schema {
    Schema([if n == 0 then Field(NAME, IntType, false, 1, Required) else Field(NAME, StructType(Chain(n - 1)), true, 1, Required)])
  }

  function Links(n: nat): seq<Cell> {
    [if n == 0 then One(Int(0)) else Many(1, [Struct(Links(n - 1))])]
  }

  lemma NameIsValid()
    ensures UnitsValid(W8, NAME)
  {
  }

  lemma {:induction false} ChainFits(n: nat)
    ensures SchemaOk(Chain(n)) && ObjectFits(Chain(n), Links(n))
    decreases n
  {
    NameIsValid();
    if n > 0 {
      ChainFits(n - 1);
    }
  }

  lemma OneField(schema: Schema, cells: seq<Cell>, omit: bool, depth: nat)
    requires SchemaOk(schema) && ObjectFits(schema, cells) && |schema.fields| == 1 && schema.fields[0].policy.Required? && depth < MAX_NESTING
    ensures FieldOk(schema.fields[0]) && CellFits(schema.fields[0], cells[0])
    ensures var v, r := PackCell(schema.fields[0], cells[0], omit, depth), PackObject(schema, cells, omit, depth);
      v.Ok? ==> r.Ok? && Enters(r.value) == 1 + Enters(v.value)
  {
    hide PackCell, FieldOk, CellFits, FieldKey, KeyOk;
    assert PackFields(schema, cells, omit, depth, 1) == Ok([]);
    var v := PackCell(schema.fields[0], cells[0], omit, depth);
    if v.Ok? {
      var m := Member(FieldKey(schema.fields[0]), v.value, []);
      assert [m] + [] == [m];
      assert PackFields(schema, cells, omit, depth, 0) == Ok([m]);
    }
  }

  lemma OneElement(field: Field, cell: Cell, omit: bool, depth: nat)
    requires FieldOk(field) && CellFits(field, cell) && field.isArray && cell.count == 1 == field.capacity
    ensures var v, r := PackItem(field.fieldType, cell.items[0], omit, depth), PackCell(field, cell, omit, depth);
      v.Ok? ==> r.Ok? && Enters(r.value) == 1 + Enters(v.value)
  {
    hide PackItem, TypeOk, ItemFits, UnitsValid;
    var items := cell.items[..1];
    assert PackItems(field.fieldType, items, omit, depth, 1) == Ok([]);
    var v := PackItem(field.fieldType, items[0], omit, depth);
    if v.Ok? {
      var m := Member(NoKey, v.value, []);
      assert [m] + [] == [m];
      assert PackItems(field.fieldType, items, omit, depth, 0) == Ok([m]);
    }
  }

  /** Every link takes one structure and two containers. */
  lemma {:induction false} ChainPacked(n: nat, omit: bool, depth: nat)
    requires depth + n < MAX_NESTING
    ensures SchemaOk(Chain(n)) && ObjectFits(Chain(n), Links(n))
    ensures var v := PackObject(Chain(n), Links(n), omit, depth); v.Ok? && Enters(v.value) == 2 * n + 1
    decreases n
  {
    hide PackObject, UnitsValid, UnitScalars, KeyOk, FieldKey, SchemaOk, ObjectFits;
    ChainFits(n);
    OneField(Chain(n), Links(n), omit, depth);
    if n > 0 {
      ChainPacked(n - 1, omit, depth + 1);
      OneElement(Chain(n).fields[0], Links(n)[0], omit, depth);
    }
  }

  /** Sixty-five arrays of structures inside each other are packed and refused. */
  lemma TooDeep(omit: bool, before: seq<Cell>)
    requires ObjectFits(Chain(65), before)
    ensures SchemaOk(Chain(65)) && ObjectFits(Chain(65), Links(65))
    ensures var v := PackObject(Chain(65), Links(65), omit, 0);
      v.Ok? && !WithinLimit(0, Enters(v.value)) && Unpacked(Chain(65), PrintValue(v.value), before, false, 0).Err?
  {
    hide Chain, Links, SchemaOk, ObjectFits, PackObject, Unpacked, Enters, PrintValue;
    ChainPacked(65, omit, 0);
    PackUnpack(Chain(65), Links(65), omit, before);
  }
}
