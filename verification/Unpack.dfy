/** kason_unpack: what the callbacks store while an object is parsed with the keys of
    its schema, and when that succeeds. */
module Unpack {
  import opened Bytes
  import opened JsonString
  import opened Number
  import opened Events
  import opened Modes
  import opened Lookup
  import opened LegacySpec
  import opened Legacy
  import opened Convert
  import opened UnitText
  import opened Schemas
  import W = Writer

  // ------------------------------------------------------------------ scalars

  /** The outcome of a conversion, within the range of the field. */
  function InRange(fieldType: FieldType, c: Converted): (r: Result<Item>)
    requires !fieldType.TextType? && !fieldType.StructType?
    ensures r.Err? ==> r.code != W.Success
    ensures r.Ok? ==> ItemFits(fieldType, r.value)
  {
    if c.Value? then
      if LowestOf(fieldType) <= c.value <= HighestOf(fieldType) then Ok(Int(c.value)) else Err(W.RangeError)
    else Err(if c == Converted.RangeError then W.RangeError else W.TypeError)
  }

  function StoreInteger(fieldType: FieldType, child: Child, text: Text): (r: Result<Item>)
    requires fieldType.IntType? || fieldType.Int64Type? || fieldType.U32Type? || fieldType.U64Type?
    ensures r.Err? ==> r.code != W.Success
    ensures r.Ok? ==> ItemFits(fieldType, r.value)
  {
    if child.valueType != NumberType then Err(W.TypeError)
    else
      var number := ReadNumber(text, 0);
      if number.NoRead? then Err(W.TypeError)
      else
        ReadNumberSound(text, 0);
        InRange(fieldType, if fieldType.IntType? || fieldType.Int64Type? then SignedValue(number.value) else UnsignedValue(number.value))
  }

  function StoreBool(child: Child): (r: Result<Item>)
    ensures r.Err? ==> r.code != W.Success
    ensures r.Ok? ==> ItemFits(BoolType, r.value)
  {
    if child.valueType == TrueType then Ok(Int(1))
    else if child.valueType == FalseType then Ok(Int(0))
    else Err(W.TypeError)
  }

  /** A decoded string must leave room for its terminator and contain none. */
  function StoreText(fieldType: FieldType, before: Item, child: Child, body: Text): (r: Result<Item>)
    requires fieldType.TextType? && ItemFits(fieldType, before)
    ensures r.Err? ==> r.code != W.Success
    ensures r.Ok? ==> ItemFits(fieldType, r.value)
  {
    if child.valueType != StringType || !ValidBody(body) then Err(W.TypeError)
    else
      var u := Units(fieldType.width, Scalars(body));
      if |u| >= fieldType.capacity then Err(W.StringCapacity)
      else if 0 in u then Err(W.TypeError)
      else Ok(Chars(StoredUnits(u, before.units)))
  }

  /** kason_schema_store_scalar. */
  function StoreScalar(fieldType: FieldType, before: Item, child: Child, text: Text): (r: Result<Item>)
    requires ItemFits(fieldType, before) && !fieldType.StructType?
    ensures r.Err? ==> r.code != W.Success
    ensures r.Ok? ==> ItemFits(fieldType, r.value)
  {
    if fieldType.BoolType? then StoreBool(child)
    else if fieldType.TextType? then StoreText(fieldType, before, child, text)
    else StoreInteger(fieldType, child, text)
  }

  // ------------------------------------------------------- arrays and objects

  /** What kason_parse_container parses of an array it is shown: brackets at both ends
      are taken for the array's own. Empty when there is nothing to parse. */
  function Elements(text: Text): Text {
    if |text| >= 2 && text[0] == LBRACKET && text[|text| - 1] == RBRACKET then text[1..|text| - 1] else text
  }

  /** The fields an object has had, and what became of it. */
  datatype Stored = Stored(cells: seq<Cell>, found: set<nat>, status: W.Status)

  function ChildKey(t: Text, child: Child): Text {
    if child.key.KeyOwner? then Decoded(Slice(t, child.key.span.lo, child.key.span.hi)) else []
  }

  function ChildField(schema: Schema, t: Text, child: Child): nat {
    FieldIndex(schema.fields, ChildKey(t, child))
  }

  function StoreItem(fieldType: FieldType, before: Item, child: Child, t: Text, relaxed: bool, depth: nat): (r: Result<Item>)
    requires TypeOk(fieldType) && ItemFits(fieldType, before)
    ensures r.Err? ==> r.code != W.Success
    ensures r.Ok? ==> ItemFits(fieldType, r.value)
    decreases fieldType, 1
  {
    var text := Slice(t, child.lo, child.hi);
    if !fieldType.StructType? then StoreScalar(fieldType, before, child, text)
    else if child.valueType != ObjectType then Err(W.TypeError)
    else
      var r := Unpacked(fieldType.schema, text, before.members, relaxed, depth + 1);
      if r.Err? then Err(r.code) else Ok(Struct(r.value))
  }

  /** kason_unpack_array_callback, from element `n` on. */
  function StoreElements(fieldType: FieldType, items: seq<Item>, children: seq<Child>, t: Text, relaxed: bool, depth: nat, n: nat)
    : (r: Result<seq<Item>>)
    requires TypeOk(fieldType) && n <= |children| && forall k | 0 <= k < |items| :: ItemFits(fieldType, items[k])
    ensures r.Err? ==> r.code != W.Success
    ensures r.Ok? ==> |r.value| == |items| && (n < |children| ==> |items| >= |children|) && forall k | 0 <= k < |items| :: ItemFits(fieldType, r.value[k])
    decreases fieldType, 2, |children| - n
  {
    if n == |children| then Ok(items)
    else if n >= |items| then Err(W.ArrayCapacity)
    else
      var r := StoreItem(fieldType, items[n], children[n], t, relaxed, depth);
      if r.Err? then Err(r.code) else StoreElements(fieldType, items[n := r.value], children, t, relaxed, depth, n + 1)
  }

  /** kason_unpack_array. */
  function StoreArray(field: Field, before: Cell, child: Child, t: Text, relaxed: bool, depth: nat): (r: Result<Cell>)
    requires FieldOk(field) && CellFits(field, before) && field.isArray
    ensures r.Err? ==> r.code != W.Success
    ensures r.Ok? ==> CellFits(field, r.value)
    decreases field, 0
  {
    var text := Elements(Slice(t, child.lo, child.hi));
    if child.valueType != ArrayType then Err(W.TypeError)
    else if text == [] then Ok(Many(0, before.items))
    else
      var parsed := ParseText(text, ArrayMode, 0);
      if parsed.Rejected? then Err(W.Error)
      else
        var r := StoreElements(field.fieldType, before.items, parsed.children, text, relaxed, depth, 0);
        if r.Err? then Err(r.code) else Ok(Many(|parsed.children|, r.value))
  }

  function StoreCell(field: Field, before: Cell, child: Child, t: Text, relaxed: bool, depth: nat): (r: Result<Cell>)
    requires FieldOk(field) && CellFits(field, before)
    ensures r.Err? ==> r.code != W.Success
    ensures r.Ok? ==> CellFits(field, r.value)
    decreases field, 1
  {
    if field.isArray then StoreArray(field, before, child, t, relaxed, depth)
    else
      var r := StoreItem(field.fieldType, before.item, child, t, relaxed, depth);
      if r.Err? then Err(r.code) else Ok(One(r.value))
  }

  predicate StateFits(schema: Schema, s: Stored) {
    SchemaOk(schema) && ObjectFits(schema, s.cells)
  }

  /** kason_unpack_callback. */
  function Callback(schema: Schema, t: Text, relaxed: bool, depth: nat, s: Stored, child: Child): (r: Stored)
    requires StateFits(schema, s)
    ensures StateFits(schema, r)
    decreases schema, 1
  {
    var k := ChildField(schema, t, child);
    if k == |schema.fields| then s.(status := W.InvalidSchema)
    else if k in s.found then s.(status := W.DuplicateField)
    else
      var r := StoreCell(schema.fields[k], s.cells[k], child, t, relaxed, depth);
      if r.Err? then s.(status := r.code) else Stored(s.cells[k := r.value], s.found + {k}, W.Success)
  }

  /** The found mask has every bit of the complete mask. */
  predicate AllFound(schema: Schema, found: set<nat>) {
    forall k | 0 <= k < |schema.fields| :: k in found
  }

  /** Whether the callback breaks: on an error, or when nothing more is wanted. */
  predicate Breaks(schema: Schema, relaxed: bool, s: Stored) {
    s.status != W.Success || (relaxed && AllFound(schema, s.found))
  }

  /** The calls until one breaks. */
  function Until(schema: Schema, t: Text, relaxed: bool, depth: nat, s: Stored, log: seq<Child>): (r: Stored)
    requires StateFits(schema, s)
    ensures StateFits(schema, r)
    decreases schema, 2, |log|
  {
    if log == [] || Breaks(schema, relaxed, s) then s
    else Until(schema, t, relaxed, depth, Callback(schema, t, relaxed, depth, s, log[0]), log[1..])
  }

  function Begun(schema: Schema, before: seq<Cell>): (s: Stored)
    requires SchemaOk(schema) && ObjectFits(schema, before)
    ensures StateFits(schema, s)
  {
    Stored(Defaults(schema, before), {}, W.Success)
  }

  predicate Missing(schema: Schema, found: set<nat>) {
    exists k | 0 <= k < |schema.fields| :: schema.fields[k].policy.Required? && k !in found
  }

  /** What is returned when parsing has ended well. */
  function Finished(schema: Schema, s: Stored): (r: Result<seq<Cell>>)
    ensures r.Err? ==> r.code != W.Success
  {
    if s.status != W.Success then Err(s.status) else if Missing(schema, s.found) then Err(W.MissingField) else Ok(s.cells)
  }

  /** The members of an accepted object that the schema has fields for. */
  function Wishes(schema: Schema, t: Text, children: seq<Child>): seq<Child> {
    Selection(t, Only(FieldKeys(schema.fields)), children)
  }

  /** kason_unpack_range_internal on a text that is checked as a whole. */
  function Unpacked(schema: Schema, t: Text, before: seq<Cell>, relaxed: bool, depth: nat): (r: Result<seq<Cell>>)
    requires SchemaOk(schema) && ObjectFits(schema, before)
    ensures r.Err? ==> r.code != W.Success
    ensures r.Ok? ==> ObjectFits(schema, r.value)
    decreases schema, 3
  {
    if depth >= MAX_NESTING then Err(W.NestingError)
    else if At(t, SkipWs(t, 0)) != LBRACE then Err(W.TypeError)
    else
      var parsed := ParseText(t, AutoMode, 0);
      if parsed.Rejected? then Err(W.Error)
      else Finished(schema, Until(schema, t, relaxed, depth, Begun(schema, before), Wishes(schema, t, parsed.children)))
  }
}
