/** Schemas and the objects they describe: which schemas kason_schema_init accepts,
    default values, and equality of objects. */
module Schemas {
  import opened Bytes
  import opened UnitText
  import W = Writer

  const MAX_FIELDS: nat := 64

  /** KaSON_SCHEMA_TYPE_*, without DOUBLE; the capacity counts units with the terminator. */
  datatype FieldType = BoolType | IntType | Int64Type | U32Type | U64Type | TextType(width: Width, capacity: nat) | StructType(schema: Schema)

  /** The default of an array is the empty array. */
  datatype Policy = Required | Default(item: Item) | DefaultEmpty

  datatype Field = Field(key: Text, fieldType: FieldType, isArray: bool, capacity: nat, policy: Policy)

  datatype Schema = Schema(fields: seq<Field>)

  /** A value in memory: an integer, a unit array with whatever lies behind its
      terminator, or a structure. */
  datatype Item = Int(value: int) | Chars(units: seq<int>) | Struct(members: seq<Cell>)

  /** A structure member: a value, or an array of fixed capacity with its count. */
  datatype Cell = One(item: Item) | Many(count: nat, items: seq<Item>)

  datatype Result<T> = Err(code: W.Status) | Ok(value: T)

  // ------------------------------------------------------------ memory layout

  function LowestOf(fieldType: FieldType): int {
    if fieldType.BoolType? || fieldType.IntType? then -0x8000_0000 else if fieldType.Int64Type? then -0x8000_0000_0000_0000 else 0
  }

  function HighestOf(fieldType: FieldType): int {
    if fieldType.BoolType? || fieldType.IntType? then 0x7FFF_FFFF
    else if fieldType.Int64Type? then 0x7FFF_FFFF_FFFF_FFFF
    else if fieldType.U32Type? then 0xFFFF_FFFF
    else 0xFFFF_FFFF_FFFF_FFFF
  }

  /** The memory of a field of this type can hold the item. */
  predicate ItemFits(fieldType: FieldType, item: Item)
    decreases fieldType, 0
  {
    match fieldType
    case TextType(width, capacity) => item.Chars? && |item.units| == capacity && UnitsOk(width, item.units)
    case StructType(schema) => item.Struct? && ObjectFits(schema, item.members)
    case _ => item.Int? && LowestOf(fieldType) <= item.value <= HighestOf(fieldType)
  }

  predicate CellFits(field: Field, cell: Cell)
    decreases field, 0
  {
    if field.isArray then
      cell.Many? && |cell.items| == field.capacity && forall k | 0 <= k < |cell.items| :: ItemFits(field.fieldType, cell.items[k])
    else cell.One? && ItemFits(field.fieldType, cell.item)
  }

  predicate ObjectFits(schema: Schema, cells: seq<Cell>)
    decreases schema, 0
  {
    |cells| == |schema.fields| && forall k | 0 <= k < |cells| :: CellFits(schema.fields[k], cells[k])
  }

  // ------------------------------------------------- kason_schema_object_valid

  predicate IsText(width: Width, units: seq<int>)
    requires UnitsOk(width, units)
  {
    ZeroAt(units) < |units| && UnitsValid(width, CString(units))
  }

  predicate ItemValid(fieldType: FieldType, item: Item, depth: nat)
    requires ItemFits(fieldType, item)
    decreases fieldType, 0
  {
    match fieldType
    case BoolType => item.value == 0 || item.value == 1
    case TextType(width, _) => IsText(width, item.units)
    case StructType(schema) => ObjectValid(schema, item.members, depth + 1)
    case _ => true
  }

  predicate CellValid(field: Field, cell: Cell, depth: nat)
    requires CellFits(field, cell)
    decreases field, 0
  {
    if field.isArray then
      cell.count <= field.capacity && forall k | 0 <= k < cell.count :: ItemValid(field.fieldType, cell.items[k], depth)
    else ItemValid(field.fieldType, cell.item, depth)
  }

  predicate ObjectValid(schema: Schema, cells: seq<Cell>, depth: nat)
    requires ObjectFits(schema, cells)
    decreases schema, 0
  {
    depth < MAX_NESTING && forall k | 0 <= k < |cells| :: CellValid(schema.fields[k], cells[k], depth)
  }

  // ------------------------------------------------------------ valid schemas

  /** kason_schema_validate_default for a field that is no array. A string default is
      given without its terminator. */
  predicate DefaultOk(fieldType: FieldType, item: Item)
  {
    match fieldType
    case BoolType => item.Int? && (item.value == 0 || item.value == 1)
    case TextType(width, capacity) =>
      item.Chars? && |item.units| < capacity && UnitsOk(width, item.units) && 0 !in item.units && UnitsValid(width, item.units)
    case StructType(schema) => ItemFits(fieldType, item) && ObjectValid(schema, item.members, 0)
    case _ => ItemFits(fieldType, item)
  }

  predicate PolicyOk(field: Field) {
    match field.policy
    case Required => true
    case Default(item) => !field.isArray && DefaultOk(field.fieldType, item)
    case DefaultEmpty => field.isArray
  }

  predicate TypeOk(fieldType: FieldType)
    decreases fieldType, 0
  {
    match fieldType
    case TextType(_, capacity) => capacity >= 1
    case StructType(schema) => SchemaOk(schema)
    case _ => true
  }

  /** kason_schema_validate_field. */
  predicate FieldOk(field: Field)
    decreases field, 0
  {
    UnitsValid(W8, field.key) && (if field.isArray then field.capacity >= 1 else field.capacity == 1) &&
    TypeOk(field.fieldType) && PolicyOk(field)
  }

  predicate DistinctKeys(fields: seq<Field>) {
    forall j, k | 0 <= j < |fields| && 0 <= k < |fields| && fields[j].key == fields[k].key :: j == k
  }

  /** What kason_schema_init accepts, child schemas first. */
  predicate SchemaOk(schema: Schema)
    decreases schema, 0
  {
    1 <= |schema.fields| <= MAX_FIELDS && DistinctKeys(schema.fields) && forall k | 0 <= k < |schema.fields| :: FieldOk(schema.fields[k])
  }

  function FieldKeys(fields: seq<Field>): set<Text> {
    set k | 0 <= k < |fields| :: fields[k].key
  }

  /** The field with this key, or the number of fields. */
  function FieldIndex(fields: seq<Field>, key: Text): (k: nat)
    ensures k <= |fields| && (k < |fields| ==> fields[k].key == key)
    ensures k < |fields| <==> key in FieldKeys(fields)
  {
    if fields == [] then 0
    else if fields[0].key == key then 0
    else
      var k := FieldIndex(fields[1..], key);
      assert FieldKeys(fields) == {fields[0].key} + FieldKeys(fields[1..]) by {
        assert fields == [fields[0]] + fields[1..];
      }
      1 + k
  }

  lemma IndexOfField(fields: seq<Field>, k: nat)
    requires DistinctKeys(fields) && k < |fields|
    ensures FieldIndex(fields, fields[k].key) == k
  {
    assert fields[k].key in FieldKeys(fields);
  }

  // ------------------------------------------------------------------ defaults

  /** A string is stored with its terminator; what lies behind stays. */
  function StoredUnits(units: seq<int>, before: seq<int>): seq<int>
    requires |units| < |before|
  {
    units + [0] + before[|units| + 1..]
  }

  function DefaultItem(fieldType: FieldType, item: Item, before: Item): (r: Item)
    requires DefaultOk(fieldType, item) && ItemFits(fieldType, before)
    ensures ItemFits(fieldType, r)
  {
    if fieldType.TextType? then Chars(StoredUnits(item.units, before.units)) else item
  }

  /** kason_schema_store_default. */
  function DefaultCell(field: Field, before: Cell): (cell: Cell)
    requires FieldOk(field) && CellFits(field, before)
    ensures CellFits(field, cell)
  {
    match field.policy
    case Required => before
    case DefaultEmpty => Many(0, before.items)
    case Default(item) => One(DefaultItem(field.fieldType, item, before.item))
  }

  /** kason_schema_apply_defaults. */
  function Defaults(schema: Schema, before: seq<Cell>): (cells: seq<Cell>)
    requires SchemaOk(schema) && ObjectFits(schema, before)
    ensures ObjectFits(schema, cells)
  {
    seq(|before|, k requires 0 <= k < |before| => DefaultCell(schema.fields[k], before[k]))
  }

  // ------------------------------------------------------------------ equality

  predicate TextsEqual(left: seq<int>, right: seq<int>) {
    ZeroAt(left) < |left| && ZeroAt(right) < |right| && CString(left) == CString(right)
  }

  predicate ItemsEqual(fieldType: FieldType, left: Item, right: Item, depth: nat)
    requires ItemFits(fieldType, left) && ItemFits(fieldType, right)
    decreases fieldType, 0
  {
    match fieldType
    case TextType(_, _) => TextsEqual(left.units, right.units)
    case StructType(schema) => ObjectsEqual(schema, left.members, right.members, depth + 1)
    case _ => left == right
  }

  predicate CellsEqual(field: Field, left: Cell, right: Cell, depth: nat)
    requires CellFits(field, left) && CellFits(field, right)
    decreases field, 0
  {
    if field.isArray then
      left.count == right.count <= field.capacity &&
      forall k | 0 <= k < left.count :: ItemsEqual(field.fieldType, left.items[k], right.items[k], depth)
    else ItemsEqual(field.fieldType, left.item, right.item, depth)
  }

  /** kason_schema_objects_equal. */
  predicate ObjectsEqual(schema: Schema, left: seq<Cell>, right: seq<Cell>, depth: nat)
    requires ObjectFits(schema, left) && ObjectFits(schema, right)
    decreases schema, 0
  {
    depth < MAX_NESTING && forall k | 0 <= k < |left| :: CellsEqual(schema.fields[k], left[k], right[k], depth)
  }

  predicate EqualsDefault(fieldType: FieldType, item: Item, default: Item, depth: nat)
    requires ItemFits(fieldType, item) && DefaultOk(fieldType, default)
  {
    if fieldType.TextType? then ZeroAt(item.units) < |item.units| && CString(item.units) == default.units
    else ItemsEqual(fieldType, item, default, depth)
  }

  /** kason_schema_field_is_default. */
  predicate IsDefault(field: Field, cell: Cell, depth: nat)
    requires FieldOk(field) && CellFits(field, cell)
  {
    match field.policy
    case Required => false
    case DefaultEmpty => cell.count == 0
    case Default(item) => EqualsDefault(field.fieldType, cell.item, item, depth)
  }
}
