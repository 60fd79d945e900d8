/** Packing and unpacking again gives an equal object. */
module RoundTrip {
  import opened Bytes
  import opened JsonString
  import opened Number
  import opened Grammar
  import opened Events
  import opened Convert
  import opened UnitText
  import opened JsonWriter
  import opened Lookup
  import opened LegacySpec
  import opened LegacyTrees
  import opened LegacyComplete
  import opened LegacyAgreement
  import opened Selected
  import opened Schemas
  import opened Pack
  import opened Unpack
  import opened Legacy
  import opened NestedArrays
  import opened UnpackSpec
  import opened UnpackTrees

  // ------------------------------------------------------------------- strings

  /** A stored string ends at its terminator. */
  lemma {:induction false} StoredText(u: seq<int>, before: seq<int>)
    requires |u| < |before| && 0 !in u
    ensures ZeroAt(StoredUnits(u, before)) == |u| && CString(StoredUnits(u, before)) == u
    decreases |u|
  {
    var x := StoredUnits(u, before);
    if u == [] {
      assert x[0] == 0;
    } else {
      assert x[0] == u[0] && u[0] in u;
      StoredText(u[1..], before[1..]);
      assert x[1..] == StoredUnits(u[1..], before[1..]);
    }
    assert x[..|u|] == u;
  }

  /** The name of a field is read back as its key. */
  lemma FieldKeyBytes(field: Field)
    requires FieldOk(field)
    ensures KeyBytes(FieldKey(field)) == field.key
  {
    hide UnitScalarsFrom, UnitsValidFrom, Utf8All, TypeOk;
    var ss := UnitScalars(W8, field.key);
    Utf8Units(ss);
    ValidUnits(W8, field.key, 0);
    assert field.key[0..] == field.key;
  }

  /** The units of a text are those of its scalar values. */
  lemma TextUnits(width: Width, units: seq<int>)
    requires UnitsOk(width, units) && IsText(width, units)
    ensures var u := CString(units);
      UnitsOk(width, u) && UnitsValid(width, u) && Units(width, UnitScalars(width, u)) == u &&
      0 !in u && 0 !in UnitScalars(width, u) && |u| < |units|
  {
    hide UnitScalarsFrom, UnitsValidFrom, Units, UnitLimit;
    var u := CString(units);
    ValidUnits(width, u, 0);
    assert u[0..] == u;
    UnitsWithoutZero(width, UnitScalars(width, u));
  }

  lemma TextRound(fieldType: FieldType, item: Item, before: Item)
    requires fieldType.TextType? && ItemFits(fieldType, item) && ItemFits(fieldType, before) && IsText(fieldType.width, item.units)
    ensures var r := TextOf(fieldType, before, Str(WrittenChars(UnitScalars(fieldType.width, CString(item.units)))));
      r.Ok? && TextsEqual(item.units, r.value.units)
  {
    hide UnitScalars, UnitsValid, Units, ScalarsOf, UnitsOk, CharsOk, ZeroAt;
    TextUnits(fieldType.width, item.units);
    StoredText(CString(item.units), before.units);
  }

  // ------------------------------------------------------------------- scalars

  lemma IntegerRound(fieldType: FieldType, item: Item)
    requires fieldType.IntType? || fieldType.Int64Type? || fieldType.U32Type? || fieldType.U64Type?
    requires ItemFits(fieldType, item)
    ensures ValueOk(Num(IntegerNumber(item.value))) && IntegerOf(fieldType, Num(IntegerNumber(item.value))) == Ok(item)
  {
    hide NumberOk, SignedValue, UnsignedValue;
    IntegerRoundTrip(item.value);
  }

  lemma ScalarRound(fieldType: FieldType, item: Item, before: Item)
    requires TypeOk(fieldType) && ItemFits(fieldType, item) && ItemFits(fieldType, before) && !fieldType.StructType?
    requires PackScalar(fieldType, item).Ok?
    ensures var r := ItemOf(fieldType, before, PackScalar(fieldType, item).value, false, 0);
      r.Ok? && ItemsEqual(fieldType, item, r.value, 0)
  {
    hide TextOf, IntegerOf, UnitScalars, UnitsValid, NumberOk, CharsOk;
    if fieldType.TextType? {
      TextRound(fieldType, item, before);
    } else if !fieldType.BoolType? {
      IntegerRound(fieldType, item);
    }
  }

  /** A field left out because it has its default gets that default. */
  lemma DefaultRound(field: Field, cell: Cell, before: Cell, depth: nat)
    requires FieldOk(field) && CellFits(field, cell) && CellFits(field, before) && IsDefault(field, cell, depth)
    ensures CellsEqual(field, cell, DefaultCell(field, before), depth) && !field.policy.Required?
  {
    hide TypeOk, UnitsValidFrom, ObjectFits, ObjectsEqual, ObjectValid;
    if field.policy.Default? && field.fieldType.TextType? {
      StoredText(field.policy.item.units, before.item.units);
    }
  }

  // -------------------------------------------------------------------- arrays

  /** What is packed for an element or a single field is no array. */
  lemma NoArrayPacked(fieldType: FieldType, item: Item, omit: bool, depth: nat)
    requires TypeOk(fieldType) && ItemFits(fieldType, item) && PackItem(fieldType, item, omit, depth).Ok?
    ensures !IsArray(PackItem(fieldType, item, omit, depth).value)
    ensures fieldType.StructType? ==> IsObject(PackItem(fieldType, item, omit, depth).value)
  {
    hide PackFields, SchemaOk, ObjectFits, UnitsOk, UnitsValid;
  }

  /** The elements of a packed array. */
  lemma ItemsPacked(fieldType: FieldType, items: seq<Item>, omit: bool, depth: nat, k: nat)
    requires TypeOk(fieldType) && k < |items| && forall j | 0 <= j < |items| :: ItemFits(fieldType, items[j])
    requires PackItems(fieldType, items, omit, depth, k).Ok?
    ensures var ms, v := PackItems(fieldType, items, omit, depth, k).value, PackItem(fieldType, items[k], omit, depth);
      v.Ok? && ms != [] && ms[0] == Member(NoKey, v.value, []) && PackItems(fieldType, items, omit, depth, k + 1) == Ok(ms[1..])
  {
    hide PackItem, TypeOk, ItemFits;
  }

  lemma {:induction false} ItemsCounted(fieldType: FieldType, items: seq<Item>, omit: bool, depth: nat, k: nat)
    requires TypeOk(fieldType) && k <= |items| && forall j | 0 <= j < |items| :: ItemFits(fieldType, items[j])
    requires PackItems(fieldType, items, omit, depth, k).Ok?
    ensures var ms := PackItems(fieldType, items, omit, depth, k).value;
      |ms| == |items| - k
    decreases |items| - k
  {
    hide PackItem, TypeOk, ItemFits;
    if k < |items| {
      ItemsCounted(fieldType, items, omit, depth, k + 1);
      ItemsPacked(fieldType, items, omit, depth, k);
    }
  }

  lemma {:induction false} CountOfList(ms: seq<Member>)
    requires ms != []
    ensures Count(MembersOf(ms)) == |ms|
    decreases |ms|
  {
    if |ms| > 1 {
      CountOfList(ms[1..]);
    }
  }

  /** The first member of a list, and where the others lie. */
  lemma FirstOfList(kind: Kind, ms: seq<Member>, t: Text, p: nat)
    requires ms != [] && ListOk(kind, ms) && MembersOk(MembersOf(ms), kind) && Occurs(t, p, PrintMembers(MembersOf(ms), kind))
    ensures MemberOk(ms[0], kind) && Occurs(t, p, PrintMember(ms[0], kind)) && ListOk(kind, ms[1..])
    ensures Enters(ms[0].value) <= MembersEnter(MembersOf(ms))
    ensures var n := p + |PrintMember(ms[0], kind)| + 1;
      if |ms| == 1 then ChildrenAt(MembersOf(ms), kind, p) == [MemberChild(ms[0], kind, p)]
      else
        MembersOk(MembersOf(ms[1..]), kind) && Occurs(t, n, PrintMembers(MembersOf(ms[1..]), kind)) &&
        MembersEnter(MembersOf(ms[1..])) <= MembersEnter(MembersOf(ms)) &&
        ChildrenAt(MembersOf(ms), kind, p) == [MemberChild(ms[0], kind, p)] + ChildrenAt(MembersOf(ms[1..]), kind, n)
  {
    hide MemberOk, MemberChild, PrintMember, Occurs, Enters;
    if |ms| > 1 {
      MembersOfOk(kind, ms[1..]);
      MoreOccurs(t, p, PrintMember(ms[0], kind), [], PrintMembers(MembersOf(ms[1..]), kind));
    }
  }

  // ------------------------------------------------------- items, cells, objects

  lemma {:induction false} ItemRound(fieldType: FieldType, item: Item, omit: bool, before: Item, depth: nat)
    requires TypeOk(fieldType) && ItemFits(fieldType, item) && ItemFits(fieldType, before)
    requires var v := PackItem(fieldType, item, omit, depth); v.Ok? && WithinLimit(0, Enters(v.value))
    ensures var r := ItemOf(fieldType, before, PackItem(fieldType, item, omit, depth).value, false, depth);
      r.Ok? && ItemsEqual(fieldType, item, r.value, depth)
    decreases fieldType, 1
  {
    hide PackObject, PackScalar, Unpacked, SchemaOk, ObjectFits, ObjectsEqual, PrintValue, ValueOk, Enters, UnitsOk, TextOf, IntegerOf;
    if fieldType.StructType? {
      NoArrayPacked(fieldType, item, omit, depth);
      ObjectRound(fieldType.schema, item.members, omit, before.members, depth + 1);
    } else {
      ScalarRound(fieldType, item, before);
    }
  }

  /** The elements from number `n` on. */
  lemma {:induction false} ElementsRound(fieldType: FieldType, source: seq<Item>, omit: bool, depth: nat, items: seq<Item>, ms: seq<Member>, n: nat)
    requires TypeOk(fieldType) && n < |source| <= |items|
    requires forall j | 0 <= j < |source| :: ItemFits(fieldType, source[j])
    requires forall j | 0 <= j < |items| :: ItemFits(fieldType, items[j])
    requires PackItems(fieldType, source, omit, depth, n) == Ok(ms) && ms != [] && MembersOk(MembersOf(ms), Array)
    requires WithinLimit(0, MembersEnter(MembersOf(ms)))
    ensures var r := ElementsOf(fieldType, items, MembersOf(ms), false, depth, n);
      r.Ok? && (forall j | 0 <= j < n :: r.value[j] == items[j]) &&
      forall j | n <= j < |source| :: ItemsEqual(fieldType, source[j], r.value[j], depth)
    decreases fieldType, 2, |source| - n
  {
    hide PackItem, ItemOf, ItemsEqual, ItemFits, TypeOk, MembersOk, Enters, PackItems, ListOk;
    ItemsPacked(fieldType, source, omit, depth, n);
    ItemsRest(fieldType, source, omit, depth, n, ms);
    ElementOk(MembersOf(ms));
    assert MembersOf(ms).member == ms[0] && Enters(ms[0].value) <= MembersEnter(MembersOf(ms));
    ItemRound(fieldType, source[n], omit, items[n], depth);
    if |ms| > 1 {
      var r := ItemOf(fieldType, items[n], ms[0].value, false, depth).value;
      ElementsRound(fieldType, source, omit, depth, items[n := r], ms[1..], n + 1);
    }
  }

  lemma ItemsRest(fieldType: FieldType, source: seq<Item>, omit: bool, depth: nat, n: nat, ms: seq<Member>)
    requires TypeOk(fieldType) && n < |source| && forall j | 0 <= j < |source| :: ItemFits(fieldType, source[j])
    requires PackItems(fieldType, source, omit, depth, n) == Ok(ms)
    ensures |ms| == |source| - n && ListOk(Array, ms)
  {
    ItemsCounted(fieldType, source, omit, depth, n);
  }

  lemma ArrayRound(field: Field, cell: Cell, omit: bool, before: Cell, depth: nat)
    requires FieldOk(field) && CellFits(field, cell) && CellFits(field, before) && field.isArray
    requires var v := PackCell(field, cell, omit, depth); v.Ok? && WithinLimit(0, Enters(v.value))
    ensures var r := ArrayCell(field, before, PackCell(field, cell, omit, depth).value, false, depth);
      r.Ok? && CellsEqual(field, cell, r.value, depth)
    decreases field, 0
  {
    hide PackItem, PackItems, ElementsOf, ItemsEqual, ItemFits, TypeOk, PolicyOk, UnitsValid, MembersOk, ListOk, MembersEnter, MembersOf;
    var source := cell.items[..cell.count];
    var ms := PackItems(field.fieldType, source, omit, depth, 0).value;
    ItemsCounted(field.fieldType, source, omit, depth, 0);
    ItemsPackedOk(field.fieldType, source, omit, depth);
    if ms != [] {
      ItemsPacked(field.fieldType, source, omit, depth, 0);
      NoArrayPacked(field.fieldType, source[0], omit, depth);
      FirstIs(ms);
      ArrayOk(ListOf(Array, ms));
      CountOfList(ms);
      ElementsRound(field.fieldType, source, omit, depth, before.items, ms, 0);
    }
  }

  lemma FirstIs(ms: seq<Member>)
    requires ms != []
    ensures MembersOf(ms).member == ms[0]
  {
  }

  lemma ItemsPackedOk(fieldType: FieldType, items: seq<Item>, omit: bool, depth: nat)
    requires TypeOk(fieldType) && forall j | 0 <= j < |items| :: ItemFits(fieldType, items[j])
    requires PackItems(fieldType, items, omit, depth, 0).Ok?
    ensures ListOk(Array, PackItems(fieldType, items, omit, depth, 0).value)
    ensures ValueOk(ListOf(Array, PackItems(fieldType, items, omit, depth, 0).value))
  {
    ListOfOk(Array, PackItems(fieldType, items, omit, depth, 0).value);
  }

  lemma {:induction false} CellRound(field: Field, cell: Cell, omit: bool, before: Cell, depth: nat)
    requires FieldOk(field) && CellFits(field, cell) && CellFits(field, before)
    requires var v := PackCell(field, cell, omit, depth); v.Ok? && WithinLimit(0, Enters(v.value))
    ensures var r := CellOf(field, before, PackCell(field, cell, omit, depth).value, false, depth);
      r.Ok? && CellsEqual(field, cell, r.value, depth)
    decreases field, 1
  {
    hide PackItem, ItemOf, ArrayCell, ItemFits, TypeOk, PolicyOk, UnitsValid, ValueOk, Enters, ItemsEqual;
    if field.isArray {
      ArrayRound(field, cell, omit, before, depth);
    } else {
      ItemRound(field.fieldType, cell.item, omit, before.item, depth);
    }
  }

  /** The wanted children of a list of members at `p`. */
  function ListChildren(ms: seq<Member>, p: nat, keys: set<Text>): seq<Child>
    requires ListOk(Object, ms)
  {
    if ms == [] then []
    else
      MembersOfOk(Object, ms);
      SelectedMembers(MembersOf(ms), p, keys)
  }

  lemma ListChildrenUnfold(ms: seq<Member>, p: nat, keys: set<Text>)
    requires ms != [] && ListOk(Object, ms) && MemberOk(ms[0], Object) && KeyBytes(ms[0].key) in keys
    ensures ListOk(Object, ms[1..])
    ensures ListChildren(ms, p, keys) ==
      [MemberChild(ms[0], Object, p)] + ListChildren(ms[1..], p + |PrintMember(ms[0], Object)| + 1, keys)
  {
    hide MemberOk, MemberChild, PrintMember, KeyBytes;
    MembersOfOk(Object, ms);
    if |ms| == 1 {
      assert ms[1..] == [];
    }
  }

  /** A packed member belongs to its field. */
  lemma MemberIsField(schema: Schema, k: nat, v: Value, t: Text, p: nat)
    requires SchemaOk(schema) && k < |schema.fields| && FieldOk(schema.fields[k]) && ValueOk(v)
    requires Occurs(t, p, PrintMember(Member(FieldKey(schema.fields[k]), v, []), Object))
    ensures var m := Member(FieldKey(schema.fields[k]), v, []);
      MemberOk(m, Object) && KeyBytes(m.key) == schema.fields[k].key && schema.fields[k].key in FieldKeys(schema.fields) &&
      ChildField(schema, t, MemberChild(m, Object, p)) == k &&
      MemberChild(m, Object, p) == ChildAt(KeyOwnerAt(m.key, p), v, p + |PrintKey(m.key, Object)|) &&
      Occurs(t, p + |PrintKey(m.key, Object)|, PrintValue(v))
  {
    hide PrintValue, ValueOk, Occurs, FieldKey, KeyBytes, FieldOk, ChildAt, FieldIndex, Decoded, PrintChars, CharsOk;
    var field := schema.fields[k];
    var m := Member(FieldKey(field), v, []);
    FieldKeyBytes(field);
    assert field.key in FieldKeys(schema.fields);
    NoSpaceAllWhitespace();
    OccursConcat(t, p, PrintKey(m.key, Object), PrintValue(v) + []);
    OccursConcat(t, p + |PrintKey(m.key, Object)|, PrintValue(v), []);
    MemberKeyRead(t, m, p);
    IndexOfField(schema.fields, k);
  }

  /** The first `k` fields are unpacked, the others hold their defaults. */
  ghost predicate FieldsDone(schema: Schema, cells: seq<Cell>, before: seq<Cell>, depth: nat, k: nat, s: Stored)
    requires SchemaOk(schema) && ObjectFits(schema, cells) && ObjectFits(schema, before) && StateFits(schema, s)
  {
    s.status.Success? && (forall j | j in s.found :: j < k) &&
    (forall j | 0 <= j < k <= |cells| ::
      CellsEqual(schema.fields[j], cells[j], s.cells[j], depth) && (schema.fields[j].policy.Required? ==> j in s.found)) &&
    forall j | k <= j < |cells| :: s.cells[j] == Defaults(schema, before)[j]
  }

  lemma DefaultAt(schema: Schema, before: seq<Cell>, k: nat)
    requires SchemaOk(schema) && ObjectFits(schema, before) && k < |before|
    ensures FieldOk(schema.fields[k]) && CellFits(schema.fields[k], before[k])
    ensures Defaults(schema, before)[k] == DefaultCell(schema.fields[k], before[k])
  {
    hide FieldOk, CellFits, DefaultCell;
  }

  /** What is packed from field `k` on. */
  lemma FieldsPacked(schema: Schema, cells: seq<Cell>, omit: bool, depth: nat, k: nat)
    requires SchemaOk(schema) && ObjectFits(schema, cells) && k < |cells| && PackFields(schema, cells, omit, depth, k).Ok?
    ensures FieldOk(schema.fields[k]) && CellFits(schema.fields[k], cells[k])
    ensures var field, ms := schema.fields[k], PackFields(schema, cells, omit, depth, k).value;
      (omit && IsDefault(field, cells[k], depth) ==> PackFields(schema, cells, omit, depth, k + 1) == Ok(ms)) &&
      (!(omit && IsDefault(field, cells[k], depth)) ==>
        var v := PackCell(field, cells[k], omit, depth);
        v.Ok? && ms != [] && ms[0] == Member(FieldKey(field), v.value, []) && PackFields(schema, cells, omit, depth, k + 1) == Ok(ms[1..]))
  {
    hide PackCell, IsDefault, FieldOk, CellFits, FieldKey, KeyOk;
    var rest := PackFields(schema, cells, omit, depth, k + 1);
    if rest.Ok? {
      assert [] + rest.value == rest.value;
    }
  }

  /** One field: left out with its default, or shown and stored. */
  lemma {:induction false} FieldsRound(schema: Schema, cells: seq<Cell>, omit: bool, before: seq<Cell>, depth: nat, t: Text, k: nat, p: nat, s: Stored)
    requires SchemaOk(schema) && ObjectFits(schema, cells) && ObjectFits(schema, before) && StateFits(schema, s) && k <= |cells|
    requires FieldsDone(schema, cells, before, depth, k, s) && PackFields(schema, cells, omit, depth, k).Ok?
    requires var ms := PackFields(schema, cells, omit, depth, k).value;
      ms != [] ==>
        MembersOk(MembersOf(ms), Object) && Occurs(t, p, PrintMembers(MembersOf(ms), Object)) && WithinLimit(0, MembersEnter(MembersOf(ms)))
    ensures var r := Until(schema, t, false, depth, s, ListChildren(PackFields(schema, cells, omit, depth, k).value, p, FieldKeys(schema.fields)));
      FieldsDone(schema, cells, before, depth, |cells|, r)
    decreases schema, 4, |cells| - k
  {
    hide SchemaOk, ObjectFits, PackFields, PackCell, IsDefault, FieldsDone, CellsEqual, StoreCell, MembersOk, MemberOk, PrintMembers, PrintMember,
      MembersOf, MembersEnter, Enters, Occurs, ListChildren, Callback, FieldOk, CellFits, KeyOk, FieldKey, FieldKeys, PrintValue, ValueOk, MemberChild, ChildAt,
      KeyBytes, ListOk;
    if k == |cells| {
      NothingLeft(schema, cells, omit, depth, p);
    } else {
      SameLength(schema, cells);
      SameLength(schema, before);
      FieldsPacked(schema, cells, omit, depth, k);
      var field, ms := schema.fields[k], PackFields(schema, cells, omit, depth, k).value;
      if omit && IsDefault(field, cells[k], depth) {
        FieldDefaulted(schema, cells, before, depth, k, s);
        FieldsRound(schema, cells, omit, before, depth, t, k + 1, p, s);
      } else {
        FirstOfList(Object, ms, t, p);
        FieldShown(schema, cells, omit, before, depth, t, k, p, s, ms);
        var child := MemberChild(ms[0], Object, p);
        var n := p + |PrintMember(ms[0], Object)| + 1;
        OneCall(schema, cells, before, depth, t, k, s, child, ListChildren(ms[1..], n, FieldKeys(schema.fields)));
        FieldsRound(schema, cells, omit, before, depth, t, k + 1, n, Callback(schema, t, false, depth, s, child));
      }
    }
  }

  /** A field that was packed is shown, and its value is stored. */
  lemma {:induction false} FieldShown(schema: Schema, cells: seq<Cell>, omit: bool, before: seq<Cell>, depth: nat, t: Text, k: nat, p: nat, s: Stored,
    ms: seq<Member>)
    requires SchemaOk(schema) && ObjectFits(schema, cells) && ObjectFits(schema, before) && StateFits(schema, s)
    requires k < |cells| == |schema.fields| && FieldOk(schema.fields[k]) && CellFits(schema.fields[k], cells[k])
    requires FieldsDone(schema, cells, before, depth, k, s) && ListOk(Object, ms) && ms != []
    requires PackCell(schema.fields[k], cells[k], omit, depth).Ok?
    requires ms[0] == Member(FieldKey(schema.fields[k]), PackCell(schema.fields[k], cells[k], omit, depth).value, [])
    requires MemberOk(ms[0], Object) && Occurs(t, p, PrintMember(ms[0], Object)) && WithinLimit(0, Enters(ms[0].value))
    ensures FieldsDone(schema, cells, before, depth, k + 1, Callback(schema, t, false, depth, s, MemberChild(ms[0], Object, p)))
    ensures ListOk(Object, ms[1..])
    ensures ListChildren(ms, p, FieldKeys(schema.fields)) ==
      [MemberChild(ms[0], Object, p)] + ListChildren(ms[1..], p + |PrintMember(ms[0], Object)| + 1, FieldKeys(schema.fields))
    decreases schema, 3
  {
    hide SchemaOk, ObjectFits, PackCell, FieldsDone, CellsEqual, StoreCell, MemberOk, PrintMember, Enters, Occurs, ListChildren, Callback, FieldOk,
      CellFits, KeyOk, FieldKey, FieldKeys, PrintValue, ValueOk, MemberChild, ChildAt, KeyBytes, ListOk, ChildField, KeyOwnerAt;
    var field, m := schema.fields[k], ms[0];
    MemberIsField(schema, k, m.value, t, p);
    KeyIsOk(m);
    CellAt(schema, s.cells, k);
    CellRound(field, cells[k], omit, s.cells[k], depth);
    CellStored(field, s.cells[k], KeyOwnerAt(m.key, p), m.value, t, p + |PrintKey(m.key, Object)|, false, depth);
    FieldStored(schema, cells, before, depth, t, k, s, MemberChild(m, Object, p));
    ListChildrenUnfold(ms, p, FieldKeys(schema.fields));
  }

  lemma KeyIsOk(m: Member)
    requires MemberOk(m, Object)
    ensures KeyOk(m.key, Object) && (m.key.Key? ==> CharsOk(m.key.chars)) && ValueOk(m.value)
  {
    hide CharsOk, ValueOk;
  }

  lemma SameLength(schema: Schema, cells: seq<Cell>)
    requires ObjectFits(schema, cells)
    ensures |cells| == |schema.fields|
  {
  }

  lemma CellAt(schema: Schema, cells: seq<Cell>, k: nat)
    requires ObjectFits(schema, cells) && k < |schema.fields|
    ensures k < |cells| && CellFits(schema.fields[k], cells[k])
  {
    hide CellFits;
  }

  lemma NothingLeft(schema: Schema, cells: seq<Cell>, omit: bool, depth: nat, p: nat)
    requires SchemaOk(schema) && ObjectFits(schema, cells)
    ensures PackFields(schema, cells, omit, depth, |cells|) == Ok([]) && ListOk(Object, []) && ListChildren([], p, FieldKeys(schema.fields)) == []
  {
  }

  lemma OneCall(schema: Schema, cells: seq<Cell>, before: seq<Cell>, depth: nat, t: Text, k: nat, s: Stored, child: Child, rest: seq<Child>)
    requires SchemaOk(schema) && ObjectFits(schema, cells) && ObjectFits(schema, before) && StateFits(schema, s)
    requires FieldsDone(schema, cells, before, depth, k, s)
    ensures Until(schema, t, false, depth, s, [child] + rest) ==
      Until(schema, t, false, depth, Callback(schema, t, false, depth, s, child), rest)
  {
    hide Callback, SchemaOk, ObjectFits, CellsEqual;
    assert ([child] + rest)[1..] == rest;
  }

  lemma FieldDefaulted(schema: Schema, cells: seq<Cell>, before: seq<Cell>, depth: nat, k: nat, s: Stored)
    requires SchemaOk(schema) && ObjectFits(schema, cells) && ObjectFits(schema, before) && StateFits(schema, s) && k < |cells|
    requires FieldsDone(schema, cells, before, depth, k, s)
    requires FieldOk(schema.fields[k]) && CellFits(schema.fields[k], cells[k]) && IsDefault(schema.fields[k], cells[k], depth)
    ensures FieldsDone(schema, cells, before, depth, k + 1, s)
  {
    hide FieldOk, CellFits, SchemaOk, IsDefault, DefaultCell, CellsEqual, Defaults;
    DefaultAt(schema, before, k);
    DefaultRound(schema.fields[k], cells[k], before[k], depth);
  }

  lemma FieldStored(schema: Schema, cells: seq<Cell>, before: seq<Cell>, depth: nat, t: Text, k: nat, s: Stored, child: Child)
    requires SchemaOk(schema) && ObjectFits(schema, cells) && ObjectFits(schema, before) && StateFits(schema, s) && k < |cells|
    requires FieldsDone(schema, cells, before, depth, k, s) && ChildField(schema, t, child) == k
    requires FieldOk(schema.fields[k]) && CellFits(schema.fields[k], cells[k]) && CellFits(schema.fields[k], s.cells[k])
    requires var r := StoreCell(schema.fields[k], s.cells[k], child, t, false, depth);
      r.Ok? && CellsEqual(schema.fields[k], cells[k], r.value, depth)
    ensures FieldsDone(schema, cells, before, depth, k + 1, Callback(schema, t, false, depth, s, child))
  {
    hide FieldOk, CellFits, SchemaOk, CellsEqual, Defaults, StoreCell, ChildField;
  }

  lemma FieldsBegin(schema: Schema, cells: seq<Cell>, before: seq<Cell>, depth: nat)
    requires SchemaOk(schema) && ObjectFits(schema, cells) && ObjectFits(schema, before)
    ensures FieldsDone(schema, cells, before, depth, 0, Begun(schema, before))
  {
    hide FieldOk, CellFits, SchemaOk, CellsEqual, Defaults;
  }

  lemma FieldsEnd(schema: Schema, cells: seq<Cell>, before: seq<Cell>, depth: nat, s: Stored)
    requires SchemaOk(schema) && ObjectFits(schema, cells) && ObjectFits(schema, before) && StateFits(schema, s)
    requires FieldsDone(schema, cells, before, depth, |cells|, s) && depth < MAX_NESTING
    ensures Finished(schema, s) == Ok(s.cells) && ObjectsEqual(schema, cells, s.cells, depth)
  {
    hide FieldOk, CellFits, SchemaOk, CellsEqual, Defaults;
  }

  /** A packed object as a document, and the children its own schema wants. */
  lemma PackedDocument(ms: seq<Member>, keys: set<Text>)
    requires ListOk(Object, ms) && ValueOk(ListOf(Object, ms))
    ensures var v := ListOf(Object, ms);
      var d := Document([], v, []);
      IsObject(v) && DocumentOk(d) && PrintDocument(d) == PrintValue(v) && SelectedChildren(d, keys) == ListChildren(ms, 1, keys) &&
      At(PrintValue(v), SkipWs(PrintValue(v), 0)) == LBRACE &&
      (ms != [] ==>
        MembersOk(MembersOf(ms), Object) && Occurs(PrintValue(v), 1, PrintMembers(MembersOf(ms), Object)) &&
        Enters(v) == 1 + MembersEnter(MembersOf(ms)))
  {
    hide PrintMembers, MembersOk, ListOk, MemberOk, SelectedMembers, AllWhitespace, SkipWs, Occurs, PrintValue, ValueOk, MembersOf;
    var v := ListOf(Object, ms);
    var d := Document([], v, []);
    NoSpaceAllWhitespace();
    assert [] + (PrintValue(v) + []) == PrintValue(v);
    DocumentParts(d);
    ObjectOpens(v);
    OccursWhole(PrintValue(v), PrintValue(v));
    ObjectParts(PrintValue(v), 0, v);
  }

  lemma {:induction false} ObjectRound(schema: Schema, cells: seq<Cell>, omit: bool, before: seq<Cell>, depth: nat)
    requires SchemaOk(schema) && ObjectFits(schema, cells) && ObjectFits(schema, before)
    requires var v := PackObject(schema, cells, omit, depth); v.Ok? && WithinLimit(0, Enters(v.value))
    ensures var r := Unpacked(schema, PrintValue(PackObject(schema, cells, omit, depth).value), before, false, depth);
      r.Ok? && ObjectsEqual(schema, cells, r.value, depth)
    decreases schema, 5
  {
    hide SchemaOk, ObjectFits, PackFields, FieldsDone, CellsEqual, MembersOk, MemberOk, PrintMembers, MembersOf, MembersEnter, Enters, Occurs, Until,
      ListChildren, FieldKeys, PrintValue, ValueOk, ListOk, ParseText, SkipWs, DocumentOk, PrintDocument, SelectedChildren, RootChildren, Finished, Begun,
      ObjectsEqual, Selection;
    var ms := PackFields(schema, cells, omit, depth, 0).value;
    var v := ListOf(Object, ms);
    FieldsListOk(schema, cells, omit, depth);
    var keys := FieldKeys(schema.fields);
    var d := Document([], v, []);
    PackedDocument(ms, keys);
    DocumentParsed(d);
    DocumentSelected(d, keys);
    FieldsBegin(schema, cells, before, depth);
    FieldsRound(schema, cells, omit, before, depth, PrintValue(v), 0, 1, Begun(schema, before));
    FieldsEnd(schema, cells, before, depth, Until(schema, PrintValue(v), false, depth, Begun(schema, before), ListChildren(ms, 1, keys)));
  }

  lemma FieldsListOk(schema: Schema, cells: seq<Cell>, omit: bool, depth: nat)
    requires SchemaOk(schema) && ObjectFits(schema, cells) && PackFields(schema, cells, omit, depth, 0).Ok?
    ensures ListOk(Object, PackFields(schema, cells, omit, depth, 0).value)
    ensures ValueOk(ListOf(Object, PackFields(schema, cells, omit, depth, 0).value))
  {
    ListOfOk(Object, PackFields(schema, cells, omit, depth, 0).value);
  }

  /** The round trip: whatever was packed, with or without its defaults, is unpacked
      again exactly when its text lies within the depth limit of the parser, and then
      the object is equal to the one that was packed, whatever memory it is stored in. */
  lemma PackUnpack(schema: Schema, cells: seq<Cell>, omit: bool, before: seq<Cell>)
    requires SchemaOk(schema) && ObjectFits(schema, cells) && ObjectFits(schema, before)
    requires PackObject(schema, cells, omit, 0).Ok?
    ensures var v := PackObject(schema, cells, omit, 0).value;
      var r := Unpacked(schema, PrintValue(v), before, false, 0);
      (r.Ok? <==> WithinLimit(0, Enters(v))) && (r.Ok? ==> ObjectsEqual(schema, cells, r.value, 0)) &&
      SameIfOk(r, Unpacked(schema, PrintValue(v), before, true, 0)) &&
      (BracketDepth(v) <= MAX_NESTING ==> r.Ok?)
  {
    hide SchemaOk, ObjectFits, PackFields, Enters, PrintValue, ValueOk, ListOk, ParseText, SkipWs, DocumentOk, PrintDocument, SelectedChildren,
      RootChildren, Until, Finished, Begun, ObjectsEqual, Selection, BracketDepth;
    var v := PackObject(schema, cells, omit, 0).value;
    RelaxedSame(schema, PrintValue(v), before, 0);
    EntersBelowBrackets(v);
    if WithinLimit(0, Enters(v)) {
      ObjectRound(schema, cells, omit, before, 0);
    } else {
      FieldsListOk(schema, cells, omit, 0);
      PackedDocument(PackFields(schema, cells, omit, 0, 0).value, {});
      DocumentParsed(Document([], v, []));
    }
  }

  lemma {:induction false} EntersBelowBrackets(v: Value)
    ensures Enters(v) <= BracketDepth(v)
    decreases v
  {
    if v.Filled? {
      MembersEntersBelow(v.members);
    }
  }

  lemma {:induction false} MembersEntersBelow(ms: Members)
    ensures MembersEnter(ms) <= MembersDepth(ms)
    decreases ms
  {
    EntersBelowBrackets(ms.member.value);
    if ms.More? {
      MembersEntersBelow(ms.rest);
    }
  }
}
