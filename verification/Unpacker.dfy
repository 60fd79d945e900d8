/** The methods of kason_unpack: callbacks that store what the parser shows them. */
module Unpacker {
  import opened Bytes
  import opened JsonString
  import opened Number
  import opened Modes
  import opened Lookup
  import opened Convert
  import opened LegacySpec
  import opened Legacy
  import opened LegacyShown
  import opened UnitText
  import opened Schemas
  import opened SchemaIndex
  import opened Unpack
  import Compare
  import Events
  import W = Writer

  /** The outcome of a method against its specification. The code is the same unless
      the specification says that a text is malformed: then what was stored before the
      error was met may have failed first. */
  predicate Matches<T(==)>(r: Result<T>, spec: Result<T>) {
    if spec.Ok? then r == spec else r.Err? && (spec.code == W.Error || r.code == spec.code)
  }

  // ------------------------------------------------------------------ scalars

  lemma TextFits(fieldType: FieldType, before: Item, child: Child, body: Text)
    requires fieldType.TextType? && ItemFits(fieldType, before) && child.valueType == Events.StringType && ValidBody(body)
    ensures var u := Compare.Encoded(Encoder(fieldType.width), Scalars(body));
      StoreText(fieldType, before, child, body) ==
        if |u| >= fieldType.capacity then Err(W.StringCapacity)
        else if 0 in u then Err(W.TypeError)
        else Ok(Chars(StoredUnits(u, before.units)))
  {
    UnitsAreEncoded(fieldType.width, Scalars(body));
  }

  lemma NoText(fieldType: FieldType, before: Item, child: Child, body: Text)
    requires fieldType.TextType? && ItemFits(fieldType, before) && (child.valueType != Events.StringType || !ValidBody(body))
    ensures StoreText(fieldType, before, child, body) == Err(W.TypeError)
  {
  }

  method HasZero(a: array<int>, n: nat) returns (found: bool)
    requires n <= a.Length
    ensures found <==> 0 in a[..n]
  {
    for i := 0 to n
      invariant 0 !in a[..i]
    {
      if a[i] == 0 {
        return true;
      }
    }
    return false;
  }

  /** The string cases of kason_schema_store_scalar: the string is decoded into the
      field once its length is known to fit. */
  method StoreString(fieldType: FieldType, destination: array<int>, child: Child, body: Text) returns (status: W.Status)
    requires fieldType.TextType? && ItemFits(fieldType, Chars(destination[..]))
    modifies destination
    ensures var r := StoreText(fieldType, Chars(old(destination[..])), child, body);
      if r.Ok? then status == W.Success && destination[..] == r.value.units else status == r.code != W.Success
  {
    hide ValidBody, StoreText, UnitsOk, Compare.Encoded, Compare.FitCount, ScalarsFrom;
    ghost var before := destination[..];
    if child.valueType != Events.StringType {
      NoText(fieldType, Chars(before), child, body);
      return W.TypeError;
    }
    var encode := Encoder(fieldType.width);
    ghost var all := Compare.Encoded(encode, Scalars(body));
    var length := Compare.Copy(body, encode, null, 0);
    if length.StringError? {
      NoText(fieldType, Chars(before), child, body);
      return W.TypeError;
    }
    TextFits(fieldType, Chars(before), child, body);
    if length.count >= destination.Length {
      return W.StringCapacity;
    }
    Compare.EverythingFits(encode, Scalars(body), length.count);
    assert Scalars(body)[..|Scalars(body)|] == Scalars(body);
    var copied := Compare.Copy(body, encode, destination, length.count);
    CopiedAll(copied, destination[..], all, length.count, before);
    if copied != length {
      return W.TypeError;
    }
    var zero := HasZero(destination, length.count);
    if zero {
      return W.TypeError;
    }
    destination[length.count] := 0;
    assert destination[..] == all + [0] + before[length.count + 1..];
    status := W.Success;
  }

  lemma CopiedAll(copied: Compare.Copied, now: seq<int>, all: seq<int>, n: nat, before: seq<int>)
    requires copied.Written? && |all| == n < |before| == |now| && copied.count <= n
    requires now[..copied.count] == all && now[copied.count..] == before[copied.count..]
    ensures copied.count == n && now[n..] == before[n..]
  {
    assert |now[..copied.count]| == copied.count;
  }

  /** What is shown as a number is one. */
  ghost predicate Readable(child: Child, text: Text) {
    child.valueType == Events.NumberType ==> IsNumberText(text)
  }

  lemma StoredNumber(fieldType: FieldType, child: Child, text: Text)
    requires fieldType.IntType? || fieldType.Int64Type? || fieldType.U32Type? || fieldType.U64Type?
    ensures child.valueType != Events.NumberType ==> StoreInteger(fieldType, child, text) == Err(W.TypeError)
    ensures forall n | NumberOk(n) && PrintNumber(n) == text && child.valueType == Events.NumberType ::
      StoreInteger(fieldType, child, text) ==
        InRange(fieldType, if fieldType.IntType? || fieldType.Int64Type? then SignedValue(n) else UnsignedValue(n))
  {
    hide ReadNumber, NumberOk, PrintNumber, SignedValue, UnsignedValue, InRange;
    forall n | NumberOk(n) && PrintNumber(n) == text
      ensures ReadNumber(text, 0) == Read(n, |text|)
    {
      assert text[0..|text|] == text;
      ReadNumberComplete(text, 0, n);
    }
  }

  /** The integer cases of kason_schema_store_scalar. */
  method PutInteger(fieldType: FieldType, child: Child, text: Text) returns (r: Result<Item>)
    requires fieldType.IntType? || fieldType.Int64Type? || fieldType.U32Type? || fieldType.U64Type?
    ensures Readable(child, text) ==> r == StoreInteger(fieldType, child, text)
    ensures r.Err? ==> r.code != W.Success
    ensures r.Ok? ==> ItemFits(fieldType, r.value)
  {
    hide ReadNumber, NumberOk, PrintNumber, SignedValue, UnsignedValue, StoreInteger;
    StoredNumber(fieldType, child, text);
    var isNumber := child.valueType == Events.NumberType;
    var converted: Converted;
    if fieldType.IntType? {
      converted := ValueToInt(isNumber, text);
    } else if fieldType.Int64Type? {
      converted := ValueToInt64(isNumber, text);
    } else {
      converted := ValueToUint64(isNumber, text);
    }
    if !converted.Value? {
      return Err(if converted == Converted.RangeError then W.RangeError else W.TypeError);
    }
    if fieldType.U32Type? && converted.value > 0xFFFF_FFFF {
      return Err(W.RangeError);
    }
    r := Ok(Int(converted.value));
  }

  /** kason_schema_store_scalar. */
  method PutScalar(fieldType: FieldType, before: Item, child: Child, text: Text) returns (r: Result<Item>)
    requires ItemFits(fieldType, before) && !fieldType.StructType?
    ensures Readable(child, text) ==> r == StoreScalar(fieldType, before, child, text)
    ensures r.Err? ==> r.code != W.Success
    ensures r.Ok? ==> ItemFits(fieldType, r.value)
  {
    hide StoreInteger, StoreText, UnitsOk;
    if fieldType.BoolType? {
      r := if child.valueType == Events.TrueType then Ok(Int(1)) else if child.valueType == Events.FalseType then Ok(Int(0)) else Err(W.TypeError);
    } else if fieldType.TextType? {
      var destination := new int[|before.units|](i requires 0 <= i < |before.units| => before.units[i]);
      assert destination[..] == before.units;
      var status := StoreString(fieldType, destination, child, text);
      r := if status == W.Success then Ok(Chars(destination[..])) else Err(status);
    } else {
      r := PutInteger(fieldType, child, text);
    }
  }

  // ------------------------------------------------------- structures and arrays

  /** A callback that never breaks: the methods below look at every child themselves. */
  const NEVER: ChildPolicy := (log: seq<Child>) => false

  /** Unless unpacking is relaxed, or the text is accepted, an early end may hide that
      the text is malformed. */
  ghost predicate Decided(t: Text, relaxed: bool) {
    !relaxed || ParseText(t, AutoMode, 0).Accepted? || At(t, SkipWs(t, 0)) != LBRACE
  }

  lemma SolidDecided(t: Text, child: Child, relaxed: bool)
    requires Solid(t, child) && child.valueType == Events.ObjectType
    ensures Decided(Slice(t, child.lo, child.hi), relaxed)
  {
    hide ParseText, SkipWs;
    var text := Slice(t, child.lo, child.hi);
    var depth: nat :| ParseText(text, AutoMode, depth).Accepted?;
    if At(text, SkipWs(text, 0)) == LBRACE {
      AcceptedAlone(text, depth);
    }
  }

  /** A structure, by unpacking its text, or a scalar. */
  method PutItem(index: Index, k: nat, before: Item, child: Child, t: Text, relaxed: bool, depth: nat) returns (r: Result<Item>)
    requires index.Valid() && k < |index.schema.fields| && TypeOk(index.schema.fields[k].fieldType)
    requires ItemFits(index.schema.fields[k].fieldType, before) && Solid(t, child)
    ensures Numeric(t, child) ==> Matches(r, StoreItem(index.schema.fields[k].fieldType, before, child, t, relaxed, depth))
    ensures r.Err? ==> r.code != W.Success
    ensures r.Ok? ==> ItemFits(index.schema.fields[k].fieldType, r.value)
    decreases index.schema, 1
  {
    hide StoreScalar, Unpacked, SchemaOk, ObjectFits, Solid, Decided, UnitsOk;
    var fieldType := index.schema.fields[k].fieldType;
    var text := Slice(t, child.lo, child.hi);
    if !fieldType.StructType? {
      r := PutScalar(fieldType, before, child, text);
    } else if child.valueType != Events.ObjectType {
      r := Err(W.TypeError);
    } else {
      index.Parts();
      SolidDecided(t, child, relaxed);
      assert index.ChildValid(k);
      var cells := UnpackObject(index.children[k], text, before.members, relaxed, depth + 1);
      r := if cells.Err? then Err(cells.code) else Ok(Struct(cells.value));
    }
  }

  /** kason_parse_container: the text of an array's elements. */
  method ContainerText(t: Text, child: Child) returns (text: Text)
    ensures text == Elements(Slice(t, child.lo, child.hi))
  {
    text := Slice(t, child.lo, child.hi);
    if |text| >= 2 && text[0] == LBRACKET && text[|text| - 1] == RBRACKET {
      text := text[1..|text| - 1];
    }
  }

  /** The elements shown so far are stored. */
  ghost predicate ElementsStored(fieldType: FieldType, before: seq<Item>, items: seq<Item>, log: seq<Child>, whole: Outcome, text: Text,
    relaxed: bool, depth: nat)
    requires TypeOk(fieldType) && |before| == |items|
    requires forall j | 0 <= j < |items| :: ItemFits(fieldType, before[j]) && ItemFits(fieldType, items[j])
  {
    whole.Accepted? ==>
      log <= whole.children &&
      StoreElements(fieldType, before, whole.children, text, relaxed, depth, 0) ==
        StoreElements(fieldType, items, whole.children, text, relaxed, depth, |log|)
  }

  lemma ElementStep(fieldType: FieldType, items: seq<Item>, children: seq<Child>, text: Text, relaxed: bool, depth: nat, n: nat)
    requires TypeOk(fieldType) && n < |children| && forall j | 0 <= j < |items| :: ItemFits(fieldType, items[j])
    ensures StoreElements(fieldType, items, children, text, relaxed, depth, n) ==
      if n >= |items| then Err(W.ArrayCapacity)
      else
        var r := StoreItem(fieldType, items[n], children[n], text, relaxed, depth);
        if r.Err? then Err(r.code) else StoreElements(fieldType, items[n := r.value], children, text, relaxed, depth, n + 1)
  {
    hide StoreItem, ItemFits, TypeOk;
  }

  lemma ElementsEnd(fieldType: FieldType, items: seq<Item>, children: seq<Child>, text: Text, relaxed: bool, depth: nat)
    requires TypeOk(fieldType) && forall j | 0 <= j < |items| :: ItemFits(fieldType, items[j])
    ensures StoreElements(fieldType, items, children, text, relaxed, depth, |children|) == Ok(items)
  {
    hide StoreItem, ItemFits, TypeOk;
  }

  /** Opens the text between an array's brackets. */
  method OpenElements(text: Text) returns (parser: Internal?)
    ensures parser == null ==> ParseText(text, ArrayMode, 0).Rejected?
    ensures parser != null ==>
      fresh(parser) && parser.Paused() && parser.depth <= MAX_NESTING && parser.ptr <= |parser.t| && parser.t == text && parser.log == [] && parser.lookup == null &&
      parser.Whole() == ParseText(text, ArrayMode, 0)
  {
    hide ParseText, Selection, Internal.Whole, Internal.Tidy, Internal.KeyClean;
    parser := Open(text, ArrayMode, 0, null, NEVER);
    if parser != null {
      NothingShown(NEVER);
      if ParseText(text, ArrayMode, 0).Accepted? {
        SelectEverything(text, ParseText(text, ArrayMode, 0).children);
      }
    }
  }

  /** kason_unpack_array with kason_unpack_array_callback. */
  method PutArray(index: Index, k: nat, before: Cell, child: Child, t: Text, relaxed: bool, depth: nat) returns (r: Result<Cell>)
    requires index.Valid() && k < |index.schema.fields| && FieldOk(index.schema.fields[k])
    requires CellFits(index.schema.fields[k], before) && index.schema.fields[k].isArray
    ensures Matches(r, StoreArray(index.schema.fields[k], before, child, t, relaxed, depth))
    ensures r.Err? ==> r.code != W.Success
    ensures r.Ok? ==> CellFits(index.schema.fields[k], r.value)
    decreases index.schema, 2
  {
    hide ParseText, StoreElements, StoreItem, Index.Valid, Internal.Paused, Internal.Whole, ItemFits, TypeOk, PolicyOk, Solid, Numeric, UnitsValid;
    var field := index.schema.fields[k];
    if child.valueType != Events.ArrayType {
      return Err(W.TypeError);
    }
    var text := ContainerText(t, child);
    if text == [] {
      return Ok(Many(0, before.items));
    }
    ghost var whole := ParseText(text, ArrayMode, 0);
    ChildrenNumeric(text, ArrayMode, 0);
    var parser := OpenElements(text);
    if parser == null {
      return Err(W.Error);
    }
    var items, count := before.items, 0;
    while true
      invariant fresh(parser) && parser.Paused() && parser.depth <= MAX_NESTING && parser.ptr <= |text| && parser.t == text && parser.Whole() == whole && parser.lookup == null
      invariant count == |parser.log| && |items| == |before.items|
      invariant forall j | 0 <= j < |items| :: ItemFits(field.fieldType, items[j])
      invariant ElementsStored(field.fieldType, before.items, items, parser.log, whole, text, relaxed, depth)
      decreases |text| - parser.ptr
    {
      var step := parser.Next();
      if step == Malformed {
        return Err(W.Error);
      }
      if step == Ended {
        if whole.Accepted? {
          ElementsEnd(field.fieldType, items, whole.children, text, relaxed, depth);
        }
        return Ok(Many(count, items));
      }
      PausedLeads(parser);
      if whole.Accepted? {
        ElementStep(field.fieldType, items, whole.children, text, relaxed, depth, count);
      }
      if count >= |items| {
        return Err(W.ArrayCapacity);
      }
      var item := PutItem(index, k, items[count], parser.log[count], text, relaxed, depth);
      if item.Err? {
        return Err(item.code);
      }
      items := items[count := item.value];
      count := count + 1;
    }
  }

  lemma PausedLeads(parser: Internal)
    requires parser.Paused()
    ensures parser.Whole().Accepted? ==> parser.log <= parser.Whole().children
  {
    hide Internal.Whole, Internal.Tidy, Internal.KeyClean, Internal.LookupOk;
    parser.LogLeads();
  }

  /** An array or a single value. */
  method PutCell(index: Index, k: nat, before: Cell, child: Child, t: Text, relaxed: bool, depth: nat) returns (r: Result<Cell>)
    requires index.Valid() && k < |index.schema.fields| && FieldOk(index.schema.fields[k])
    requires CellFits(index.schema.fields[k], before) && Solid(t, child)
    ensures Numeric(t, child) ==> Matches(r, StoreCell(index.schema.fields[k], before, child, t, relaxed, depth))
    ensures r.Err? ==> r.code != W.Success
    ensures r.Ok? ==> CellFits(index.schema.fields[k], r.value)
    decreases index.schema, 3
  {
    hide StoreArray, StoreItem, Index.Valid, ItemFits, TypeOk, PolicyOk, Solid, Numeric, UnitsValid;
    if index.schema.fields[k].isArray {
      r := PutArray(index, k, before, child, t, relaxed, depth);
    } else {
      var item := PutItem(index, k, before.item, child, t, relaxed, depth);
      r := if item.Err? then Err(item.code) else Ok(One(item.value));
    }
  }

  // ------------------------------------------------------------------- objects

  /** The context against what the specification says of it. */
  predicate Tracks(s: Stored, spec: Stored) {
    if spec.status == W.Success then s == spec else s.status != W.Success && (spec.status == W.Error || s.status == spec.status)
  }

  lemma EachFieldOk(schema: Schema)
    requires SchemaOk(schema)
    ensures forall k | 0 <= k < |schema.fields| :: FieldOk(schema.fields[k])
  {
    hide FieldOk;
  }

  lemma CellOfField(schema: Schema, cells: seq<Cell>, k: nat)
    requires SchemaOk(schema) && ObjectFits(schema, cells) && k < |schema.fields|
    ensures |cells| == |schema.fields| && FieldOk(schema.fields[k]) && CellFits(schema.fields[k], cells[k])
  {
    hide FieldOk, CellFits;
  }

  lemma CellStored(schema: Schema, cells: seq<Cell>, k: nat, cell: Cell)
    requires ObjectFits(schema, cells) && k < |cells| == |schema.fields| && CellFits(schema.fields[k], cell)
    ensures ObjectFits(schema, cells[k := cell])
  {
    hide CellFits;
  }

  lemma KeyOfChild(t: Text, child: Child)
    requires Solid(t, child)
    ensures var key := if child.key.KeyOwner? then Slice(t, child.key.span.lo, child.key.span.hi) else [];
      ValidBody(key) && ChildKey(t, child) == Decoded(key)
  {
    hide ParseText;
    assert NextScalar([], 0, true).NextEnd?;
    assert Scalars([]) == [];
  }

  /** kason_unpack_context. */
  class Context {
    const index: Index
    const t: Text
    const relaxed: bool
    const depth: nat
    var cells: seq<Cell>
    var found: set<nat>
    var status: W.Status

    ghost function State(): Stored
      reads this
    {
      Stored(cells, found, status)
    }

    ghost predicate Valid()
      reads this, index, index.Repr
    {
      this !in index.Repr && index.Valid() && ObjectFits(index.schema, cells)
    }

    /** kason_schema_apply_defaults, on the memory as it is. */
    constructor (index: Index, t: Text, relaxed: bool, depth: nat, before: seq<Cell>)
      requires index.Valid() && SchemaOk(index.schema) && ObjectFits(index.schema, before)
      ensures this.index == index && this.t == t && this.relaxed == relaxed && this.depth == depth
      ensures Valid() && State() == Begun(index.schema, before)
    {
      hide SchemaOk, DefaultCell, CellFits, FieldOk, Index.Valid;
      this.index, this.t, this.relaxed, this.depth := index, t, relaxed, depth;
      cells, found, status := before, {}, W.Success;
      new;
      EachFieldOk(index.schema);
      for i := 0 to |before|
        invariant index.Valid() && this.index == index && this.t == t && this.relaxed == relaxed && this.depth == depth
        invariant found == {} && status == W.Success && |cells| == |before|
        invariant forall k | 0 <= k < i :: cells[k] == DefaultCell(index.schema.fields[k], before[k])
        invariant forall k | i <= k < |before| :: cells[k] == before[k]
      {
        cells := cells[i := DefaultCell(index.schema.fields[i], cells[i])];
      }
      assert cells == Defaults(index.schema, before);
    }

    /** kason_unpack_callback. */
    method OnMember(child: Child) returns (broke: bool)
      requires Valid() && SchemaOk(index.schema) && Solid(t, child) && status == W.Success
      modifies this
      ensures Valid() && broke == Breaks(index.schema, relaxed, State())
      ensures Numeric(t, child) ==> Tracks(State(), Callback(index.schema, t, relaxed, depth, old(State()), child))
      decreases index.schema, 4
    {
      hide StoreCell, Index.Valid, ObjectFits, SchemaOk, FieldOk, CellFits, Decoded, FieldIndex, Numeric, ValidBody;
      KeyOfChild(t, child);
      var key := if child.key.KeyOwner? then Slice(t, child.key.span.lo, child.key.span.hi) else [];
      var k := index.Select(key);
      if k >= |index.schema.fields| {
        status := W.InvalidSchema;
        return true;
      }
      if k in found {
        status := W.DuplicateField;
        return true;
      }
      CellOfField(index.schema, cells, k);
      var cell := PutCell(index, k, cells[k], child, t, relaxed, depth);
      if cell.Err? {
        status := cell.code;
        return true;
      }
      CellStored(index.schema, cells, k, cell.value);
      cells := cells[k := cell.value];
      found := found + {k};
      broke := relaxed && AllFound(index.schema, found);
    }
  }

  /** Calls behind the first break change nothing. */
  lemma {:induction false} UntilPrefix(schema: Schema, t: Text, relaxed: bool, depth: nat, s: Stored, log: seq<Child>, all: seq<Child>)
    requires StateFits(schema, s) && log <= all && Breaks(schema, relaxed, Until(schema, t, relaxed, depth, s, log))
    ensures Until(schema, t, relaxed, depth, s, all) == Until(schema, t, relaxed, depth, s, log)
    decreases |log|
  {
    hide Callback, Breaks, SchemaOk, ObjectFits;
    if log != [] && !Breaks(schema, relaxed, s) {
      UntilPrefix(schema, t, relaxed, depth, Callback(schema, t, relaxed, depth, s, log[0]), log[1..], all[1..]);
    }
  }

  lemma {:induction false} UntilSnoc(schema: Schema, t: Text, relaxed: bool, depth: nat, s: Stored, log: seq<Child>, child: Child)
    requires StateFits(schema, s) && !Breaks(schema, relaxed, Until(schema, t, relaxed, depth, s, log))
    ensures Until(schema, t, relaxed, depth, s, log + [child]) ==
      Callback(schema, t, relaxed, depth, Until(schema, t, relaxed, depth, s, log), child)
    decreases |log|
  {
    hide Callback, Breaks, SchemaOk, ObjectFits;
    if log == [] {
      assert [] + [child] == [child] && [child][1..] == [];
    } else {
      assert (log + [child])[1..] == log[1..] + [child];
      UntilSnoc(schema, t, relaxed, depth, Callback(schema, t, relaxed, depth, s, log[0]), log[1..], child);
    }
  }

  /** The members shown so far are stored, and none of them broke. */
  ghost predicate MembersStored(schema: Schema, t: Text, relaxed: bool, depth: nat, before: seq<Cell>, s: Stored, log: seq<Child>)
    requires SchemaOk(schema) && ObjectFits(schema, before)
  {
    s == Until(schema, t, relaxed, depth, Begun(schema, before), log) && !Breaks(schema, relaxed, s)
  }

  method FindRoot(t: Text) returns (root: nat)
    ensures root == SkipWs(t, 0)
  {
    root := 0;
    while root < |t| && IsWhitespace(t[root])
      invariant root <= |t| && SkipWs(t, root) == SkipWs(t, 0)
    {
      SkipOne(t, root);
      root := root + 1;
    }
    SkipNone(t, root);
  }

  /** What kason_unpack_range_internal returns for an accepted text whose wanted
      members are `wishes`. */
  function Outcomes(schema: Schema, t: Text, relaxed: bool, depth: nat, before: seq<Cell>, wishes: seq<Child>): Result<seq<Cell>>
    requires SchemaOk(schema) && ObjectFits(schema, before)
  {
    Finished(schema, Until(schema, t, relaxed, depth, Begun(schema, before), wishes))
  }

  lemma UnpackedIs(schema: Schema, t: Text, before: seq<Cell>, relaxed: bool, depth: nat)
    requires SchemaOk(schema) && ObjectFits(schema, before) && depth < MAX_NESTING && At(t, SkipWs(t, 0)) == LBRACE
    ensures Unpacked(schema, t, before, relaxed, depth) ==
      var whole := Picked(t, Only(FieldKeys(schema.fields)), ParseText(t, AutoMode, 0));
      if whole.Rejected? then Err(W.Error) else Outcomes(schema, t, relaxed, depth, before, whole.children)
  {
    hide ParseText, SkipWs, SchemaOk, ObjectFits, Until, Finished, Begun, Selection, FieldKeys;
  }

  /** Opens a document for the members that a schema has fields for. */
  method OpenMembers(index: Index, t: Text) returns (parser: Internal?)
    requires index.Valid()
    ensures parser == null ==> ParseText(t, AutoMode, 0).Rejected?
    ensures parser != null ==>
      fresh(parser) && parser.Paused() && parser.depth <= MAX_NESTING && parser.ptr <= |parser.t| && parser.t == t && parser.log == [] && parser.lookup == index.table &&
      parser.Whole() == Picked(t, Only(FieldKeys(index.schema.fields)), ParseText(t, AutoMode, 0))
  {
    hide ParseText, Selection, Internal.Whole, Internal.Tidy, Internal.KeyClean, Index.Valid;
    index.Parts();
    parser := Open(t, AutoMode, 0, index.table, NEVER);
    NothingShown(NEVER);
  }

  /** The member shown last is stored, or the callback broke. */
  lemma AfterMember(schema: Schema, t: Text, relaxed: bool, depth: nat, before: seq<Cell>, s: Stored, log: seq<Child>, child: Child, s': Stored)
    requires SchemaOk(schema) && ObjectFits(schema, before) && MembersStored(schema, t, relaxed, depth, before, s, log)
    requires Tracks(s', Callback(schema, t, relaxed, depth, s, child))
    ensures var spec := Until(schema, t, relaxed, depth, Begun(schema, before), log + [child]);
      Tracks(s', spec) && (!Breaks(schema, relaxed, s') ==> MembersStored(schema, t, relaxed, depth, before, s', log + [child])) &&
      (Breaks(schema, relaxed, s') ==> Breaks(schema, relaxed, spec))
  {
    hide Callback, SchemaOk, ObjectFits, Until, AllFound, Begun;
    UntilSnoc(schema, t, relaxed, depth, Begun(schema, before), log, child);
  }

  /** The result after a break, when the text is accepted. */
  lemma AfterBreak(schema: Schema, t: Text, relaxed: bool, depth: nat, before: seq<Cell>, log: seq<Child>, wishes: seq<Child>, s: Stored)
    requires SchemaOk(schema) && ObjectFits(schema, before) && log <= wishes
    requires var spec := Until(schema, t, relaxed, depth, Begun(schema, before), log); Tracks(s, spec) && Breaks(schema, relaxed, spec)
    ensures Matches(Finished(schema, s), Outcomes(schema, t, relaxed, depth, before, wishes))
  {
    hide SchemaOk, ObjectFits, Until, AllFound, Begun, Missing;
    UntilPrefix(schema, t, relaxed, depth, Begun(schema, before), log, wishes);
  }

  lemma NoObject(schema: Schema, t: Text, before: seq<Cell>, relaxed: bool, depth: nat)
    requires SchemaOk(schema) && ObjectFits(schema, before) && (depth >= MAX_NESTING || At(t, SkipWs(t, 0)) != LBRACE)
    ensures Unpacked(schema, t, before, relaxed, depth) == Err(if depth >= MAX_NESTING then W.NestingError else W.TypeError)
  {
  }

  lemma MembersAreStored(schema: Schema, t: Text, relaxed: bool, depth: nat, before: seq<Cell>, s: Stored, log: seq<Child>)
    requires SchemaOk(schema) && ObjectFits(schema, before)
    ensures MembersStored(schema, t, relaxed, depth, before, s, log) ==>
      Finished(schema, s) == Outcomes(schema, t, relaxed, depth, before, log)
  {
    hide Finished;
  }

  lemma StrictBreak(schema: Schema, s: Stored)
    ensures Breaks(schema, false, s) ==> Finished(schema, s).Err?
  {
  }

  lemma NothingStored(schema: Schema, t: Text, relaxed: bool, depth: nat, before: seq<Cell>)
    requires SchemaOk(schema) && ObjectFits(schema, before)
    ensures MembersStored(schema, t, relaxed, depth, before, Begun(schema, before), [])
    ensures !Breaks(schema, relaxed, Begun(schema, before))
  {
    hide Defaults, ObjectFits, FieldOk;
    assert 0 !in Begun(schema, before).found;
  }

  lemma {:induction false} SelectionNumeric(t: Text, choice: Choice, children: seq<Child>)
    requires forall k | 0 <= k < |children| :: Numeric(t, children[k])
    ensures forall k | 0 <= k < |Selection(t, choice, children)| :: Numeric(t, Selection(t, choice, children)[k])
    decreases |children|
  {
    hide Numeric, Wanted;
    if children != [] {
      SelectionNumeric(t, choice, children[1..]);
    }
  }

  lemma PickedNumeric(t: Text, choice: Choice)
    ensures AllNumeric(t, Picked(t, choice, ParseText(t, AutoMode, 0)))
  {
    hide Numeric, ParseText, Selection;
    ChildrenNumeric(t, AutoMode, 0);
    if ParseText(t, AutoMode, 0).Accepted? {
      SelectionNumeric(t, choice, ParseText(t, AutoMode, 0).children);
    }
  }

  /** What kason_unpack_range_internal does when parsing has ended: the first required
      field that is missing is an error. */
  method Finish(schema: Schema, cells: seq<Cell>, found: set<nat>, status: W.Status) returns (r: Result<seq<Cell>>)
    ensures r == Finished(schema, Stored(cells, found, status)) && (r.Ok? ==> r.value == cells)
  {
    if status != W.Success {
      return Err(status);
    }
    for k := 0 to |schema.fields|
      invariant forall j | 0 <= j < k :: schema.fields[j].policy.Required? ==> j in found
    {
      if schema.fields[k].policy.Required? && k !in found {
        return Err(W.MissingField);
      }
    }
    r := Ok(cells);
  }

  /** kason_unpack_range_internal for an initialised schema. */
  method UnpackObject(index: Index, t: Text, before: seq<Cell>, relaxed: bool, depth: nat) returns (r: Result<seq<Cell>>)
    requires index.Valid() && SchemaOk(index.schema) && ObjectFits(index.schema, before)
    ensures Decided(t, relaxed) ==> Matches(r, Unpacked(index.schema, t, before, relaxed, depth))
    ensures r.Err? ==> r.code != W.Success
    ensures r.Ok? ==> ObjectFits(index.schema, r.value)
    decreases index.schema, 5
  {
    hide ParseText, SkipWs, Until, Begun, Finished, Callback, Index.Valid, Internal.Paused, Internal.Whole, SchemaOk, ObjectFits, Solid, Numeric,
      MembersStored, Unpacked, Selection, FieldKeys, AllFound, Tracks;
    var schema := index.schema;
    var root := FindRoot(t);
    if depth >= MAX_NESTING || root >= |t| || t[root] != LBRACE {
      NoObject(schema, t, before, relaxed, depth);
      return Err(if depth >= MAX_NESTING then W.NestingError else W.TypeError);
    }
    UnpackedIs(schema, t, before, relaxed, depth);
    ghost var whole := Picked(t, Only(FieldKeys(schema.fields)), ParseText(t, AutoMode, 0));
    var context := new Context(index, t, relaxed, depth, before);
    var parser := OpenMembers(index, t);
    if parser == null {
      return Err(W.Error);
    }
    PickedNumeric(t, Only(FieldKeys(schema.fields)));
    NothingStored(schema, t, relaxed, depth, before);
    while true
      invariant fresh(parser) && parser.Paused() && parser.depth <= MAX_NESTING && parser.ptr <= |t| && parser.t == t && parser.Whole() == whole && parser.lookup == index.table
      invariant fresh(context) && context.Valid() && context.index == index && context.t == t && context.relaxed == relaxed && context.depth == depth
      invariant !Breaks(schema, relaxed, context.State())
      invariant whole.Accepted? ==> MembersStored(schema, t, relaxed, depth, before, context.State(), parser.log)
      decreases |t| - parser.ptr
    {
      ghost var log, s := parser.log, context.State();
      var step := parser.Next();
      if step == Malformed {
        return Err(W.Error);
      }
      if step == Ended {
        MembersAreStored(schema, t, relaxed, depth, before, s, log);
        break;
      }
      PausedLeads(parser);
      var child := parser.log[|parser.log| - 1];
      assert parser.log == log + [child];
      var broke := context.OnMember(child);
      if whole.Accepted? {
        AfterMember(schema, t, relaxed, depth, before, s, log, child, context.State());
      }
      if broke {
        StrictBreak(schema, context.State());
        if whole.Accepted? {
          AfterBreak(schema, t, relaxed, depth, before, parser.log, whole.children, context.State());
        }
        break;
      }
    }
    r := Finish(schema, context.cells, context.found, context.status);
  }

  /** kason_unpack_range_flags: an uninitialised schema is refused. */
  method UnpackRange(index: Index?, t: Text, before: seq<Cell>, relaxed: bool) returns (r: Result<seq<Cell>>)
    requires index != null ==> index.Valid() && SchemaOk(index.schema) && ObjectFits(index.schema, before)
    ensures index == null ==> r == Err(W.InvalidSchema)
    ensures index != null && (!relaxed || ParseText(t, AutoMode, 0).Accepted?) ==>
      Matches(r, Unpacked(index.schema, t, before, relaxed, 0))
  {
    hide ParseText, Unpacked, Index.Valid, SchemaOk, ObjectFits, SkipWs;
    if index == null {
      return Err(W.InvalidSchema);
    }
    r := UnpackObject(index, t, before, relaxed, 0);
  }
}
