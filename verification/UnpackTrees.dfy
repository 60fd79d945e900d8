/** What unpacking stores, said of syntax trees: no slice and no position is left. */
module UnpackTrees {
  import opened Bytes
  import opened JsonString
  import opened Number
  import opened Grammar
  import opened Events
  import opened Modes
  import opened Convert
  import opened UnitText
  import opened JsonWriter
  import opened Lookup
  import opened LegacySpec
  import opened LegacyTrees
  import opened LegacyComplete
  import opened LegacySound
  import opened LegacyAgreement
  import opened Selected
  import opened Schemas
  import opened Unpack
  import opened UnpackSpec
  import opened NestedArrays
  import opened Pack
  import Unpacker
  import W = Writer

  // ----------------------------------------------------------- single values

  /** A string is stored as the units of its characters. */
  function TextOf(fieldType: FieldType, before: Item, v: Value): (r: Result<Item>)
    requires fieldType.TextType? && ItemFits(fieldType, before) && ValueOk(v)
    ensures r.Err? ==> r.code != W.Success
    ensures r.Ok? ==> ItemFits(fieldType, r.value)
  {
    if !v.Str? then Err(W.TypeError)
    else
      var u := Units(fieldType.width, ScalarsOf(v.chars));
      if |u| >= fieldType.capacity then Err(W.StringCapacity)
      else if 0 in ScalarsOf(v.chars) then Err(W.TypeError)
      else Ok(Chars(StoredUnits(u, before.units)))
  }

  function IntegerOf(fieldType: FieldType, v: Value): (r: Result<Item>)
    requires fieldType.IntType? || fieldType.Int64Type? || fieldType.U32Type? || fieldType.U64Type?
    requires ValueOk(v)
    ensures r.Err? ==> r.code != W.Success
    ensures r.Ok? ==> ItemFits(fieldType, r.value)
  {
    if !v.Num? then Err(W.TypeError)
    else InRange(fieldType, if fieldType.IntType? || fieldType.Int64Type? then SignedValue(v.number) else UnsignedValue(v.number))
  }

  /** A value by itself; an object is unpacked as a text of its own. */
  function ItemOf(fieldType: FieldType, before: Item, v: Value, relaxed: bool, depth: nat): (r: Result<Item>)
    requires TypeOk(fieldType) && ItemFits(fieldType, before) && ValueOk(v)
    ensures r.Err? ==> r.code != W.Success
    ensures r.Ok? ==> ItemFits(fieldType, r.value)
  {
    if fieldType.StructType? then
      if !IsObject(v) then Err(W.TypeError)
      else
        var r := Unpacked(fieldType.schema, PrintValue(v), before.members, relaxed, depth + 1);
        if r.Err? then Err(r.code) else Ok(Struct(r.value))
    else if fieldType.BoolType? then
      if v.True? then Ok(Int(1)) else if v.False? then Ok(Int(0)) else Err(W.TypeError)
    else if fieldType.TextType? then TextOf(fieldType, before, v)
    else IntegerOf(fieldType, v)
  }

  /** The text a child is shown with. */
  lemma ChildText(owner: Owner, v: Value, t: Text, p: nat)
    requires ValueOk(v) && Occurs(t, p, PrintValue(v))
    ensures var child := ChildAt(owner, v, p);
      var text := Slice(t, child.lo, child.hi);
      child.valueType == TypeOf(v) &&
      (v.Str? ==> text == PrintChars(v.chars)) &&
      (v.Num? || v.True? || v.False? || IsObject(v) ==> text == PrintValue(v)) &&
      (v.Empty? && v.kind.Array? ==> text == [])
  {
    hide PrintNumber, PrintChars, PrintMembers, NumberOk, CharsOk, MembersOk;
    if v.Str? {
      var x := PrintChars(v.chars);
      OccursConcat(t, p, [QUOTE], x + [QUOTE]);
      OccursConcat(t, p + 1, x, [QUOTE]);
    }
  }

  lemma TextIs(fieldType: FieldType, before: Item, child: Child, v: Value, text: Text)
    requires fieldType.TextType? && ItemFits(fieldType, before) && ValueOk(v) && child.valueType == TypeOf(v)
    requires v.Str? ==> text == PrintChars(v.chars)
    ensures StoreText(fieldType, before, child, text) == TextOf(fieldType, before, v)
  {
    hide PrintChars, CharsOk, ScalarsFrom, ScalarsOf, ValidFrom, Units, UnitsOk;
    if v.Str? {
      ValidBodyIffPrinted(text);
      OccursWhole(text, text);
      ScalarsOfPrinted(text, 0, v.chars);
      UnitsWithoutZero(fieldType.width, ScalarsOf(v.chars));
    }
  }

  lemma IntegerIs(fieldType: FieldType, child: Child, v: Value, text: Text)
    requires fieldType.IntType? || fieldType.Int64Type? || fieldType.U32Type? || fieldType.U64Type?
    requires ValueOk(v) && child.valueType == TypeOf(v) && (v.Num? ==> text == PrintValue(v))
    ensures StoreInteger(fieldType, child, text) == IntegerOf(fieldType, v)
  {
    hide ReadNumber, NumberOk, PrintNumber, SignedValue, UnsignedValue, InRange;
    Unpacker.StoredNumber(fieldType, child, text);
  }

  /** What is stored for a child depends on its value only. */
  lemma ItemStored(fieldType: FieldType, before: Item, owner: Owner, v: Value, t: Text, p: nat, relaxed: bool, depth: nat)
    requires TypeOk(fieldType) && ItemFits(fieldType, before) && ValueOk(v) && Occurs(t, p, PrintValue(v))
    ensures StoreItem(fieldType, before, ChildAt(owner, v, p), t, relaxed, depth) == ItemOf(fieldType, before, v, relaxed, depth)
  {
    hide StoreInteger, StoreText, TextOf, IntegerOf, Unpacked, Occurs, ChildAt, PrintValue, ValueOk, SchemaOk, ObjectFits, UnitsOk;
    ChildText(owner, v, t, p);
    var child := ChildAt(owner, v, p);
    var text := Slice(t, child.lo, child.hi);
    if fieldType.TextType? {
      TextIs(fieldType, before, child, v, text);
    } else if !fieldType.StructType? && !fieldType.BoolType? {
      IntegerIs(fieldType, child, v, text);
    }
  }

  // ------------------------------------------------------------------- arrays

  lemma ElementOk(ms: Members)
    requires MembersOk(ms, Array)
    ensures MemberOk(ms.member, Array) && ValueOk(ms.member.value) && (ms.More? ==> MembersOk(ms.rest, Array))
  {
    hide ValueOk;
  }

  lemma ArrayOk(v: Value)
    requires ValueOk(v) && IsArray(v) && v.Filled?
    ensures MembersOk(v.members, Array) && ValueOk(v.members.member.value)
  {
    hide MembersOk;
    ElementOk(v.members);
  }

  /** Elements are stored one by one; there must be room for all of them. */
  function ElementsOf(fieldType: FieldType, items: seq<Item>, ms: Members, relaxed: bool, depth: nat, n: nat): (r: Result<seq<Item>>)
    requires TypeOk(fieldType) && MembersOk(ms, Array) && forall k | 0 <= k < |items| :: ItemFits(fieldType, items[k])
    ensures r.Err? ==> r.code != W.Success
    ensures r.Ok? ==>
      |r.value| == |items| && n + Count(ms) <= |items| && forall k | 0 <= k < |items| :: ItemFits(fieldType, r.value[k])
    decreases ms
  {
    ElementOk(ms);
    if n >= |items| then Err(W.ArrayCapacity)
    else
      var r := ItemOf(fieldType, items[n], ms.member.value, relaxed, depth);
      if r.Err? then Err(r.code)
      else if ms.Last? then Ok(items[n := r.value])
      else ElementsOf(fieldType, items[n := r.value], ms.rest, relaxed, depth, n + 1)
  }

  function Filling(field: Field, before: Cell, ms: Members, relaxed: bool, depth: nat): (r: Result<Cell>)
    requires FieldOk(field) && CellFits(field, before) && field.isArray && MembersOk(ms, Array)
    ensures r.Err? ==> r.code != W.Success
    ensures r.Ok? ==> CellFits(field, r.value)
  {
    var r := ElementsOf(field.fieldType, before.items, ms, relaxed, depth, 0);
    if r.Err? then Err(r.code) else Ok(Many(Count(ms), r.value))
  }

  /** An array field. An array that begins and ends with an array is refused when it
      has several elements; a lone array in it takes its place. */
  function ArrayCell(field: Field, before: Cell, v: Value, relaxed: bool, depth: nat): (r: Result<Cell>)
    requires FieldOk(field) && CellFits(field, before) && field.isArray && ValueOk(v)
    ensures r.Err? ==> r.code != W.Success
    ensures r.Ok? ==> CellFits(field, r.value)
  {
    if !IsArray(v) then Err(W.TypeError)
    else if v.Empty? then Ok(Many(0, before.items))
    else
      ArrayOk(v);
      if !Bracketed(v) then Filling(field, before, v.members, relaxed, depth)
      else if v.members.More? then Err(W.Error)
      else LoneCell(field, before, v.members.member.value, relaxed, depth)
  }

  function LoneCell(field: Field, before: Cell, w: Value, relaxed: bool, depth: nat): (r: Result<Cell>)
    requires FieldOk(field) && CellFits(field, before) && field.isArray && ValueOk(w) && IsArray(w)
    ensures r.Err? ==> r.code != W.Success
    ensures r.Ok? ==> CellFits(field, r.value)
  {
    if w.Filled? then
      ArrayOk(w);
      Filling(field, before, w.members, relaxed, depth)
    else if w.ws == [] then Ok(Many(0, before.items))
    else Err(W.Error)
  }

  function CellOf(field: Field, before: Cell, v: Value, relaxed: bool, depth: nat): (r: Result<Cell>)
    requires FieldOk(field) && CellFits(field, before) && ValueOk(v)
    ensures r.Err? ==> r.code != W.Success
    ensures r.Ok? ==> CellFits(field, r.value)
  {
    if field.isArray then ArrayCell(field, before, v, relaxed, depth)
    else
      var r := ItemOf(field.fieldType, before.item, v, relaxed, depth);
      if r.Err? then Err(r.code) else Ok(One(r.value))
  }

  lemma {:induction false} CountChildren(ms: Members, kind: Kind, p: nat)
    requires MembersOk(ms, kind)
    ensures |ChildrenAt(ms, kind, p)| == Count(ms)
    decreases ms
  {
    hide MemberOk, MemberChild, PrintMember;
    if ms.More? {
      CountChildren(ms.rest, kind, p + |PrintMember(ms.member, kind)| + 1 + |ms.gap|);
    }
  }

  lemma {:induction false} ElementsStored(fieldType: FieldType, items: seq<Item>, ms: Members, children: seq<Child>, t: Text, p: nat, relaxed: bool,
    depth: nat, n: nat)
    requires TypeOk(fieldType) && forall k | 0 <= k < |items| :: ItemFits(fieldType, items[k])
    requires MembersOk(ms, Array) && Occurs(t, p, PrintMembers(ms, Array)) && n <= |children| && children[n..] == ChildrenAt(ms, Array, p)
    ensures StoreElements(fieldType, items, children, t, relaxed, depth, n) == ElementsOf(fieldType, items, ms, relaxed, depth, n)
    decreases ms
  {
    hide ItemOf, StoreItem, StoreElements, ItemFits, TypeOk, PrintValue, ValueOk, PrintMember, PrintMembers, MembersOk, MemberOk, ChildrenAt, ChildAt,
      Occurs;
    FirstElement(ms, t, p);
    assert children[n] == children[n..][0];
    assert children[n + 1..] == children[n..][1..];
    if n >= |items| {
      NoRoom(fieldType, items, children, t, relaxed, depth, n);
    } else {
      Unpacker.ElementStep(fieldType, items, children, t, relaxed, depth, n);
      ItemStored(fieldType, items[n], NoKeyOwner, ms.member.value, t, p, relaxed, depth);
      var r := ItemOf(fieldType, items[n], ms.member.value, relaxed, depth);
      if r.Ok? && ms.Last? {
        Unpacker.ElementsEnd(fieldType, items[n := r.value], children, t, relaxed, depth);
      } else if r.Ok? {
        ElementsStored(fieldType, items[n := r.value], ms.rest, children, t, Second(ms, p), relaxed, depth, n + 1);
      }
    }
  }

  lemma NoRoom(fieldType: FieldType, items: seq<Item>, children: seq<Child>, t: Text, relaxed: bool, depth: nat, n: nat)
    requires TypeOk(fieldType) && (forall k | 0 <= k < |items| :: ItemFits(fieldType, items[k])) && |items| <= n < |children|
    ensures StoreElements(fieldType, items, children, t, relaxed, depth, n) == Err(W.ArrayCapacity)
  {
  }

  /** Where the second element lies. */
  function Second(ms: Members, p: nat): nat
    requires MembersOk(ms, Array) && ms.More?
  {
    p + |PrintMember(ms.member, Array)| + 1 + |ms.gap|
  }

  lemma FirstElement(ms: Members, t: Text, p: nat)
    requires MembersOk(ms, Array) && Occurs(t, p, PrintMembers(ms, Array))
    ensures ValueOk(ms.member.value) && Occurs(t, p, PrintValue(ms.member.value))
    ensures var all := ChildrenAt(ms, Array, p);
      all != [] && all[0] == ChildAt(NoKeyOwner, ms.member.value, p) && (ms.Last? ==> all[1..] == []) &&
      (ms.More? ==>
        MembersOk(ms.rest, Array) && all[1..] == ChildrenAt(ms.rest, Array, Second(ms, p)) &&
        Occurs(t, Second(ms, p), PrintMembers(ms.rest, Array)))
  {
    hide ChildAt, PrintMember, PrintMembers, PrintValue, ValueOk, AllWhitespace, Occurs;
    var m := ms.member;
    MembersUnfold(ms);
    if ms.More? {
      MoreOccurs(t, p, PrintMember(m, Array), ms.gap, PrintMembers(ms.rest, Array));
    }
    OccursConcat(t, p, PrintValue(m.value), m.ws);
  }

  /** Elements parsed from their own text. */
  lemma ElementsParsed(field: Field, before: Cell, ws: Text, ms: Members, text: Text, relaxed: bool, depth: nat)
    requires FieldOk(field) && CellFits(field, before) && field.isArray && AllWhitespace(ws) && MembersOk(ms, Array)
    requires text == ws + PrintMembers(ms, Array) && WithinLimit(0, 1 + MembersEnter(ms))
    ensures var parsed := ParseText(text, ArrayMode, 0);
      parsed.Accepted? &&
      var r := StoreElements(field.fieldType, before.items, parsed.children, text, relaxed, depth, 0);
      (if r.Err? then Err(r.code) else Ok(Many(|parsed.children|, r.value))) == Filling(field, before, ms, relaxed, depth)
  {
    hide ParseText, PrintMembers, MembersOk, ChildrenAt, StoreElements, ElementsOf, ItemFits, TypeOk, PolicyOk, AllWhitespace, Occurs, UnitsValid;
    ArrayText(ws, ms, 0);
    CountChildren(ms, Array, |ws|);
    OccursWhole(text, text);
    OccursConcat(text, 0, ws, PrintMembers(ms, Array));
    var children := ChildrenAt(ms, Array, |ws|);
    assert children[0..] == children;
    ElementsStored(field.fieldType, before.items, ms, children, text, |ws|, relaxed, depth, 0);
  }

  /** The members without the white space before the closing bracket. */
  lemma {:induction false} ElementsBare(fieldType: FieldType, items: seq<Item>, ms: Members, relaxed: bool, depth: nat, n: nat)
    requires TypeOk(fieldType) && MembersOk(ms, Array) && forall k | 0 <= k < |items| :: ItemFits(fieldType, items[k])
    ensures var bare := WithLastWs(ms, []);
      MembersOk(bare, Array) && Count(bare) == Count(ms) && MembersEnter(bare) == MembersEnter(ms) &&
      ElementsOf(fieldType, items, bare, relaxed, depth, n) == ElementsOf(fieldType, items, ms, relaxed, depth, n)
    decreases ms
  {
    hide ItemOf, ItemFits, TypeOk, ValueOk, AllWhitespace, Enters;
    NoSpaceAllWhitespace();
    if ms.More? && n < |items| {
      var r := ItemOf(fieldType, items[n], ms.member.value, relaxed, depth);
      if r.Ok? {
        ElementsBare(fieldType, items[n := r.value], ms.rest, relaxed, depth, n + 1);
      }
    }
    BareMembers(ms);
  }

  lemma BareMembers(ms: Members)
    requires MembersOk(ms, Array)
    ensures var bare := WithLastWs(ms, []);
      MembersOk(bare, Array) && Count(bare) == Count(ms) && MembersEnter(bare) == MembersEnter(ms)
  {
    hide MembersOk, PrintMembers;
    NoSpaceAllWhitespace();
    LastWsPrints(ms, Array, []);
  }

  /** The text an array is shown with. */
  lemma ArrayShown(owner: Owner, v: Value, t: Text, p: nat)
    requires ValueOk(v) && IsArray(v) && Occurs(t, p, PrintValue(v))
    ensures var child := ChildAt(owner, v, p);
      child.valueType == ArrayType && Slice(t, child.lo, child.hi) == if v.Empty? then [] else Content(v)
  {
    hide PrintMembers, MembersOk, PrintValue, ValueOk, Occurs, Content;
    if v.Filled? {
      FilledParts(t, p, v);
      OccursSliceIs(t, p + 1, Content(v));
    }
  }

  /** Storing an array, for every array within the depth limit. */
  lemma ArrayStored(field: Field, before: Cell, owner: Owner, v: Value, t: Text, p: nat, relaxed: bool, depth: nat)
    requires FieldOk(field) && CellFits(field, before) && field.isArray && ValueOk(v) && Occurs(t, p, PrintValue(v))
    requires WithinLimit(0, Enters(v))
    ensures StoreArray(field, before, ChildAt(owner, v, p), t, relaxed, depth) == ArrayCell(field, before, v, relaxed, depth)
  {
    hide ParseText, PrintMembers, MembersOk, ChildrenAt, StoreElements, ElementsOf, ItemFits, TypeOk, PolicyOk, AllWhitespace, Occurs, PrintValue, ValueOk,
      ChildAt, Content, Elements, UnitsValid, Enters, MembersEnter, Filling;
    ChildText(owner, v, t, p);
    if IsArray(v) {
      ArrayShown(owner, v, t, p);
      if v.Empty? {
        NothingToTakeOff();
      } else if !Bracketed(v) {
        OwnElements(field, before, v, relaxed, depth);
      } else if v.members.More? {
        SeveralRejected(v);
      } else {
        LoneElements(field, before, v, relaxed, depth);
      }
    }
  }

  lemma NothingToTakeOff()
    ensures Elements([]) == []
  {
  }

  lemma OwnElements(field: Field, before: Cell, v: Value, relaxed: bool, depth: nat)
    requires FieldOk(field) && CellFits(field, before) && field.isArray && ValueOk(v) && IsArray(v) && v.Filled? && !Bracketed(v)
    requires WithinLimit(0, Enters(v))
    ensures var text := Elements(Content(v));
      var parsed := ParseText(text, ArrayMode, 0);
      text != [] && parsed.Accepted? &&
      var r := StoreElements(field.fieldType, before.items, parsed.children, text, relaxed, depth, 0);
      (if r.Err? then Err(r.code) else Ok(Many(|parsed.children|, r.value))) == Filling(field, before, v.members, relaxed, depth)
  {
    hide ParseText, PrintMembers, MembersOk, ChildrenAt, StoreElements, ElementsOf, ItemFits, TypeOk, PolicyOk, AllWhitespace, Occurs, PrintValue, ValueOk,
      Content, Elements, UnitsValid, MembersEnter, Bracketed;
    OwnBrackets(v);
    OccursWhole(PrintValue(v), PrintValue(v));
    FilledParts(PrintValue(v), 0, v);
    FilledSpace(v);
    ElementsBare(field.fieldType, before.items, v.members, relaxed, depth, 0);
    ElementsParsed(field, before, v.ws, WithLastWs(v.members, []), Content(v), relaxed, depth);
  }

  lemma LoneElements(field: Field, before: Cell, v: Value, relaxed: bool, depth: nat)
    requires FieldOk(field) && CellFits(field, before) && field.isArray && ValueOk(v) && IsArray(v) && v.Filled? && Bracketed(v)
    requires v.members.Last? && WithinLimit(0, Enters(v))
    ensures var text, w := Elements(Content(v)), v.members.member.value;
      var parsed := ParseText(text, ArrayMode, 0);
      if w.Empty? then (text == [] <==> w.ws == []) && (text != [] ==> parsed.Rejected?)
      else
        text != [] && parsed.Accepted? && MembersOk(w.members, Array) &&
        var r := StoreElements(field.fieldType, before.items, parsed.children, text, relaxed, depth, 0);
        (if r.Err? then Err(r.code) else Ok(Many(|parsed.children|, r.value))) == Filling(field, before, w.members, relaxed, depth)
  {
    hide ParseText, PrintMembers, MembersOk, ChildrenAt, StoreElements, ElementsOf, ItemFits, TypeOk, PolicyOk, AllWhitespace, Occurs, PrintValue, ValueOk,
      Content, Elements, UnitsValid, Filling;
    LoneArray(v);
    var w := v.members.member.value;
    if w.Empty? {
      assert w.ws + [] == w.ws;
      OnlySpace(w.ws);
    } else {
      MembersTextNotEmpty(w.members, Array);
      assert Enters(v) == 1 + Enters(w);
      ElementsParsed(field, before, w.ws, w.members, Elements(Content(v)), relaxed, depth);
    }
  }

  lemma CellStored(field: Field, before: Cell, owner: Owner, v: Value, t: Text, p: nat, relaxed: bool, depth: nat)
    requires FieldOk(field) && CellFits(field, before) && ValueOk(v) && Occurs(t, p, PrintValue(v)) && WithinLimit(0, Enters(v))
    ensures StoreCell(field, before, ChildAt(owner, v, p), t, relaxed, depth) == CellOf(field, before, v, relaxed, depth)
  {
    hide StoreArray, ArrayCell, StoreItem, ItemOf, ItemFits, TypeOk, PolicyOk, PrintValue, ValueOk, ChildAt, Occurs, UnitsValid, Enters;
    if field.isArray {
      ArrayStored(field, before, owner, v, t, p, relaxed, depth);
    } else {
      ItemStored(field.fieldType, before.item, owner, v, t, p, relaxed, depth);
    }
  }

  // --------------------------------------------------------- arrays of arrays

  predicate HasArray(ms: Members) {
    IsArray(ms.member.value) || (ms.More? && HasArray(ms.rest))
  }

  /** No field type takes an array as an element. */
  lemma {:induction false} ArrayElementRefused(fieldType: FieldType, items: seq<Item>, ms: Members, relaxed: bool, depth: nat, n: nat)
    requires TypeOk(fieldType) && MembersOk(ms, Array) && forall k | 0 <= k < |items| :: ItemFits(fieldType, items[k])
    requires HasArray(ms)
    ensures ElementsOf(fieldType, items, ms, relaxed, depth, n).Err?
    decreases ms
  {
    hide ItemFits, TypeOk, ValueOk, Unpacked;
    if n < |items| {
      var r := ItemOf(fieldType, items[n], ms.member.value, relaxed, depth);
      if r.Ok? {
        ArrayElementRefused(fieldType, items[n := r.value], ms.rest, relaxed, depth, n + 1);
      }
    }
  }

  /** An array with an array among its elements is stored exactly when that one is alone
      between the brackets and can be stored without the outer ones; nothing in it may
      be an array again. */
  lemma ArrayOfArrays(field: Field, before: Cell, owner: Owner, v: Value, t: Text, p: nat, relaxed: bool, depth: nat)
    requires FieldOk(field) && CellFits(field, before) && field.isArray && ValueOk(v) && Occurs(t, p, PrintValue(v))
    requires WithinLimit(0, Enters(v)) && IsArray(v) && v.Filled? && HasArray(v.members)
    ensures var r, w := StoreArray(field, before, ChildAt(owner, v, p), t, relaxed, depth), v.members.member.value;
      if v.ws == [] && v.members.Last? then
        ValueOk(w) && IsArray(w) && r == LoneCell(field, before, w, relaxed, depth) && (w.Filled? && HasArray(w.members) ==> r.Err?)
      else r.Err?
  {
    hide ParseText, PrintMembers, StoreArray, ElementsOf, ItemFits, TypeOk, PolicyOk, AllWhitespace, Occurs, PrintValue, ValueOk, MembersOk, ChildAt,
      UnitsValid, Enters;
    ArrayStored(field, before, owner, v, t, p, relaxed, depth);
    ArrayOk(v);
    ArrayElementRefused(field.fieldType, before.items, v.members, relaxed, depth, 0);
    var w := v.members.member.value;
    if v.members.Last? && w.Filled? && HasArray(w.members) {
      ArrayOk(w);
      ArrayElementRefused(field.fieldType, before.items, w.members, relaxed, depth, 0);
    }
  }

  // ---------------------------------------------------------------- documents

  /** The members with one of these names, in order. */
  function WantedMembers(ms: Members, keys: set<Text>): (r: seq<Member>)
    requires MembersOk(ms, Object)
    ensures ListOk(Object, r) && forall k | 0 <= k < |r| :: NameOf(r[k]) in keys
  {
    var first := if NameOf(ms.member) in keys then [ms.member] else [];
    if ms.Last? then first else first + WantedMembers(ms.rest, keys)
  }

  function ObjectMembers(v: Value, keys: set<Text>): (r: seq<Member>)
    requires ValueOk(v) && IsObject(v)
    ensures ListOk(Object, r) && forall k | 0 <= k < |r| :: NameOf(r[k]) in keys
  {
    if v.Filled? then WantedMembers(v.members, keys) else []
  }

  /** The bytes that the name of a member stands for. */
  function NameOf(m: Member): Text
    requires MemberOk(m, Object)
  {
    KeyBytes(m.key)
  }

  function MemberField(schema: Schema, m: Member): nat
    requires MemberOk(m, Object)
  {
    FieldIndex(schema.fields, NameOf(m))
  }

  /** The child is how the member `m` of the text is shown. */
  ghost predicate ShownAs(t: Text, child: Child, m: Member) {
    exists p: nat :: MemberOk(m, Object) && Occurs(t, p, PrintMember(m, Object)) && child == MemberChild(m, Object, p)
  }

  /** The name of a member is read back. */
  lemma MemberKeyRead(t: Text, m: Member, p: nat)
    requires MemberOk(m, Object) && Occurs(t, p, PrintMember(m, Object))
    ensures ChildKey(t, MemberChild(m, Object, p)) == NameOf(m)
    ensures Occurs(t, p + |PrintKey(m.key, Object)|, PrintValue(m.value))
    ensures MemberChild(m, Object, p) == ChildAt(KeyOwnerAt(m.key, p), m.value, p + |PrintKey(m.key, Object)|)
  {
    hide PrintValue, ValueOk, Occurs, AllWhitespace, Decoded, Utf8All, ChildAt, PrintChars;
    var key, x := m.key, PrintChars(m.key.chars);
    OccursConcat(t, p, PrintKey(key, Object), PrintValue(m.value) + m.ws);
    OccursConcat(t, p + |PrintKey(key, Object)|, PrintValue(m.value), m.ws);
    OccursConcat(t, p, Grammar.Quoted(key.chars), key.before + ([COLON] + key.after));
    OccursConcat(t, p, [QUOTE], x + [QUOTE]);
    OccursConcat(t, p + 1, x, [QUOTE]);
    OccursSliceIs(t, p + 1, x);
    DecodedKey(key.chars);
    OwnerOfChild(KeyOwnerAt(key, p), m.value, p + |PrintKey(key, Object)|);
  }

  lemma {:induction false} WantedShown(t: Text, ms: Members, i: nat, keys: set<Text>)
    requires MembersOk(ms, Object) && Occurs(t, i, PrintMembers(ms, Object))
    ensures var log, wanted := SelectedMembers(ms, i, keys), WantedMembers(ms, keys);
      |log| == |wanted| && forall k | 0 <= k < |log| :: ShownAs(t, log[k], wanted[k]) && Enters(wanted[k].value) <= MembersEnter(ms)
    decreases ms
  {
    hide PrintMember, MemberOk, Occurs, MemberChild, KeyBytes, Enters;
    if ms.More? {
      MoreOccurs(t, i, PrintMember(ms.member, Object), ms.gap, PrintMembers(ms.rest, Object));
      WantedShown(t, ms.rest, i + |PrintMember(ms.member, Object)| + 1 + |ms.gap|, keys);
    }
    assert ShownAs(t, MemberChild(ms.member, Object, i), ms.member);
  }

  lemma ObjectShown(d: Document, keys: set<Text>)
    requires DocumentOk(d) && IsObject(d.value)
    ensures var log, wanted := SelectedChildren(d, keys), ObjectMembers(d.value, keys);
      |log| == |wanted| &&
      forall k | 0 <= k < |log| :: ShownAs(PrintDocument(d), log[k], wanted[k]) && Enters(wanted[k].value) <= Enters(d.value)
  {
    hide PrintValue, PrintMembers, MembersOk, PrintDocument, SelectedMembers, WantedMembers, Occurs, ShownAs, AllWhitespace, MembersEnter;
    DocumentParts(d);
    var t, v, i := PrintDocument(d), d.value, |d.before|;
    if v.Filled? {
      ObjectParts(t, i, v);
      WantedShown(t, v.members, i + 1 + |v.ws|, keys);
    }
  }

  /** What the member `m` puts into its field. */
  function MemberCell(schema: Schema, cells: seq<Cell>, m: Member, relaxed: bool, depth: nat): Result<Cell>
    requires SchemaOk(schema) && ObjectFits(schema, cells) && MemberOk(m, Object) && NameOf(m) in FieldKeys(schema.fields)
  {
    var k := MemberField(schema, m);
    CellOf(schema.fields[k], cells[k], m.value, relaxed, depth)
  }

  lemma MemberStored(schema: Schema, cells: seq<Cell>, t: Text, child: Child, m: Member, relaxed: bool, depth: nat)
    requires SchemaOk(schema) && ObjectFits(schema, cells) && ShownAs(t, child, m) && MemberOk(m, Object) && WithinLimit(0, Enters(m.value))
    ensures ChildField(schema, t, child) == MemberField(schema, m)
    ensures var k := MemberField(schema, m);
      k < |schema.fields| ==>
        |cells| == |schema.fields| && FieldOk(schema.fields[k]) && CellFits(schema.fields[k], cells[k]) &&
        StoreCell(schema.fields[k], cells[k], child, t, relaxed, depth) == CellOf(schema.fields[k], cells[k], m.value, relaxed, depth)
  {
    hide StoreCell, CellOf, FieldOk, CellFits, SchemaOk, ObjectFits, PrintMember, PrintKey, PrintValue, ValueOk, Occurs, MemberChild, ChildAt, ChildKey,
      KeyBytes, FieldIndex, Enters, AllWhitespace, CharsOk;
    var p: nat :| Occurs(t, p, PrintMember(m, Object)) && child == MemberChild(m, Object, p);
    MemberKeyRead(t, m, p);
    var k := MemberField(schema, m);
    if k < |schema.fields| {
      FieldAndCell(schema, cells, k);
      CellStored(schema.fields[k], cells[k], KeyOwnerAt(m.key, p), m.value, t, p + |PrintKey(m.key, Object)|, relaxed, depth);
    }
  }

  predicate Named(ms: seq<Member>, key: Text)
    requires ListOk(Object, ms)
  {
    exists i | 0 <= i < |ms| :: NameOf(ms[i]) == key
  }

  predicate AllNamed(schema: Schema, ms: seq<Member>) {
    ListOk(Object, ms) && forall i | 0 <= i < |ms| :: NameOf(ms[i]) in FieldKeys(schema.fields)
  }

  /** No name occurs twice, every value can be stored, and no required name is missing. */
  ghost predicate MembersFine(schema: Schema, before: seq<Cell>, ms: seq<Member>, depth: nat)
    requires SchemaOk(schema) && ObjectFits(schema, before) && AllNamed(schema, ms)
  {
    (forall i, j | 0 <= i < |ms| && 0 <= j < |ms| && NameOf(ms[i]) == NameOf(ms[j]) :: i == j) &&
    (forall i | 0 <= i < |ms| :: MemberCell(schema, Defaults(schema, before), ms[i], false, depth).Ok?) &&
    forall k | 0 <= k < |schema.fields| && schema.fields[k].policy.Required? :: Named(ms, schema.fields[k].key)
  }

  /** A field holds what its member puts there, or its default. */
  ghost predicate MembersHeld(schema: Schema, before: seq<Cell>, ms: seq<Member>, depth: nat, result: seq<Cell>)
    requires SchemaOk(schema) && ObjectFits(schema, before) && AllNamed(schema, ms)
  {
    |result| == |schema.fields| &&
    (forall i | 0 <= i < |ms| :: MemberCell(schema, Defaults(schema, before), ms[i], false, depth) == Ok(result[MemberField(schema, ms[i])])) &&
    forall k | 0 <= k < |result| && !Named(ms, schema.fields[k].key) :: result[k] == Defaults(schema, before)[k]
  }

  lemma SameField(schema: Schema, a: Member, b: Member)
    requires MemberOk(a, Object) && MemberOk(b, Object) && NameOf(a) in FieldKeys(schema.fields)
    ensures MemberField(schema, a) == MemberField(schema, b) <==> NameOf(a) == NameOf(b)
  {
    hide MemberOk, KeyBytes;
  }

  lemma FieldOfName(schema: Schema, m: Member, k: nat)
    requires DistinctKeys(schema.fields) && MemberOk(m, Object) && k < |schema.fields|
    ensures MemberField(schema, m) == k <==> NameOf(m) == schema.fields[k].key
  {
    hide MemberOk, KeyBytes;
    IndexOfField(schema.fields, k);
  }

  /** The log of a run and the members it shows say the same. */
  lemma LogIsMembers(schema: Schema, t: Text, before: seq<Cell>, depth: nat, log: seq<Child>, ms: seq<Member>)
    requires SchemaOk(schema) && ObjectFits(schema, before) && AllNamed(schema, ms) && |log| == |ms| && Known(schema, t, log)
    requires forall k | 0 <= k < |log| :: ShownAs(t, log[k], ms[k]) && WithinLimit(0, Enters(ms[k].value))
    ensures forall k | 0 <= k < |schema.fields| :: Occurred(schema, t, log, k) <==> Named(ms, schema.fields[k].key)
    ensures forall i | 0 <= i < |ms| ::
      ChildField(schema, t, log[i]) == MemberField(schema, ms[i]) &&
      UnpackSpec.Converted(schema, t, false, depth, Defaults(schema, before), log, i) == MemberCell(schema, Defaults(schema, before), ms[i], false, depth)
  {
    hide SchemaOk, ObjectFits, ShownAs, MemberOk, KeyBytes, StoreCell, CellOf, ChildField, MemberField, Enters, Defaults, FieldOk, CellFits, NameOf;
    assert DistinctKeys(schema.fields) by {
      KeysDiffer(schema);
    }
    forall i | 0 <= i < |ms|
      ensures ChildField(schema, t, log[i]) == MemberField(schema, ms[i])
      ensures UnpackSpec.Converted(schema, t, false, depth, Defaults(schema, before), log, i) == MemberCell(schema, Defaults(schema, before), ms[i], false, depth)
    {
      MemberStored(schema, Defaults(schema, before), t, log[i], ms[i], false, depth);
    }
    forall k | 0 <= k < |schema.fields| ensures Occurred(schema, t, log, k) <==> Named(ms, schema.fields[k].key) {
      forall i | 0 <= i < |ms| ensures ChildField(schema, t, log[i]) == k <==> NameOf(ms[i]) == schema.fields[k].key {
        FieldOfName(schema, ms[i], k);
      }
    }
  }

  lemma KeysDiffer(schema: Schema)
    requires SchemaOk(schema)
    ensures DistinctKeys(schema.fields)
  {
    hide FieldOk;
  }

  lemma FineIsFine(schema: Schema, t: Text, before: seq<Cell>, depth: nat, log: seq<Child>, ms: seq<Member>)
    requires SchemaOk(schema) && ObjectFits(schema, before) && AllNamed(schema, ms) && |log| == |ms| && Known(schema, t, log)
    requires forall k | 0 <= k < |log| :: ShownAs(t, log[k], ms[k]) && WithinLimit(0, Enters(ms[k].value))
    ensures StrictlyFine(schema, t, depth, before, log) <==> MembersFine(schema, before, ms, depth)
    ensures forall result | HoldsValues(schema, t, false, depth, Defaults(schema, before), log, result) && ObjectFits(schema, result) ::
      MembersHeld(schema, before, ms, depth, result)
  {
    hide SchemaOk, ObjectFits, ShownAs, MemberOk, KeyBytes, UnpackSpec.Converted, MemberCell, ChildField, MemberField, Enters, Defaults, Occurred, Named, NameOf,
      FieldOk, CellFits;
    LogIsMembers(schema, t, before, depth, log, ms);
    forall i, j | 0 <= i < |ms| && 0 <= j < |ms|
      ensures ChildField(schema, t, log[i]) == ChildField(schema, t, log[j]) <==> NameOf(ms[i]) == NameOf(ms[j])
    {
      SameField(schema, ms[i], ms[j]);
    }
    forall result | ObjectFits(schema, result) ensures |result| == |schema.fields| {
      FitsLength(schema, result);
    }
    FitsLength(schema, Defaults(schema, before));
  }

  lemma FitsLength(schema: Schema, cells: seq<Cell>)
    requires ObjectFits(schema, cells)
    ensures |cells| == |schema.fields|
  {
  }

  /** Unpacking a document strictly: it succeeds exactly when no name of the schema
      occurs twice, every value under such a name can be stored, and no required name is
      missing; each field then holds its member's value or its default. */
  lemma DocumentUnpacked(schema: Schema, d: Document, before: seq<Cell>, depth: nat)
    requires SchemaOk(schema) && ObjectFits(schema, before) && depth < MAX_NESTING
    requires DocumentOk(d) && IsObject(d.value) && WithinLimit(0, Enters(d.value))
    ensures var ms := ObjectMembers(d.value, FieldKeys(schema.fields));
      var r := Unpacked(schema, PrintDocument(d), before, false, depth);
      (r.Ok? <==> MembersFine(schema, before, ms, depth)) && (r.Ok? ==> MembersHeld(schema, before, ms, depth, r.value))
  {
    hide SchemaOk, ObjectFits, Unpacked, StrictlyFine, HoldsValues, Defaults, PrintDocument, SelectedChildren, FieldKeys, PrintValue, Known, ShownAs,
      MembersFine, MembersHeld, ObjectMembers, Enters, MemberOk, NameOf;
    var keys := FieldKeys(schema.fields);
    DocumentRun(schema, d, before, depth);
    ObjectShown(d, keys);
    FineIsFine(schema, PrintDocument(d), before, depth, SelectedChildren(d, keys), ObjectMembers(d.value, keys));
  }

  /** The text is this document, an object within the depth limit. */
  predicate IsObjectText(t: Text, d: Document) {
    DocumentOk(d) && PrintDocument(d) == t && IsObject(d.value) && WithinLimit(0, Enters(d.value))
  }

  /** Strict unpacking of any text: it succeeds exactly on a document whose root is an
      object within the depth limit with fine members, and then holds their values. */
  lemma TextUnpacked(schema: Schema, t: Text, before: seq<Cell>, depth: nat)
    requires SchemaOk(schema) && ObjectFits(schema, before) && depth < MAX_NESTING
    ensures var r, keys := Unpacked(schema, t, before, false, depth), FieldKeys(schema.fields);
      (r.Ok? <==> exists d :: IsObjectText(t, d) && MembersFine(schema, before, ObjectMembers(d.value, keys), depth)) &&
      forall d | r.Ok? && IsObjectText(t, d) :: MembersHeld(schema, before, ObjectMembers(d.value, keys), depth, r.value)
  {
    hide ParseText, SkipWs, SchemaOk, ObjectFits, Unpacked, MembersFine, MembersHeld, PrintDocument, PrintValue, ValueOk, FieldKeys, ObjectMembers, Enters,
      AllWhitespace, RootChildren;
    forall d | IsObjectText(t, d)
      ensures Unpacked(schema, t, before, false, depth).Ok? <==> MembersFine(schema, before, ObjectMembers(d.value, FieldKeys(schema.fields)), depth)
      ensures Unpacked(schema, t, before, false, depth).Ok? ==>
        MembersHeld(schema, before, ObjectMembers(d.value, FieldKeys(schema.fields)), depth, Unpacked(schema, t, before, false, depth).value)
    {
      DocumentUnpacked(schema, d, before, depth);
    }
    if Unpacked(schema, t, before, false, depth).Ok? {
      OkIsAccepted(schema, t, before, depth);
      var front, v, after := ObjectSound(t, 0);
      var d := Document(front, v, after);
      DocumentParsed(d);
      assert PrintDocument(d) == t by {
        DocumentText(d);
      }
      assert IsObjectText(t, d);
    }
  }

  lemma DocumentText(d: Document)
    requires DocumentOk(d)
    ensures PrintDocument(d) == d.before + (PrintValue(d.value) + d.after)
  {
  }

  lemma OkIsAccepted(schema: Schema, t: Text, before: seq<Cell>, depth: nat)
    requires SchemaOk(schema) && ObjectFits(schema, before) && Unpacked(schema, t, before, false, depth).Ok?
    ensures At(t, SkipWs(t, 0)) == LBRACE && ParseText(t, AutoMode, 0).Accepted?
  {
    hide ParseText, SkipWs, SchemaOk, ObjectFits, Until, Finished, Begun;
  }

  // ------------------------------------------------------------- an input

  const NESTED: Text := [LBRACE, QUOTE, 0x61, QUOTE, COLON, LBRACKET, LBRACKET, 0x31, RBRACKET, RBRACKET, RBRACE]

  function OneValue(): (v: Value)
    ensures ValueOk(v) && PrintValue(v) == [0x31]
  {
    IntegerRoundTrip(1);
    Num(IntegerNumber(1))
  }

  /** The array whose only element is `v`. */
  function Around(v: Value): (r: Value)
    requires ValueOk(v)
    ensures ValueOk(r) && IsArray(r) && PrintValue(r) == [LBRACKET] + PrintValue(v) + [RBRACKET] && Enters(r) == 1 + Enters(v)
  {
    var m := Member(NoKey, v, []);
    assert PrintMember(m, Array) == [] + (PrintValue(v) + []) == PrintValue(v);
    var r := Filled(Array, [], Last(m));
    assert PrintValue(r) == [LBRACKET] + ([] + (PrintMember(m, Array) + [RBRACKET]));
    r
  }

  function NameKey(): (key: Key)
    ensures KeyOk(key, Object) && PrintKey(key, Object) == [QUOTE, 0x61, QUOTE, COLON] && KeyBytes(key) == [0x61]
  {
    NoSpaceAllWhitespace();
    var chars := [Plain(0x61)];
    assert chars[1..] == [];
    assert PrintChars(chars) == PrintChar(chars[0]) + PrintChars([]) == [0x61];
    assert ScalarsOf(chars) == [0x61];
    assert Utf8All([0x61]) == Utf8(0x61) + Utf8All([]) == [0x61];
    Key(chars, [], [])
  }

  function NestedMember(): (m: Member)
    ensures MemberOk(m, Object) && NameOf(m) == [0x61] && m.value == Around(Around(OneValue()))
    ensures PrintMember(m, Object) == NESTED[1..|NESTED| - 1]
  {
    hide PrintKey, PrintValue, KeyOk, ValueOk, KeyBytes;
    NoSpaceAllWhitespace();
    var v := Around(Around(OneValue()));
    assert [LBRACKET] + ([LBRACKET] + [0x31] + [RBRACKET]) + [RBRACKET] == [LBRACKET, LBRACKET, 0x31, RBRACKET, RBRACKET];
    var x := PrintValue(v);
    assert [QUOTE, 0x61, QUOTE, COLON] + (x + []) == NESTED[1..|NESTED| - 1];
    Member(NameKey(), v, [])
  }

  function NestedObject(): (v: Value)
    ensures ValueOk(v) && IsObject(v) && PrintValue(v) == NESTED && Enters(v) == 3
    ensures v == Filled(Object, [], Last(NestedMember()))
  {
    hide PrintMember, MemberOk, NameOf;
    NoSpaceAllWhitespace();
    var m := NestedMember();
    assert [LBRACE] + ([] + (PrintMember(m, Object) + [RBRACE])) == NESTED;
    Filled(Object, [], Last(m))
  }

  function NestedDocument(): (d: Document)
    ensures DocumentOk(d) && PrintDocument(d) == NESTED && d.value == NestedObject()
  {
    hide PrintValue, ValueOk;
    NoSpaceAllWhitespace();
    assert [] + (PrintValue(NestedObject()) + []) == PrintValue(NestedObject());
    Document([], NestedObject(), [])
  }

  lemma NestedWanted(keys: set<Text>)
    requires [0x61] in keys
    ensures ObjectMembers(NestedObject(), keys) == [NestedMember()]
  {
    hide PrintMember, PrintValue;
  }

  lemma NestedCell(field: Field, before: Cell)
    requires FieldOk(field) && CellFits(field, before) && field.isArray && field.fieldType.IntType?
    ensures before.items != []
    ensures CellOf(field, before, Around(Around(OneValue())), false, 0) == Ok(Many(1, before.items[0 := Int(1)]))
  {
    hide PolicyOk, UnitsValid, PrintValue;
    IntegerRoundTrip(1);
  }

  /** `{"a":[[1]]}` is unpacked into an array of integers as if it were `{"a":[1]}`. */
  lemma NestedArrayStored(schema: Schema, before: seq<Cell>)
    requires SchemaOk(schema) && ObjectFits(schema, before) && |schema.fields| == 1 && schema.fields[0].key == [0x61]
    requires schema.fields[0].isArray && schema.fields[0].fieldType.IntType?
    ensures CellFits(schema.fields[0], before[0]) && before[0].items != []
    ensures Unpacked(schema, NESTED, before, false, 0) == Ok([Many(1, before[0].items[0 := Int(1)])])
  {
    hide Unpacked, Utf8All, UnitsValid, FieldOk, CellFits, CellOf, ValueOk, PrintValue, PrintDocument, NameOf, MemberOk;
    var field, m := schema.fields[0], NestedMember();
    FieldAndCell(schema, before, 0);
    DocumentUnpacked(schema, NestedDocument(), before, 0);
    assert FieldKeys(schema.fields) == {[0x61]};
    FieldOfName(schema, m, 0);
    FieldAndCell(schema, Defaults(schema, before), 0);
    NestedCell(field, Defaults(schema, before)[0]);
    SameItems(schema, before);
    NestedWanted(FieldKeys(schema.fields));
    var ms := ObjectMembers(NestedDocument().value, FieldKeys(schema.fields));
    assert NameOf(ms[0]) == field.key;
    var result := Unpacked(schema, NESTED, before, false, 0);
    assert MembersFine(schema, before, ms, 0);
    assert MemberCell(schema, Defaults(schema, before), ms[0], false, 0) == Ok(result.value[0]);
    assert result.value == [result.value[0]];
  }

  lemma SameItems(schema: Schema, before: seq<Cell>)
    requires SchemaOk(schema) && ObjectFits(schema, before) && |before| == |schema.fields| >= 1 && schema.fields[0].isArray
    ensures |Defaults(schema, before)| >= 1 && CellFits(schema.fields[0], before[0])
    ensures FieldOk(schema.fields[0]) && CellFits(schema.fields[0], Defaults(schema, before)[0])
    ensures Defaults(schema, before)[0].items == before[0].items
  {
    hide UnitsValid, TypeOk, ItemFits;
  }
}
