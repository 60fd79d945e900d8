/** The methods of kason_pack: what reaches the writer is the printed syntax tree. */
module Packer {
  import opened Bytes
  import opened JsonString
  import opened Number
  import opened Grammar
  import opened UnitText
  import opened JsonWriter
  import opened Schemas
  import opened Pack
  import opened SchemaIndex
  import W = Writer

  // --------------------------------------------------------- what was emitted

  /** Why `text` did not get behind `n` bytes: it cannot be produced, or there is no
      room for it, or the callback refuses. */
  ghost predicate Stuck(w: W.Writer, n: nat, r: W.Status, text: Result<Text>)
    reads w
  {
    if text.Err? then r == text.code || w.Blocked(r, |w.written| + |w.refused|)
    else w.Blocked(r, n + |text.value|)
  }

  ghost predicate Emitted(w: W.Writer, before: Text, r: W.Status, text: Result<Text>)
    reads w, w.buffer, w.scratch
  {
    w.Valid() &&
    if r == W.Success then w.status == W.Success && text.Ok? && w.written == before + text.value
    else Stuck(w, |before|, r, text)
  }

  function TextOf(v: Result<Value>): Result<Text>
    requires v.Ok? ==> ValueOk(v.value)
  {
    if v.Err? then Err(v.code) else Ok(PrintValue(v.value))
  }

  /** A member behind `separator`. */
  function MemberText(separator: Text, key: Key, kind: Kind, v: Result<Value>): Result<Text>
    requires KeyOk(key, kind) && (v.Ok? ==> ValueOk(v.value))
  {
    if v.Err? then Err(v.code) else Ok(separator + PrintMember(Member(key, v.value, []), kind))
  }

  lemma StuckPart(w: W.Writer, n: nat, r: W.Status, part: nat, text: Result<Text>)
    requires w.Blocked(r, n + part) && (text.Ok? ==> part <= |text.value|)
    ensures Stuck(w, n, r, text)
  {
  }

  // ------------------------------------------------------------------ scalars

  lemma IntegerPacked(fieldType: FieldType, item: Item)
    requires ItemFits(fieldType, item) && !fieldType.StructType? && !fieldType.TextType? && !fieldType.BoolType?
    ensures TextOf(PackScalar(fieldType, item)) == Ok(IntegerText(item.value))
  {
    hide IntegerText, NumberOk, PrintNumber;
    IntegerRoundTrip(item.value);
  }

  lemma BoolPacked(item: Item)
    requires ItemFits(BoolType, item)
    ensures TextOf(PackScalar(BoolType, item)) ==
      if item.value == 1 then Ok(TRUE) else if item.value == 0 then Ok(FALSE) else Err(W.TypeError)
  {
  }

  /** kason_schema_pack_scalar. */
  method EmitScalar(w: W.Writer, fieldType: FieldType, item: Item) returns (r: W.Status)
    requires w.Valid() && w.status == W.Success && ItemFits(fieldType, item) && !fieldType.StructType?
    modifies w, w.buffer, w.scratch
    ensures w.earlier == old(w.earlier) && Emitted(w, old(w.written), r, TextOf(PackScalar(fieldType, item)))
  {
    hide W.Writer.Valid, W.Writer.Blocked, IntegerText, PackScalar, TextOf;
    if fieldType.BoolType? {
      BoolPacked(item);
      if item.value != 0 && item.value != 1 {
        return W.TypeError;
      }
      r := w.Write(if item.value == 1 then TRUE else FALSE);
    } else if fieldType.TextType? {
      r := EmitText(w, fieldType, item);
    } else {
      IntegerPacked(fieldType, item);
      if fieldType.IntType? || fieldType.Int64Type? {
        r := WriteSigned(w, item.value);
      } else {
        r := WriteUnsigned(w, item.value);
      }
    }
  }

  method EmitText(w: W.Writer, fieldType: FieldType, item: Item) returns (r: W.Status)
    requires w.Valid() && w.status == W.Success && ItemFits(fieldType, item) && fieldType.TextType?
    modifies w, w.buffer, w.scratch
    ensures w.earlier == old(w.earlier) && Emitted(w, old(w.written), r, TextOf(PackScalar(fieldType, item)))
  {
    hide W.Writer.Valid, W.Writer.Blocked, UnitScalarsFrom, UnitsValidFrom, PrintChars, WrittenChars;
    match fieldType.width {
      case W8 =>
        var length := BoundedLength(item.units);
        if length == |item.units| {
          return W.StringCapacity;
        }
        r := WriteJsonString(w, item.units[..length]);
      case W16 => r := WriteJsonString16(w, item.units);
      case W32 => r := WriteJsonString32(w, item.units);
    }
    ghost var n := |old(w.written)| + |QuotedText(UnitScalars(fieldType.width, CString(item.units)))|;
    if w.Blocked(r, n) {
      StillBlocked(w, r, n, n);
    }
  }

  // -------------------------------------------------------------------- lists

  /** The list whose members are `ms`, what `first` gives, and `rest`. */
  function Continued(ms: seq<Member>, key: Key, first: Result<Value>, rest: Result<seq<Member>>): Result<seq<Member>> {
    Pack.Before(ms, if first.Err? then Err(first.code) else Pack.Before([Member(key, first.value, [])], rest))
  }

  predicate ResultOk(kind: Kind, ms: Result<seq<Member>>) {
    ms.Ok? ==> ListOk(kind, ms.value)
  }

  function ListTexts(kind: Kind, whole: Result<seq<Member>>): Result<Text>
    requires ResultOk(kind, whole)
  {
    TextOf(ListResult(kind, whole))
  }

  /** The members `ms` of the list `whole` are written, the rest is still to come. */
  ghost predicate Emitting(w: W.Writer, before: Text, kind: Kind, ms: seq<Member>, rest: Result<seq<Member>>, whole: Result<seq<Member>>)
    reads w, w.buffer, w.scratch
  {
    w.Valid() && w.status == W.Success && ListOk(kind, ms) && ResultOk(kind, rest) && whole == Pack.Before(ms, rest) &&
    w.written == before + ([OpenOf(kind)] + ListText(kind, ms))
  }

  /** A member that got stuck leaves the list stuck. */
  lemma StuckInList(w: W.Writer, n: nat, r: W.Status, kind: Kind, ms: seq<Member>, key: Key, first: Result<Value>,
    rest: Result<seq<Member>>)
    requires ListOk(kind, ms) && KeyOk(key, kind) && (first.Ok? ==> ValueOk(first.value)) && ResultOk(kind, rest)
    requires Stuck(w, n + 1 + |ListText(kind, ms)|, r, MemberText(Separator(ms), key, kind, first))
    ensures ResultOk(kind, Continued(ms, key, first, rest))
    ensures Stuck(w, n, r, ListTexts(kind, Continued(ms, key, first, rest)))
  {
    hide W.Writer.Blocked, PrintMember, ListText, ValueOk, KeyOk, PrintValue, ListOf;
    var whole := Continued(ms, key, first, rest);
    if first.Ok? {
      var m := Member(key, first.value, []);
      var part := 1 + |ListText(kind, ms)| + |Separator(ms) + PrintMember(m, kind)|;
      ListTextSnoc(kind, ms, m);
      if rest.Ok? {
        ListTextGrows(kind, ms + [m], rest.value);
        assert ms + ([m] + rest.value) == ms + [m] + rest.value;
        ListPrinted(kind, whole.value);
        StillBlocked(w, r, n + part, n + |PrintValue(ListOf(kind, whole.value))|);
      } else {
        StillBlocked(w, r, n + part, n + part);
      }
    }
  }

  lemma StillBlocked(w: W.Writer, r: W.Status, n: nat, m: nat)
    requires w.Blocked(r, n)
    ensures w.Blocked(r, |w.written| + |w.refused|) && (n <= m ==> w.Blocked(r, m))
  {
  }

  /** A member that was written joins the list. */
  lemma MemberJoins(kind: Kind, ms: seq<Member>, key: Key, v: Value, rest: Result<seq<Member>>, before: Text)
    requires ListOk(kind, ms) && KeyOk(key, kind) && ValueOk(v)
    ensures var m := Member(key, v, []);
      ListOk(kind, ms + [m]) && Continued(ms, key, Ok(v), rest) == Pack.Before(ms + [m], rest) &&
      before + ([OpenOf(kind)] + ListText(kind, ms)) + MemberText(Separator(ms), key, kind, Ok(v)).value ==
        before + ([OpenOf(kind)] + ListText(kind, ms + [m]))
  {
    hide PrintMember, ListText, ValueOk, KeyOk, PrintValue;
    var m := Member(key, v, []);
    ListTextSnoc(kind, ms, m);
    if rest.Ok? {
      assert ms + ([m] + rest.value) == ms + [m] + rest.value;
    }
    var x := ListText(kind, ms);
    var y := PrintMember(m, kind);
    assert before + ([OpenOf(kind)] + x) + (Separator(ms) + y) == before + ([OpenOf(kind)] + (x + Separator(ms) + y));
  }

  /** The opening bracket. */
  method EmitOpening(w: W.Writer, kind: Kind, ghost whole: Result<seq<Member>>) returns (r: W.Status)
    requires w.Valid() && w.status == W.Success && ResultOk(kind, whole)
    modifies w, w.buffer, w.scratch
    ensures w.earlier == old(w.earlier)
    ensures if r == W.Success then Emitting(w, old(w.written), kind, [], whole, whole)
      else w.Valid() && Stuck(w, |old(w.written)|, r, ListTexts(kind, whole))
  {
    hide W.Writer.Valid, W.Writer.Blocked, ListOk, PrintValue, ListOf;
    ListTextEmpty(kind);
    if whole.Ok? {
      ListPrinted(kind, whole.value);
      assert [] + whole.value == whole.value;
    }
    assert [OpenOf(kind)] + [] == [OpenOf(kind)];
    ghost var n := |w.written|;
    r := w.Write([OpenOf(kind)]);
    if r != W.Success {
      StuckPart(w, n, r, 1, ListTexts(kind, whole));
    }
  }

  /** The closing bracket. */
  method EmitClosing(w: W.Writer, kind: Kind, ghost before: Text, ghost ms: seq<Member>, ghost whole: Result<seq<Member>>)
    returns (r: W.Status)
    requires Emitting(w, before, kind, ms, Ok([]), whole) && ResultOk(kind, whole)
    modifies w, w.buffer, w.scratch
    ensures w.earlier == old(w.earlier) && Emitted(w, before, r, ListTexts(kind, whole))
  {
    hide W.Writer.Valid, W.Writer.Blocked, ListOk, PrintValue, ListOf, ListText;
    assert ms + [] == ms;
    ListPrinted(kind, ms);
    ghost var n := |w.written|;
    r := w.Write([CloseOf(kind)]);
    if r == W.Success {
      var x := ListText(kind, ms);
      assert before + ([OpenOf(kind)] + x) + [CloseOf(kind)] == before + ([OpenOf(kind)] + x + [CloseOf(kind)]);
    }
  }

  /** The comma in front of every member but the first. */
  method EmitSeparator(w: W.Writer, emitted: bool, ghost ms: seq<Member>) returns (r: W.Status)
    requires w.Valid() && w.status == W.Success && emitted == (ms != [])
    modifies w, w.buffer, w.scratch
    ensures w.earlier == old(w.earlier) && Emitted(w, old(w.written), r, Ok(Separator(ms)))
  {
    if emitted {
      r := w.Write([COMMA]);
    } else {
      assert w.written + [] == w.written;
      r := W.Success;
    }
  }

  // ------------------------------------------------------------------ members

  lemma ElementText(separator: Text, v: Value)
    requires ValueOk(v)
    ensures MemberText(separator, NoKey, Array, Ok(v)) == Ok(separator + PrintValue(v))
  {
    hide PrintValue;
    assert [] + (PrintValue(v) + []) == PrintValue(v);
  }

  lemma FieldText(separator: Text, field: Field, v: Value)
    requires FieldOk(field) && ValueOk(v)
    ensures MemberText(separator, FieldKey(field), Object, Ok(v)) ==
      Ok(separator + QuotedText(UnitScalars(W8, field.key)) + [COLON] + PrintValue(v))
  {
    hide PrintValue, PrintChars, WrittenChars, UnitScalars;
    var q := QuotedText(UnitScalars(W8, field.key));
    assert PrintKey(FieldKey(field), Object) == q + ([] + ([COLON] + []));
    assert separator + ((q + ([] + ([COLON] + []))) + (PrintValue(v) + [])) == separator + q + [COLON] + PrintValue(v);
  }

  /** What is stuck behind a part already written is stuck as a whole. */
  lemma StuckBehind(w: W.Writer, n: nat, part: nat, r: W.Status, text: Result<Text>, whole: Result<Text>)
    requires Stuck(w, n + part, r, text) && (text.Err? ==> whole == text) && (whole.Ok? ==> part + |text.value| <= |whole.value|)
    ensures Stuck(w, n, r, whole)
  {
    hide W.Writer.Blocked;
    if text.Ok? {
      StillBlocked(w, r, n + part + |text.value|, if whole.Ok? then n + |whole.value| else 0);
    }
  }

  /** A structure or a scalar. */
  method EmitItem(w: W.Writer, fieldType: FieldType, item: Item, omit: bool, depth: nat) returns (r: W.Status)
    requires w.Valid() && w.status == W.Success && TypeOk(fieldType) && ItemFits(fieldType, item)
    modifies w, w.buffer, w.scratch
    ensures w.earlier == old(w.earlier) && Emitted(w, old(w.written), r, TextOf(PackItem(fieldType, item, omit, depth)))
    decreases fieldType, 1
  {
    hide Emitted, TextOf, PackObject, PackScalar, W.Writer.Valid;
    if fieldType.StructType? {
      r := EmitObject(w, fieldType.schema, item.members, omit, depth + 1);
    } else {
      r := EmitScalar(w, fieldType, item);
    }
  }

  /** An array element behind its comma. */
  method EmitElement(w: W.Writer, fieldType: FieldType, item: Item, omit: bool, depth: nat, emitted: bool, ghost ms: seq<Member>)
    returns (r: W.Status)
    requires w.Valid() && w.status == W.Success && TypeOk(fieldType) && ItemFits(fieldType, item) && emitted == (ms != [])
    modifies w, w.buffer, w.scratch
    ensures w.earlier == old(w.earlier)
    ensures Emitted(w, old(w.written), r, MemberText(Separator(ms), NoKey, Array, PackItem(fieldType, item, omit, depth)))
    decreases fieldType, 2
  {
    hide PackItem, W.Writer.Valid, W.Writer.Blocked, PrintValue, ValueOk, ItemFits, TypeOk;
    ghost var before, v := w.written, PackItem(fieldType, item, omit, depth);
    ghost var whole := MemberText(Separator(ms), NoKey, Array, v);
    if v.Ok? {
      ElementText(Separator(ms), v.value);
    }
    r := EmitSeparator(w, emitted, ms);
    if r != W.Success {
      StuckPart(w, |before|, r, |Separator(ms)|, whole);
      return;
    }
    r := EmitItem(w, fieldType, item, omit, depth);
    if r != W.Success {
      StuckBehind(w, |before|, |Separator(ms)|, r, TextOf(v), whole);
    }
  }

  /** The elements of an array with their brackets. */
  method EmitItems(w: W.Writer, fieldType: FieldType, items: seq<Item>, omit: bool, depth: nat) returns (r: W.Status)
    requires w.Valid() && w.status == W.Success && TypeOk(fieldType) && forall j | 0 <= j < |items| :: ItemFits(fieldType, items[j])
    modifies w, w.buffer, w.scratch
    ensures w.earlier == old(w.earlier)
    ensures Emitted(w, old(w.written), r, ListTexts(Array, PackItems(fieldType, items, omit, depth, 0)))
    decreases fieldType, 3
  {
    hide PackItem, PackItems, W.Writer.Valid, W.Writer.Blocked, ValueOk, ItemFits, TypeOk, Emitted, Emitting, ListOk, Stuck, ListTexts, Continued;
    ghost var before, whole := w.written, PackItems(fieldType, items, omit, depth, 0);
    ghost var ms: seq<Member> := [];
    r := EmitOpening(w, Array, whole);
    if r != W.Success {
      StuckIsEmitted(w, before, r, ListTexts(Array, whole));
      return;
    }
    for i := 0 to |items|
      invariant |ms| == i && w.earlier == old(w.earlier)
      invariant Emitting(w, before, Array, ms, PackItems(fieldType, items, omit, depth, i), whole)
    {
      ghost var v, rest := PackItem(fieldType, items[i], omit, depth), PackItems(fieldType, items, omit, depth, i + 1);
      ItemsStep(fieldType, items, omit, depth, i, ms);
      EmittingIs(w, before, Array, ms, PackItems(fieldType, items, omit, depth, i), whole);
      ghost var so := w.written;
      r := EmitElement(w, fieldType, items[i], omit, depth, i > 0, ms);
      AfterMember(w, before, so, r, Array, ms, NoKey, v, rest, whole);
      if r != W.Success {
        return;
      }
      ms := ms + [Member(NoKey, v.value, [])];
    }
    ItemsEnd(fieldType, items, omit, depth);
    r := EmitClosing(w, Array, before, ms, whole);
  }

  lemma ItemsStep(fieldType: FieldType, items: seq<Item>, omit: bool, depth: nat, k: nat, ms: seq<Member>)
    requires TypeOk(fieldType) && k < |items| && forall j | 0 <= j < |items| :: ItemFits(fieldType, items[j])
    ensures Pack.Before(ms, PackItems(fieldType, items, omit, depth, k)) ==
      Continued(ms, NoKey, PackItem(fieldType, items[k], omit, depth), PackItems(fieldType, items, omit, depth, k + 1))
  {
    hide PackItem, TypeOk, ItemFits;
  }

  lemma ItemsEnd(fieldType: FieldType, items: seq<Item>, omit: bool, depth: nat)
    requires TypeOk(fieldType) && forall j | 0 <= j < |items| :: ItemFits(fieldType, items[j])
    ensures PackItems(fieldType, items, omit, depth, |items|) == Ok([])
  {
  }

  lemma EmittingIs(w: W.Writer, before: Text, kind: Kind, ms: seq<Member>, rest: Result<seq<Member>>, whole: Result<seq<Member>>)
    requires Emitting(w, before, kind, ms, rest, whole)
    ensures w.Valid() && w.status == W.Success && ListOk(kind, ms) && ResultOk(kind, rest) && whole == Pack.Before(ms, rest)
    ensures w.written == before + ([OpenOf(kind)] + ListText(kind, ms))
  {
  }

  lemma StuckIsEmitted(w: W.Writer, before: Text, r: W.Status, text: Result<Text>)
    requires w.Valid() && r != W.Success && Stuck(w, |before|, r, text)
    ensures Emitted(w, before, r, text)
  {
  }

  /** One member later: the list goes on, or it is stuck. */
  lemma AfterMember(w: W.Writer, before: Text, so: Text, r: W.Status, kind: Kind, ms: seq<Member>, key: Key, v: Result<Value>,
    rest: Result<seq<Member>>, whole: Result<seq<Member>>)
    requires ListOk(kind, ms) && KeyOk(key, kind) && (v.Ok? ==> ValueOk(v.value)) && ResultOk(kind, rest)
    requires whole == Continued(ms, key, v, rest) && ResultOk(kind, whole)
    requires so == before + ([OpenOf(kind)] + ListText(kind, ms))
    requires Emitted(w, so, r, MemberText(Separator(ms), key, kind, v))
    ensures r == W.Success ==> v.Ok? && Emitting(w, before, kind, ms + [Member(key, v.value, [])], rest, whole)
    ensures r != W.Success ==> Emitted(w, before, r, ListTexts(kind, whole))
  {
    hide W.Writer.Valid, ListOk, ListText, ValueOk, KeyOk, MemberText, ListTexts, Continued, Stuck;
    if r == W.Success {
      MemberOnlyIfDone(Separator(ms), key, kind, v);
      MemberJoins(kind, ms, key, v.value, rest, before);
    } else {
      StuckInList(w, |before|, r, kind, ms, key, v, rest);
    }
  }

  lemma MemberOnlyIfDone(separator: Text, key: Key, kind: Kind, v: Result<Value>)
    requires KeyOk(key, kind) && (v.Ok? ==> ValueOk(v.value))
    ensures MemberText(separator, key, kind, v).Ok? <==> v.Ok?
    ensures v.Err? ==> MemberText(separator, key, kind, v) == Err(v.code)
  {
  }

  /** An array, with its count checked, or a single value. */
  method EmitCell(w: W.Writer, field: Field, cell: Cell, omit: bool, depth: nat) returns (r: W.Status)
    requires w.Valid() && w.status == W.Success && FieldOk(field) && CellFits(field, cell)
    modifies w, w.buffer, w.scratch
    ensures w.earlier == old(w.earlier) && Emitted(w, old(w.written), r, TextOf(PackCell(field, cell, omit, depth)))
    decreases field, 0
  {
    hide PackItem, PackItems, W.Writer.Valid, TextOf, Emitted, TypeOk, ItemFits;
    if !field.isArray {
      r := EmitItem(w, field.fieldType, cell.item, omit, depth);
    } else if cell.count > field.capacity {
      FailIsEmitted(w, W.ArrayCapacity);
      return W.ArrayCapacity;
    } else {
      r := EmitItems(w, field.fieldType, cell.items[..cell.count], omit, depth);
    }
  }

  lemma FailIsEmitted(w: W.Writer, code: W.Status)
    requires w.Valid() && code != W.Success
    ensures Emitted(w, w.written, code, TextOf(Err(code)))
  {
  }

  /** The member of one field behind its comma. */
  method EmitField(w: W.Writer, field: Field, cell: Cell, omit: bool, depth: nat, emitted: bool, ghost ms: seq<Member>)
    returns (r: W.Status)
    requires w.Valid() && w.status == W.Success && FieldOk(field) && CellFits(field, cell) && emitted == (ms != [])
    modifies w, w.buffer, w.scratch
    ensures w.earlier == old(w.earlier)
    ensures Emitted(w, old(w.written), r, MemberText(Separator(ms), FieldKey(field), Object, PackCell(field, cell, omit, depth)))
    decreases field, 1
  {
    hide PackCell, W.Writer.Valid, W.Writer.Blocked, PrintValue, ValueOk, CellFits, QuotedText, UnitScalars, UnitsValid, FieldKey, KeyOk, TypeOk,
      MemberText, FieldOk;
    ghost var before, v := w.written, PackCell(field, cell, omit, depth);
    ghost var head := Separator(ms) + QuotedText(UnitScalars(W8, field.key)) + [COLON];
    ghost var whole := MemberText(Separator(ms), FieldKey(field), Object, v);
    MemberOnlyIfDone(Separator(ms), FieldKey(field), Object, v);
    if v.Ok? {
      FieldText(Separator(ms), field, v.value);
    }
    r := EmitKey(w, field, emitted, ms);
    if r != W.Success {
      StuckPart(w, |before|, r, |head|, whole);
      return;
    }
    r := EmitCell(w, field, cell, omit, depth);
    if r != W.Success {
      StuckBehind(w, |before|, |head|, r, TextOf(v), whole);
    }
  }

  /** The comma, the name of a field and its colon. */
  method EmitKey(w: W.Writer, field: Field, emitted: bool, ghost ms: seq<Member>) returns (r: W.Status)
    requires w.Valid() && w.status == W.Success && FieldOk(field) && emitted == (ms != [])
    modifies w, w.buffer, w.scratch
    ensures w.earlier == old(w.earlier)
    ensures Emitted(w, old(w.written), r, Ok(Separator(ms) + QuotedText(UnitScalars(W8, field.key)) + [COLON]))
  {
    hide W.Writer.Valid, W.Writer.Blocked, QuotedText, UnitScalars, UnitsValid, TypeOk;
    ghost var n, q := |w.written|, QuotedText(UnitScalars(W8, field.key));
    ghost var whole: Result<Text> := Ok(Separator(ms) + q + [COLON]);
    r := EmitSeparator(w, emitted, ms);
    if r != W.Success {
      StuckPart(w, n, r, |Separator(ms)|, whole);
      return;
    }
    r := WriteJsonString(w, field.key);
    if r != W.Success {
      StuckPart(w, n, r, |Separator(ms)| + |q|, whole);
      return;
    }
    r := w.Write([COLON]);
  }

  /** kason_schema_pack_object. */
  method EmitObject(w: W.Writer, schema: Schema, cells: seq<Cell>, omit: bool, depth: nat) returns (r: W.Status)
    requires w.Valid() && w.status == W.Success && SchemaOk(schema) && ObjectFits(schema, cells)
    modifies w, w.buffer, w.scratch
    ensures w.earlier == old(w.earlier) && Emitted(w, old(w.written), r, TextOf(PackObject(schema, cells, omit, depth)))
    decreases schema, 1
  {
    hide PackCell, PackFields, IsDefault, W.Writer.Valid, W.Writer.Blocked, ValueOk, FieldOk, CellFits, Emitted, Emitting, ListOk, Stuck, ListTexts,
      Continued, FieldKey, KeyOk, TextOf;
    if depth >= MAX_NESTING {
      FailIsEmitted(w, W.NestingError);
      return W.NestingError;
    }
    ghost var before, whole := w.written, PackFields(schema, cells, omit, depth, 0);
    ghost var ms: seq<Member> := [];
    var emitted := false;
    ListIsText(Object, whole);
    r := EmitOpening(w, Object, whole);
    if r != W.Success {
      StuckIsEmitted(w, before, r, ListTexts(Object, whole));
      return;
    }
    for i := 0 to |schema.fields|
      invariant emitted == (ms != []) && w.earlier == old(w.earlier)
      invariant Emitting(w, before, Object, ms, PackFields(schema, cells, omit, depth, i), whole)
    {
      FieldsStep(schema, cells, omit, depth, i, ms);
      if !(omit && IsDefault(schema.fields[i], cells[i], depth)) {
        ghost var v := PackCell(schema.fields[i], cells[i], omit, depth);
        ghost var rest := PackFields(schema, cells, omit, depth, i + 1);
        EmittingIs(w, before, Object, ms, PackFields(schema, cells, omit, depth, i), whole);
        ghost var so := w.written;
        r := EmitField(w, schema.fields[i], cells[i], omit, depth, emitted, ms);
        AfterMember(w, before, so, r, Object, ms, FieldKey(schema.fields[i]), v, rest, whole);
        if r != W.Success {
          return;
        }
        ms := ms + [Member(FieldKey(schema.fields[i]), v.value, [])];
        emitted := true;
      }
    }
    FieldsEnd(schema, cells, omit, depth);
    r := EmitClosing(w, Object, before, ms, whole);
  }

  lemma ListIsText(kind: Kind, whole: Result<seq<Member>>)
    requires ResultOk(kind, whole)
    ensures TextOf(ListResult(kind, whole)) == ListTexts(kind, whole)
  {
  }

  lemma FieldsStep(schema: Schema, cells: seq<Cell>, omit: bool, depth: nat, k: nat, ms: seq<Member>)
    requires SchemaOk(schema) && ObjectFits(schema, cells) && k < |cells|
    ensures FieldOk(schema.fields[k]) && CellFits(schema.fields[k], cells[k])
    ensures var field, rest := schema.fields[k], PackFields(schema, cells, omit, depth, k + 1);
      (omit && IsDefault(field, cells[k], depth) ==> PackFields(schema, cells, omit, depth, k) == rest) &&
      (!(omit && IsDefault(field, cells[k], depth)) ==>
        Pack.Before(ms, PackFields(schema, cells, omit, depth, k)) ==
          Continued(ms, FieldKey(field), PackCell(field, cells[k], omit, depth), rest))
  {
    hide PackCell, IsDefault, FieldOk, CellFits;
    var rest := PackFields(schema, cells, omit, depth, k + 1);
    if rest.Ok? {
      assert [] + rest.value == rest.value;
    }
  }

  lemma FieldsEnd(schema: Schema, cells: seq<Cell>, omit: bool, depth: nat)
    requires SchemaOk(schema) && ObjectFits(schema, cells)
    ensures PackFields(schema, cells, omit, depth, |cells|) == Ok([])
  {
  }

  // ---------------------------------------------------------------- kason_pack

  /** The text of an object. */
  function Packed(schema: Schema, cells: seq<Cell>, omit: bool): Result<Text>
    requires SchemaOk(schema) && ObjectFits(schema, cells)
  {
    TextOf(PackObject(schema, cells, omit, 0))
  }

  lemma InitializedOk(index: Index)
    requires index.Valid()
    ensures SchemaOk(index.schema)
  {
  }

  /** kason_pack. All three modes agree: whatever is delivered, stored or counted is
      the printed tree; with a buffer it succeeds exactly when the capacity exceeds the
      length that counting gives. */
  method PackInto(w: W.Writer, index: Index?, cells: seq<Cell>, omit: bool) returns (r: W.Status)
    requires w.Valid() && (index != null ==> index.Valid() && ObjectFits(index.schema, cells))
    modifies w, w.buffer, w.scratch
    ensures w.Valid()
    ensures index == null ==> r == W.InvalidSchema && w.written == old(w.written)
    ensures index != null ==>
      var text := Packed(index.schema, cells, omit);
      (r == W.Success ==>
        text.Ok? && w.length == |text.value| &&
        (w.mode == W.BufferMode ==> w.buffer[..w.length] == text.value && w.buffer[w.length] == 0) &&
        (w.mode == W.CallbackMode ==> w.scratchLength == 0 && W.Joined(w.Chunks()) == text.value)) &&
      (text.Err? ==> r == text.code || w.Blocked(r, |w.written| + |w.refused|)) &&
      (text.Ok? && r != W.Success ==> w.Blocked(r, |text.value|)) &&
      (text.Ok? && w.mode == W.BufferMode ==> (r == W.Success <==> |text.value| < w.buffer.Length && |text.value| <= W.SIZE_MAX)) &&
      (text.Ok? && w.mode == W.CounterMode ==> (r == W.Success <==> |text.value| <= W.SIZE_MAX))
  {
    hide PackObject, TextOf, ObjectFits, SchemaOk, Index.Valid;
    if index == null {
      return W.InvalidSchema;
    }
    InitializedOk(index);
    ghost var text := Packed(index.schema, cells, omit);
    w.Reset();
    r := EmitObject(w, index.schema, cells, omit, 0);
    assert text.Ok? ==> [] + text.value == text.value;
    if r == W.Success {
      r := w.Flush();
    }
  }
}
