/** kason_pack: the writer receives the JSON text of a syntax tree that is built
    from the schema and the object. */
module Pack {
  import opened Bytes
  import opened Grammar
  import opened UnitText
  import opened JsonWriter
  import opened Schemas
  import W = Writer

  // ------------------------------------------------------- lists of members

  function MembersOf(ms: seq<Member>): Members
    requires ms != []
  {
    if |ms| == 1 then Last(ms[0]) else More(ms[0], [], MembersOf(ms[1..]))
  }

  function ListOf(kind: Kind, ms: seq<Member>): Value {
    if ms == [] then Empty(kind, []) else Filled(kind, [], MembersOf(ms))
  }

  predicate ListOk(kind: Kind, ms: seq<Member>) {
    forall k | 0 <= k < |ms| :: MemberOk(ms[k], kind)
  }

  lemma {:induction false} MembersOfOk(kind: Kind, ms: seq<Member>)
    requires ms != [] && ListOk(kind, ms)
    ensures MembersOk(MembersOf(ms), kind)
    decreases |ms|
  {
    hide MemberOk;
    if |ms| > 1 {
      MembersOfOk(kind, ms[1..]);
    }
  }

  lemma ListOfOk(kind: Kind, ms: seq<Member>)
    requires ListOk(kind, ms)
    ensures ValueOk(ListOf(kind, ms))
  {
    hide MembersOk, ListOk;
    if ms != [] {
      MembersOfOk(kind, ms);
    }
  }

  /** The text between the brackets. */
  function ListText(kind: Kind, ms: seq<Member>): Text
    requires ListOk(kind, ms)
  {
    if ms == [] then []
    else
      MembersOfOk(kind, ms);
      PrintMembers(MembersOf(ms), kind)
  }

  lemma ListPrinted(kind: Kind, ms: seq<Member>)
    requires ListOk(kind, ms)
    ensures ValueOk(ListOf(kind, ms)) && PrintValue(ListOf(kind, ms)) == [OpenOf(kind)] + ListText(kind, ms) + [CloseOf(kind)]
  {
    hide PrintMembers, MembersOk, ListOk;
    ListOfOk(kind, ms);
    if ms != [] {
      var x := PrintMembers(MembersOf(ms), kind);
      assert [OpenOf(kind)] + ([] + (x + [CloseOf(kind)])) == [OpenOf(kind)] + x + [CloseOf(kind)];
    }
  }

  function Separator(ms: seq<Member>): Text {
    if ms == [] then [] else [COMMA]
  }

  lemma ListTextUnfold(kind: Kind, ms: seq<Member>)
    requires ListOk(kind, ms) && ms != []
    ensures ListOk(kind, ms[1..])
    ensures ListText(kind, ms) == PrintMember(ms[0], kind) + (Separator(ms[1..]) + ListText(kind, ms[1..]))
  {
    hide PrintMember, MemberOk;
    MembersOfOk(kind, ms);
    var x := PrintMember(ms[0], kind);
    if |ms| == 1 {
      assert x + ([] + []) == x;
    } else {
      var y := ListText(kind, ms[1..]);
      assert [] + y == y;
    }
  }

  lemma {:induction false} ListTextSnoc(kind: Kind, ms: seq<Member>, m: Member)
    requires ListOk(kind, ms) && MemberOk(m, kind)
    ensures ListOk(kind, ms + [m]) && ListText(kind, ms + [m]) == ListText(kind, ms) + Separator(ms) + PrintMember(m, kind)
    decreases |ms|
  {
    hide PrintMember, MemberOk, ListText;
    ListTextUnfold(kind, ms + [m]);
    var x := PrintMember(m, kind);
    if ms == [] {
      assert ms + [m] == [m] && [m][1..] == [];
      ListTextEmpty(kind);
      assert x + ([] + []) == [] + [] + x;
    } else {
      var rest, first := ms[1..], PrintMember(ms[0], kind);
      assert (ms + [m])[1..] == rest + [m];
      ListTextUnfold(kind, ms);
      ListTextSnoc(kind, rest, m);
      var y := ListText(kind, rest);
      ListTextEmpty(kind);
      assert first + ([COMMA] + (y + Separator(rest) + x)) == first + (Separator(rest) + y) + [COMMA] + x;
    }
  }

  lemma ListTextEmpty(kind: Kind)
    ensures ListOk(kind, []) && ListText(kind, []) == []
  {
  }

  lemma {:induction false} ListTextGrows(kind: Kind, ms: seq<Member>, more: seq<Member>)
    requires ListOk(kind, ms) && ListOk(kind, more)
    ensures ListOk(kind, ms + more) && |ListText(kind, ms)| <= |ListText(kind, ms + more)|
    decreases |more|
  {
    hide ListText, MemberOk;
    if more == [] {
      assert ms + more == ms;
    } else {
      ListTextSnoc(kind, ms, more[0]);
      assert ms + more == (ms + [more[0]]) + more[1..];
      ListTextGrows(kind, ms + [more[0]], more[1..]);
    }
  }

  // ------------------------------------------------------------ what is packed

  /** kason_schema_pack_scalar. */
  function PackScalar(fieldType: FieldType, item: Item): (r: Result<Value>)
    requires ItemFits(fieldType, item) && !fieldType.StructType?
    ensures r.Ok? ==> ValueOk(r.value)
  {
    if fieldType.BoolType? then
      if item.value == 0 then Ok(False) else if item.value == 1 then Ok(True) else Err(W.TypeError)
    else if fieldType.TextType? then
      if ZeroAt(item.units) == |item.units| then Err(if fieldType.width == W8 then W.StringCapacity else W.TypeError)
      else
        var width, u := fieldType.width, CString(item.units);
        if UnitsValid(width, u) then Ok(Str(WrittenChars(UnitScalars(width, u)))) else Err(W.TypeError)
    else
      IntegerRoundTrip(item.value);
      Ok(Num(IntegerNumber(item.value)))
  }

  function PackItem(fieldType: FieldType, item: Item, omit: bool, depth: nat): (r: Result<Value>)
    requires TypeOk(fieldType) && ItemFits(fieldType, item)
    ensures r.Ok? ==> ValueOk(r.value)
    decreases fieldType, 1
  {
    if fieldType.StructType? then PackObject(fieldType.schema, item.members, omit, depth + 1) else PackScalar(fieldType, item)
  }

  /** The elements from number `k` on. */
  function PackItems(fieldType: FieldType, items: seq<Item>, omit: bool, depth: nat, k: nat): (r: Result<seq<Member>>)
    requires TypeOk(fieldType) && k <= |items| && forall j | 0 <= j < |items| :: ItemFits(fieldType, items[j])
    ensures r.Ok? ==> ListOk(Array, r.value)
    decreases fieldType, 2, |items| - k
  {
    if k == |items| then Ok([])
    else
      var first := PackItem(fieldType, items[k], omit, depth);
      if first.Err? then Err(first.code)
      else Before([Member(NoKey, first.value, [])], PackItems(fieldType, items, omit, depth, k + 1))
  }

  function Before<T>(front: seq<T>, r: Result<seq<T>>): Result<seq<T>> {
    if r.Err? then r else Ok(front + r.value)
  }

  function ListResult(kind: Kind, ms: Result<seq<Member>>): (r: Result<Value>)
    requires ms.Ok? ==> ListOk(kind, ms.value)
    ensures r.Ok? ==> ValueOk(r.value)
  {
    if ms.Err? then Err(ms.code)
    else
      ListOfOk(kind, ms.value);
      Ok(ListOf(kind, ms.value))
  }

  function PackCell(field: Field, cell: Cell, omit: bool, depth: nat): (r: Result<Value>)
    requires FieldOk(field) && CellFits(field, cell)
    ensures r.Ok? ==> ValueOk(r.value)
    decreases field, 0
  {
    if !field.isArray then PackItem(field.fieldType, cell.item, omit, depth)
    else if cell.count > field.capacity then Err(W.ArrayCapacity)
    else ListResult(Array, PackItems(field.fieldType, cell.items[..cell.count], omit, depth, 0))
  }

  function FieldKey(field: Field): (key: Key)
    requires FieldOk(field)
    ensures KeyOk(key, Object)
  {
    Key(WrittenChars(UnitScalars(W8, field.key)), [], [])
  }

  /** The member of one field, if it is not left out. */
  function PackField(field: Field, cell: Cell, omit: bool, depth: nat): (r: Result<seq<Member>>)
    requires FieldOk(field) && CellFits(field, cell)
    ensures r.Ok? ==> ListOk(Object, r.value)
    decreases field, 1
  {
    if omit && IsDefault(field, cell, depth) then Ok([])
    else
      var v := PackCell(field, cell, omit, depth);
      if v.Err? then Err(v.code) else Ok([Member(FieldKey(field), v.value, [])])
  }

  /** The members from field number `k` on. */
  function PackFields(schema: Schema, cells: seq<Cell>, omit: bool, depth: nat, k: nat): (r: Result<seq<Member>>)
    requires SchemaOk(schema) && ObjectFits(schema, cells) && k <= |cells|
    ensures r.Ok? ==> ListOk(Object, r.value)
    decreases schema, 0, |cells| - k
  {
    if k == |cells| then Ok([])
    else
      var first := PackField(schema.fields[k], cells[k], omit, depth);
      if first.Err? then first else Before(first.value, PackFields(schema, cells, omit, depth, k + 1))
  }

  /** kason_schema_pack_object. */
  function PackObject(schema: Schema, cells: seq<Cell>, omit: bool, depth: nat): (r: Result<Value>)
    requires SchemaOk(schema) && ObjectFits(schema, cells)
    ensures r.Ok? ==> ValueOk(r.value)
    decreases schema, 1
  {
    if depth >= MAX_NESTING then Err(W.NestingError)
    else ListResult(Object, PackFields(schema, cells, omit, depth, 0))
  }
}
