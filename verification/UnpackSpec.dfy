/** What strict unpacking means, and that relaxed unpacking then gives the same object. */
module UnpackSpec {
  import opened Bytes
  import opened Grammar
  import opened Events
  import opened Modes
  import opened LegacySpec
  import opened LegacyTrees
  import opened LegacyComplete
  import opened LegacyAgreement
  import opened Legacy
  import opened Selected
  import opened Schemas
  import opened Unpack
  import W = Writer

  /** No two of these members belong to the same field. */
  predicate Distinct(schema: Schema, t: Text, log: seq<Child>) {
    forall i, j | 0 <= i < |log| && 0 <= j < |log| && ChildField(schema, t, log[i]) == ChildField(schema, t, log[j]) :: i == j
  }

  /** What the member number `i` puts into its field. */
  function Converted(schema: Schema, t: Text, relaxed: bool, depth: nat, cells: seq<Cell>, log: seq<Child>, i: nat): Result<Cell>
    requires SchemaOk(schema) && ObjectFits(schema, cells) && i < |log| && ChildField(schema, t, log[i]) < |schema.fields|
  {
    var k := ChildField(schema, t, log[i]);
    StoreCell(schema.fields[k], cells[k], log[i], t, relaxed, depth)
  }

  /** All these members belong to fields. */
  predicate Known(schema: Schema, t: Text, log: seq<Child>) {
    forall i | 0 <= i < |log| :: ChildField(schema, t, log[i]) < |schema.fields|
  }

  predicate AllConvert(schema: Schema, t: Text, relaxed: bool, depth: nat, cells: seq<Cell>, log: seq<Child>)
    requires SchemaOk(schema) && ObjectFits(schema, cells) && Known(schema, t, log)
  {
    forall i | 0 <= i < |log| :: Converted(schema, t, relaxed, depth, cells, log, i).Ok?
  }

  predicate Occurred(schema: Schema, t: Text, log: seq<Child>, k: nat) {
    exists i :: 0 <= i < |log| && ChildField(schema, t, log[i]) == k
  }

  /** Field by field: a member's converted value, or what was there. */
  ghost predicate HoldsValues(schema: Schema, t: Text, relaxed: bool, depth: nat, cells: seq<Cell>, log: seq<Child>, result: seq<Cell>)
    requires SchemaOk(schema) && ObjectFits(schema, cells) && Known(schema, t, log)
  {
    |result| == |cells| &&
    (forall i | 0 <= i < |log| :: Converted(schema, t, relaxed, depth, cells, log, i) == Ok(result[ChildField(schema, t, log[i])])) &&
    forall k | 0 <= k < |cells| && !Occurred(schema, t, log, k) :: result[k] == cells[k]
  }

  /** None of the members belongs to a field that was found before. */
  predicate NoneFound(schema: Schema, t: Text, log: seq<Child>, found: set<nat>) {
    forall i | 0 <= i < |log| :: ChildField(schema, t, log[i]) !in found
  }

  ghost predicate AllGood(schema: Schema, t: Text, depth: nat, s: Stored, log: seq<Child>)
    requires StateFits(schema, s) && Known(schema, t, log)
  {
    Distinct(schema, t, log) && NoneFound(schema, t, log, s.found) && AllConvert(schema, t, false, depth, s.cells, log)
  }

  lemma FirstMember(schema: Schema, t: Text, depth: nat, s: Stored, log: seq<Child>)
    requires StateFits(schema, s) && Known(schema, t, log) && s.status == W.Success && log != []
    ensures var k, s' := ChildField(schema, t, log[0]), Callback(schema, t, false, depth, s, log[0]);
      var cell := Converted(schema, t, false, depth, s.cells, log, 0);
      if s'.status == W.Success then k !in s.found && cell.Ok? && s' == Stored(s.cells[k := cell.value], s.found + {k}, W.Success)
      else !AllGood(schema, t, depth, s, log)
  {
    hide StoreCell, SchemaOk, ChildField, FieldOk, CellFits;
    var s' := Callback(schema, t, false, depth, s, log[0]);
    if s'.status != W.Success && ChildField(schema, t, log[0]) !in s.found {
      assert Converted(schema, t, false, depth, s.cells, log, 0).Err?;
    }
  }

  /** The members behind the first one, seen from behind it. */
  lemma RestConverted(schema: Schema, t: Text, depth: nat, s: Stored, s': Stored, log: seq<Child>, i: nat)
    requires StateFits(schema, s) && StateFits(schema, s') && Known(schema, t, log) && 0 < i < |log|
    requires ChildField(schema, t, log[i]) != ChildField(schema, t, log[0])
    requires forall j | 0 <= j < |s.cells| && j != ChildField(schema, t, log[0]) :: |s'.cells| == |s.cells| && s'.cells[j] == s.cells[j]
    ensures log[1..][i - 1] == log[i] && Known(schema, t, log[1..])
    ensures Converted(schema, t, false, depth, s'.cells, log[1..], i - 1) == Converted(schema, t, false, depth, s.cells, log, i)
  {
    hide StoreCell, SchemaOk, ChildField, FieldOk, CellFits;
  }

  lemma RestGood(schema: Schema, t: Text, depth: nat, s: Stored, s': Stored, log: seq<Child>)
    requires StateFits(schema, s) && StateFits(schema, s') && Known(schema, t, log) && log != []
    requires var k, cell := ChildField(schema, t, log[0]), Converted(schema, t, false, depth, s.cells, log, 0);
      k !in s.found && cell.Ok? && s' == Stored(s.cells[k := cell.value], s.found + {k}, W.Success)
    ensures Known(schema, t, log[1..])
    ensures AllGood(schema, t, depth, s, log) <==> AllGood(schema, t, depth, s', log[1..])
  {
    hide Converted, SchemaOk, CellFits, ChildField;
    var k, rest := ChildField(schema, t, log[0]), log[1..];
    forall i | 0 < i < |log| ensures rest[i - 1] == log[i] {
    }
    if AllGood(schema, t, depth, s, log) {
      forall i | 0 < i < |log| ensures ChildField(schema, t, log[i]) != k {
      }
      forall i | 0 <= i < |rest| ensures Converted(schema, t, false, depth, s'.cells, rest, i).Ok? {
        RestConverted(schema, t, depth, s, s', log, i + 1);
      }
      assert Distinct(schema, t, rest);
    }
    if AllGood(schema, t, depth, s', rest) {
      forall i | 0 < i < |log| ensures ChildField(schema, t, log[i]) != k && ChildField(schema, t, log[i]) !in s.found {
        assert ChildField(schema, t, rest[i - 1]) !in s'.found;
      }
      forall i | 0 <= i < |log| ensures Converted(schema, t, false, depth, s.cells, log, i).Ok? {
        if i > 0 {
          RestConverted(schema, t, depth, s, s', log, i);
        }
      }
      DistinctPrepend(schema, t, log);
    }
  }

  lemma DistinctPrepend(schema: Schema, t: Text, log: seq<Child>)
    requires log != [] && Distinct(schema, t, log[1..])
    requires forall i | 0 < i < |log| :: ChildField(schema, t, log[i]) != ChildField(schema, t, log[0])
    ensures Distinct(schema, t, log)
  {
    hide ChildField;
    var rest := log[1..];
    forall i, j | 0 <= i < |log| && 0 <= j < |log| && ChildField(schema, t, log[i]) == ChildField(schema, t, log[j]) ensures i == j {
      if i > 0 && j > 0 {
        assert rest[i - 1] == log[i] && rest[j - 1] == log[j];
      }
    }
  }

  lemma OccurredUnfold(schema: Schema, t: Text, log: seq<Child>, k: nat)
    requires log != []
    ensures Occurred(schema, t, log, k) <==> ChildField(schema, t, log[0]) == k || Occurred(schema, t, log[1..], k)
  {
    hide ChildField;
    var rest := log[1..];
    if Occurred(schema, t, log, k) && ChildField(schema, t, log[0]) != k {
      var i :| 0 <= i < |log| && ChildField(schema, t, log[i]) == k;
      assert rest[i - 1] == log[i];
    }
    if Occurred(schema, t, rest, k) {
      var i :| 0 <= i < |rest| && ChildField(schema, t, rest[i]) == k;
      assert log[i + 1] == rest[i];
    }
  }

  lemma RestHolds(schema: Schema, t: Text, depth: nat, s: Stored, s': Stored, log: seq<Child>, result: seq<Cell>)
    requires StateFits(schema, s) && StateFits(schema, s') && Known(schema, t, log) && log != [] && Known(schema, t, log[1..])
    requires var k, cell := ChildField(schema, t, log[0]), Converted(schema, t, false, depth, s.cells, log, 0);
      k !in s.found && cell.Ok? && s' == Stored(s.cells[k := cell.value], s.found + {k}, W.Success)
    requires AllGood(schema, t, depth, s, log) && HoldsValues(schema, t, false, depth, s'.cells, log[1..], result)
    ensures HoldsValues(schema, t, false, depth, s.cells, log, result)
  {
    hide Converted, SchemaOk, CellFits, ChildField;
    var k, rest := ChildField(schema, t, log[0]), log[1..];
    OccurredNot(schema, t, log);
    forall i | 0 <= i < |log|
      ensures Converted(schema, t, false, depth, s.cells, log, i) == Ok(result[ChildField(schema, t, log[i])])
    {
      if i > 0 {
        RestConverted(schema, t, depth, s, s', log, i);
      }
    }
    forall j | 0 <= j < |s.cells| && !Occurred(schema, t, log, j) ensures result[j] == s.cells[j] {
      OccurredUnfold(schema, t, log, j);
    }
  }

  lemma OccurredNot(schema: Schema, t: Text, log: seq<Child>)
    requires log != [] && Distinct(schema, t, log)
    ensures !Occurred(schema, t, log[1..], ChildField(schema, t, log[0]))
  {
    hide ChildField;
    forall i | 0 <= i < |log[1..]| ensures ChildField(schema, t, log[1..][i]) != ChildField(schema, t, log[0]) {
      assert log[1..][i] == log[i + 1];
    }
  }

  /** A strict run from the state `s`. */
  lemma {:induction false} StrictRun(schema: Schema, t: Text, depth: nat, s: Stored, log: seq<Child>)
    requires StateFits(schema, s) && Known(schema, t, log) && s.status == W.Success
    ensures var r := Until(schema, t, false, depth, s, log);
      (r.status == W.Success <==> AllGood(schema, t, depth, s, log)) &&
      (r.status == W.Success ==>
        HoldsValues(schema, t, false, depth, s.cells, log, r.cells) &&
        (forall k: nat :: k in r.found <==> k in s.found || Occurred(schema, t, log, k)))
    decreases |log|
  {
    hide Converted, SchemaOk, ObjectFits, ChildField, Callback, AllGood, HoldsValues, Occurred;
    if log == [] {
      NoMembers(schema, t, depth, s);
    } else {
      var s', rest := Callback(schema, t, false, depth, s, log[0]), log[1..];
      FirstMember(schema, t, depth, s, log);
      if s'.status != W.Success {
        StopsThere(schema, t, depth, s', rest);
      } else {
        RestGood(schema, t, depth, s, s', log);
        StrictRun(schema, t, depth, s', rest);
        var r := Until(schema, t, false, depth, s', rest);
        if r.status == W.Success {
          RestHolds(schema, t, depth, s, s', log, r.cells);
          forall k: nat ensures k in r.found <==> k in s.found || Occurred(schema, t, log, k) {
            OccurredUnfold(schema, t, log, k);
          }
        }
      }
    }
  }

  lemma NoMembers(schema: Schema, t: Text, depth: nat, s: Stored)
    requires StateFits(schema, s)
    ensures AllGood(schema, t, depth, s, []) && HoldsValues(schema, t, false, depth, s.cells, [], s.cells)
    ensures forall k: nat :: !Occurred(schema, t, [], k)
  {
    hide Converted, SchemaOk, CellFits, ChildField;
  }

  lemma StopsThere(schema: Schema, t: Text, depth: nat, s: Stored, log: seq<Child>)
    requires StateFits(schema, s) && s.status != W.Success
    ensures Until(schema, t, false, depth, s, log) == s
  {
  }

  /** The members shown because the schema has their keys belong to fields. */
  lemma {:induction false} WishesKnown(schema: Schema, t: Text, children: seq<Child>)
    ensures Known(schema, t, Wishes(schema, t, children))
    decreases |children|
  {
    hide FieldKeys, ChildField;
    if children != [] {
      WishesKnown(schema, t, children[1..]);
      WantedKnown(schema, t, children[0]);
    }
  }

  lemma WantedKnown(schema: Schema, t: Text, child: Child)
    ensures Wanted(t, Only(FieldKeys(schema.fields)), child) ==> ChildField(schema, t, child) < |schema.fields|
  {
  }

  predicate RequiredOccur(schema: Schema, t: Text, log: seq<Child>) {
    forall k | 0 <= k < |schema.fields| && schema.fields[k].policy.Required? :: Occurred(schema, t, log, k)
  }

  /** When strict unpacking succeeds. */
  ghost predicate StrictlyFine(schema: Schema, t: Text, depth: nat, before: seq<Cell>, log: seq<Child>)
    requires SchemaOk(schema) && ObjectFits(schema, before) && Known(schema, t, log)
  {
    Distinct(schema, t, log) && AllConvert(schema, t, false, depth, Defaults(schema, before), log) && RequiredOccur(schema, t, log)
  }

  /** Strict unpacking succeeds exactly when every key of the schema occurs at most once
      among the members, every value converts, and no required one is missing; each
      field then holds its converted value or its default. */
  lemma StrictSpecification(schema: Schema, t: Text, before: seq<Cell>, depth: nat)
    requires SchemaOk(schema) && ObjectFits(schema, before) && depth < MAX_NESTING && At(t, SkipWs(t, 0)) == LBRACE
    requires ParseText(t, AutoMode, 0).Accepted?
    ensures var log := Wishes(schema, t, ParseText(t, AutoMode, 0).children);
      Known(schema, t, log) &&
      var r := Unpacked(schema, t, before, false, depth);
      (r.Ok? <==> StrictlyFine(schema, t, depth, before, log)) &&
      (r.Ok? ==> HoldsValues(schema, t, false, depth, Defaults(schema, before), log, r.value))
  {
    hide ParseText, SkipWs, SchemaOk, ObjectFits, Until, Wishes, AllConvert, HoldsValues, Distinct, Defaults, Occurred;
    var log := Wishes(schema, t, ParseText(t, AutoMode, 0).children);
    WishesKnown(schema, t, ParseText(t, AutoMode, 0).children);
    StrictRun(schema, t, depth, Begun(schema, before), log);
    NothingFound(schema, t, log);
  }

  lemma NothingFound(schema: Schema, t: Text, log: seq<Child>)
    ensures NoneFound(schema, t, log, {})
  {
  }

  /** The same for the selected members of a document. */
  lemma DocumentRun(schema: Schema, d: Document, before: seq<Cell>, depth: nat)
    requires SchemaOk(schema) && ObjectFits(schema, before) && depth < MAX_NESTING
    requires DocumentOk(d) && IsObject(d.value) && WithinLimit(0, Enters(d.value))
    ensures var t, log := PrintDocument(d), SelectedChildren(d, FieldKeys(schema.fields));
      Known(schema, t, log) &&
      var r := Unpacked(schema, t, before, false, depth);
      (r.Ok? <==> StrictlyFine(schema, t, depth, before, log)) &&
      (r.Ok? ==> HoldsValues(schema, t, false, depth, Defaults(schema, before), log, r.value))
  {
    hide ParseText, SkipWs, SchemaOk, ObjectFits, Unpacked, StrictlyFine, HoldsValues, Defaults, PrintDocument, DocumentOk, RootChildren,
      SelectedChildren, Selection, FieldKeys, PrintValue, ValueOk, Known;
    var t := PrintDocument(d);
    DocumentParsed(d);
    DocumentParts(d);
    DocumentSelected(d, FieldKeys(schema.fields));
    PartsOk(d);
    ObjectOpens(d.value);
    StrictSpecification(schema, t, before, depth);
  }

  lemma ObjectOpens(v: Value)
    requires ValueOk(v) && IsObject(v)
    ensures PrintValue(v)[0] == LBRACE
  {
    hide PrintMembers;
  }

  // ------------------------------------------------------------------- relaxed

  /** Where strict unpacking succeeds, relaxed unpacking gives the same. */
  predicate SameIfOk<T(==)>(strict: Result<T>, relaxed: Result<T>) {
    strict.Ok? ==> relaxed == strict
  }

  lemma {:induction false} RelaxedItem(fieldType: FieldType, before: Item, child: Child, t: Text, depth: nat)
    requires TypeOk(fieldType) && ItemFits(fieldType, before)
    ensures SameIfOk(StoreItem(fieldType, before, child, t, false, depth), StoreItem(fieldType, before, child, t, true, depth))
    decreases fieldType, 1
  {
    hide StoreScalar, Unpacked, SchemaOk, ObjectFits;
    if fieldType.StructType? {
      RelaxedSame(fieldType.schema, Slice(t, child.lo, child.hi), before.members, depth + 1);
    }
  }

  lemma {:induction false} RelaxedElements(fieldType: FieldType, items: seq<Item>, children: seq<Child>, t: Text, depth: nat, n: nat)
    requires TypeOk(fieldType) && n <= |children| && forall k | 0 <= k < |items| :: ItemFits(fieldType, items[k])
    ensures SameIfOk(StoreElements(fieldType, items, children, t, false, depth, n), StoreElements(fieldType, items, children, t, true, depth, n))
    decreases fieldType, 2, |children| - n
  {
    hide StoreItem, ItemFits, TypeOk;
    if n < |children| && n < |items| {
      RelaxedItem(fieldType, items[n], children[n], t, depth);
      var r := StoreItem(fieldType, items[n], children[n], t, false, depth);
      if r.Ok? {
        RelaxedElements(fieldType, items[n := r.value], children, t, depth, n + 1);
      }
    }
  }

  lemma {:induction false} RelaxedCell(field: Field, before: Cell, child: Child, t: Text, depth: nat)
    requires FieldOk(field) && CellFits(field, before)
    ensures SameIfOk(StoreCell(field, before, child, t, false, depth), StoreCell(field, before, child, t, true, depth))
    decreases field, 1
  {
    hide ParseText, StoreItem, StoreElements, ItemFits, TypeOk, PolicyOk;
    if !field.isArray {
      RelaxedItem(field.fieldType, before.item, child, t, depth);
    } else if child.valueType == ArrayType {
      var text := Elements(Slice(t, child.lo, child.hi));
      var parsed := ParseText(text, ArrayMode, 0);
      if parsed.Accepted? {
        RelaxedElements(field.fieldType, before.items, parsed.children, text, depth, 0);
      }
    }
  }

  lemma {:induction false} RelaxedRun(schema: Schema, t: Text, depth: nat, s: Stored, log: seq<Child>)
    requires StateFits(schema, s) && Known(schema, t, log)
    ensures Until(schema, t, false, depth, s, log).status == W.Success ==>
      Until(schema, t, true, depth, s, log) == Until(schema, t, false, depth, s, log)
    decreases schema, 2, |log|
  {
    hide StoreCell, SchemaOk, ObjectFits, ChildField, FieldOk, CellFits;
    if log != [] && s.status == W.Success {
      var k := ChildField(schema, t, log[0]);
      var s' := Callback(schema, t, false, depth, s, log[0]);
      if s'.status != W.Success {
        StopsThere(schema, t, depth, s', log[1..]);
      } else {
        FieldAndCell(schema, s.cells, k);
        RelaxedCell(schema.fields[k], s.cells[k], log[0], t, depth);
        RelaxedRun(schema, t, depth, s', log[1..]);
      }
    }
  }

  lemma FieldAndCell(schema: Schema, cells: seq<Cell>, k: nat)
    requires SchemaOk(schema) && ObjectFits(schema, cells) && k < |schema.fields|
    ensures |cells| == |schema.fields| && FieldOk(schema.fields[k]) && CellFits(schema.fields[k], cells[k])
  {
    hide FieldOk, CellFits;
  }

  /** When strict unpacking succeeds, relaxed unpacking succeeds with the same object. */
  lemma {:induction false} RelaxedSame(schema: Schema, t: Text, before: seq<Cell>, depth: nat)
    requires SchemaOk(schema) && ObjectFits(schema, before)
    ensures SameIfOk(Unpacked(schema, t, before, false, depth), Unpacked(schema, t, before, true, depth))
    decreases schema, 3
  {
    hide ParseText, SkipWs, SchemaOk, ObjectFits, Until, Wishes, Begun, Known;
    if depth < MAX_NESTING && At(t, SkipWs(t, 0)) == LBRACE && ParseText(t, AutoMode, 0).Accepted? {
      var log := Wishes(schema, t, ParseText(t, AutoMode, 0).children);
      WishesKnown(schema, t, ParseText(t, AutoMode, 0).children);
      RelaxedRun(schema, t, depth, Begun(schema, before), log);
    }
  }
}
