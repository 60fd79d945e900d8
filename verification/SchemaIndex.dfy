/** kason_schema_init: the index from keys to fields. */
module SchemaIndex {
  import opened Bytes
  import opened JsonString
  import opened UnitText
  import opened Lookup
  import opened Schemas

  const NO_FIELD: nat := 0xFFFF

  /** An initialised schema: every key's slot leads to its field, and the schemas of
      structures are initialised too. */
  class Index {
    const schema: Schema
    const table: Table
    const slotFields: array<nat>
    const children: seq<Index?>
    ghost const Repr: set<object>

    ghost predicate Valid()
      reads this, Repr
      decreases schema
    {
      {this, table, table.slots, slotFields} <= Repr &&
      SchemaOk(schema) && table.Valid() && table.Keys() == FieldKeys(schema.fields) && slotFields.Length == table.slots.Length &&
      (forall j | 0 <= j < slotFields.Length && table.slots[j].Used? ::
        slotFields[j] == FieldIndex(schema.fields, table.slots[j].value)) &&
      |children| == |schema.fields| &&
      forall k | 0 <= k < |children| && schema.fields[k].fieldType.StructType? :: ChildValid(k)
    }

    /** The index of a structure field's own schema. */
    ghost predicate ChildValid(k: nat)
      reads this, Repr
      requires k < |children| == |schema.fields| && schema.fields[k].fieldType.StructType?
      decreases schema, 0
    {
      var child := children[k];
      child != null && child in Repr && child.Repr <= Repr && child.schema == schema.fields[k].fieldType.schema && child.Valid()
    }

    constructor (schema: Schema, table: Table, slotFields: array<nat>, children: seq<Index?>)
      ensures this.schema == schema && this.table == table && this.slotFields == slotFields && this.children == children
      ensures Repr == {this, table, table.slots, slotFields} + AllReprs(children)
    {
      this.schema, this.table, this.slotFields, this.children := schema, table, slotFields, children;
      Repr := {this, table, table.slots, slotFields} + AllReprs(children);
    }

    lemma InRepr()
      requires Valid()
      ensures this in Repr
    {
      hide SchemaOk, Table.Valid, ChildValid;
    }

    lemma Parts()
      requires Valid()
      ensures {this, table, table.slots, slotFields} <= Repr
      ensures SchemaOk(schema) && table.Valid() && table.Keys() == FieldKeys(schema.fields)
      ensures |children| == |schema.fields| && forall k | 0 <= k < |children| && schema.fields[k].fieldType.StructType? :: ChildValid(k)
    {
      hide SchemaOk, Table.Valid, ChildValid;
    }

    /** The field a member name of the input belongs to, or the number of fields. */
    method Select(key: Text) returns (k: nat)
      requires Valid() && ValidBody(key)
      ensures k == FieldIndex(schema.fields, Decoded(key))
    {
      hide SchemaOk, ValidBody, Decoded, HashBytes, ChildValid;
      var ok, hash, length := DecodedKeyInfo(key);
      var found := table.Find(key, hash, length);
      if found.NotFound? {
        return |schema.fields|;
      }
      return slotFields[found.index];
    }
  }

  ghost function AllReprs(children: seq<Index?>): set<object> {
    set k, o | 0 <= k < |children| && children[k] != null && o in children[k].Repr :: o
  }

  /** The entries lead to the first `n` fields. */
  ghost predicate Leads(fields: seq<Field>, n: nat, table: Table, slotFields: array<nat>)
    reads table, table.slots, slotFields
    requires n <= |fields|
  {
    slotFields.Length == table.slots.Length && table.Valid() && table.count == n && DistinctKeys(fields[..n]) &&
    table.Keys() == FieldKeys(fields[..n]) &&
    forall j | 0 <= j < slotFields.Length && table.slots[j].Used? ::
      slotFields[j] < n && fields[slotFields[j]].key == table.slots[j].value
  }

  lemma KeysSnoc(fields: seq<Field>, n: nat)
    requires n < |fields|
    ensures FieldKeys(fields[..n + 1]) == FieldKeys(fields[..n]) + {fields[n].key}
    ensures DistinctKeys(fields[..n]) && fields[n].key !in FieldKeys(fields[..n]) ==> DistinctKeys(fields[..n + 1])
    ensures DistinctKeys(fields) ==> fields[n].key !in FieldKeys(fields[..n])
  {
    var front, more := fields[..n], fields[..n + 1];
    assert more == front + [fields[n]];
    forall k | 0 <= k < n ensures more[k] == front[k] == fields[k] {
    }
    if DistinctKeys(front) && fields[n].key !in FieldKeys(front) {
      forall j, k | 0 <= j < |more| && 0 <= k < |more| && more[j].key == more[k].key ensures j == k {
        if j < n {
          assert front[j].key in FieldKeys(front);
        }
        if k < n {
          assert front[k].key in FieldKeys(front);
        }
      }
    }
  }

  lemma CountIsKeys(table: Table)
    requires table.Valid()
    ensures table.count == |table.Keys()|
  {
  }

  /** The slot the added key went to. */
  method SlotOf(table: Table, key: Text) returns (slot: nat)
    requires table.Valid() && key in table.Keys()
    ensures slot < table.slots.Length && table.slots[slot].Used? && table.slots[slot].value == key
    ensures forall j | 0 <= j < table.slots.Length && j != slot && table.slots[j].Used? :: table.slots[j].value != key
  {
    hide HashBytes, Home, Cyclic, Table.Reachable;
    slot := 0;
    while slot < table.slots.Length && !(table.slots[slot].Used? && table.slots[slot].value == key)
      invariant slot <= table.slots.Length
      invariant forall j | 0 <= j < slot :: !(table.slots[j].Used? && table.slots[j].value == key)
    {
      slot := slot + 1;
    }
  }

  /** kason_schema_validate_field; a structure's schema must have been initialised. */
  method ValidateField(field: Field, child: Index?) returns (ok: bool)
    requires child != null ==> SchemaOk(child.schema) && field.fieldType == StructType(child.schema)
    ensures ok <==> FieldOk(field) && (field.fieldType.StructType? ==> child != null)
  {
    hide SchemaOk, DefaultOk, UnitsValid;
    if !UnitsValid(W8, field.key) || (if field.isArray then field.capacity == 0 else field.capacity != 1) {
      return false;
    }
    match field.fieldType {
      case TextType(_, capacity) =>
        if capacity == 0 {
          return false;
        }
      case StructType(_) =>
        if child == null {
          return false;
        }
      case _ =>
    }
    ok := PolicyOk(field);
  }

  /** kason_schema_init: succeeds exactly for a valid schema with enough slots whose
      structures' schemas are initialised. */
  method Init(schema: Schema, capacity: nat, children: seq<Index?>) returns (index: Index?)
    requires |children| == |schema.fields|
    requires forall k | 0 <= k < |children| && children[k] != null ::
      children[k].Valid() && schema.fields[k].fieldType == StructType(children[k].schema)
    ensures index != null <==>
      SchemaOk(schema) && |schema.fields| <= capacity &&
      forall k | 0 <= k < |children| && schema.fields[k].fieldType.StructType? :: children[k] != null
    ensures index != null ==> index.Valid() && index.schema == schema && index.children == children && fresh(index)
  {
    hide FieldOk, FieldIndex, Leads, Index.Valid;
    var fields := schema.fields;
    if |fields| == 0 || |fields| > MAX_FIELDS || capacity < |fields| {
      return null;
    }
    var table := new Table(capacity);
    var slotFields := new nat[capacity](_ => NO_FIELD);
    NothingLeads(fields, table, slotFields);
    for i := 0 to |fields|
      invariant fresh(table) && fresh(table.slots) && fresh(slotFields) && table.slots.Length == capacity
      invariant Leads(fields, i, table, slotFields) && forall k | 0 <= k < i :: FieldOk(fields[k])
      invariant forall k | 0 <= k < i && fields[k].fieldType.StructType? :: children[k] != null
      invariant forall k | 0 <= k < |children| && children[k] != null :: children[k].Valid()
    {
      if children[i] != null {
        children[i].Parts();
      }
      var valid := ValidateField(fields[i], children[i]);
      if !valid {
        return null;
      }
      var added := AddField(fields, i, table, slotFields);
      if !added {
        return null;
      }
    }
    index := new Index(schema, table, slotFields, children);
    EverythingLeads(fields, table, slotFields);
    Initialised(index);
  }

  lemma Initialised(index: Index)
    requires index.Repr == {index, index.table, index.table.slots, index.slotFields} + AllReprs(index.children)
    requires SchemaOk(index.schema) && Leads(index.schema.fields, |index.schema.fields|, index.table, index.slotFields)
    requires |index.children| == |index.schema.fields|
    requires forall k | 0 <= k < |index.children| && index.children[k] != null ::
      index.children[k].Valid() && index.schema.fields[k].fieldType == StructType(index.children[k].schema)
    requires forall k | 0 <= k < |index.children| && index.schema.fields[k].fieldType.StructType? :: index.children[k] != null
    ensures index.Valid()
  {
    hide SchemaOk, Leads, Table.Valid, FieldIndex, Table.Keys, FieldKeys;
    EverythingLeads(index.schema.fields, index.table, index.slotFields);
    forall k | 0 <= k < |index.children| && index.schema.fields[k].fieldType.StructType? ensures index.ChildValid(k) {
      index.children[k].InRepr();
    }
  }

  lemma NothingLeads(fields: seq<Field>, table: Table, slotFields: array<nat>)
    requires table.Valid() && table.Keys() == {} && slotFields.Length == table.slots.Length
    ensures Leads(fields, 0, table, slotFields)
  {
    CountIsKeys(table);
    forall j | 0 <= j < slotFields.Length && table.slots[j].Used? ensures table.slots[j].value in table.Keys() {
      table.Present(j);
    }
  }

  lemma EverythingLeads(fields: seq<Field>, table: Table, slotFields: array<nat>)
    requires Leads(fields, |fields|, table, slotFields)
    ensures DistinctKeys(fields) && table.Valid() && table.Keys() == FieldKeys(fields) && slotFields.Length == table.slots.Length
    ensures forall j | 0 <= j < slotFields.Length && table.slots[j].Used? ::
      slotFields[j] == FieldIndex(fields, table.slots[j].value)
  {
    hide FieldIndex;
    assert fields[..|fields|] == fields;
    forall j | 0 <= j < slotFields.Length && table.slots[j].Used?
      ensures slotFields[j] == FieldIndex(fields, table.slots[j].value)
    {
      IndexOfField(fields, slotFields[j]);
    }
  }

  /** One field joins, unless its key is taken. */
  method AddField(fields: seq<Field>, i: nat, table: Table, slotFields: array<nat>) returns (ok: bool)
    requires i < |fields| <= table.slots.Length && Leads(fields, i, table, slotFields)
    modifies table, table.slots, slotFields
    ensures ok ==> Leads(fields, i + 1, table, slotFields)
    ensures !ok ==> !DistinctKeys(fields)
  {
    hide FieldIndex, Table.Valid, FieldKeys, DistinctKeys, Table.Keys, HashBytes;
    KeysSnoc(fields, i);
    CountIsKeys(table);
    var added := table.Add(fields[i].key);
    if !added {
      return false;
    }
    CountIsKeys(table);
    var slot := SlotOf(table, fields[i].key);
    ghost var before := slotFields[..];
    slotFields[slot] := i;
    forall j | 0 <= j < slotFields.Length && table.slots[j].Used?
      ensures slotFields[j] < i + 1 && fields[slotFields[j]].key == table.slots[j].value
    {
      if j != slot {
        assert slotFields[j] == before[j];
      }
    }
    return true;
  }
}
