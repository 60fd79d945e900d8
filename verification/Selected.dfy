/** Parsing with a table of keys: the callback is shown exactly the members of the
    root object whose decoded key was added to the table. */
module Selected {
  import opened Bytes
  import opened JsonString
  import opened Grammar
  import opened Events
  import opened Modes
  import opened Lookup
  import opened LegacySpec
  import opened LegacyTrees
  import opened LegacyComplete
  import opened LegacyAgreement
  import opened Legacy

  /** The UTF-8 bytes a member name stands for. */
  function KeyBytes(key: Key): Text
    requires key.Key? && CharsOk(key.chars)
  {
    Utf8All(ScalarsOf(key.chars))
  }

  function SelectedMember(m: Member, i: nat, keys: set<Text>): seq<Child>
    requires MemberOk(m, Object)
  {
    if KeyBytes(m.key) in keys then [MemberChild(m, Object, i)] else []
  }

  function SelectedMembers(ms: Members, i: nat, keys: set<Text>): seq<Child>
    requires MembersOk(ms, Object)
  {
    var first := SelectedMember(ms.member, i, keys);
    if ms.Last? then first
    else first + SelectedMembers(ms.rest, i + |PrintMember(ms.member, Object)| + 1 + |ms.gap|, keys)
  }

  /** The selected members of a document; only an object has keys. */
  function SelectedChildren(d: Document, keys: set<Text>): seq<Child>
    requires DocumentOk(d)
  {
    if IsObject(d.value) && d.value.Filled? then
      SelectedMembers(d.value.members, |d.before| + 1 + |d.value.ws|, keys)
    else []
  }

  lemma {:induction false} ScalarsOfPrinted(t: Text, i: nat, cs: seq<Char>)
    requires CharsOk(cs) && Occurs(t, i, PrintChars(cs)) && i + |PrintChars(cs)| == |t|
    ensures ScalarsFrom(t, i, true) == ScalarsOf(cs)
    decreases |cs|
  {
    hide NextScalar, CharOk, PrintChar, ScalarOf, Occurs;
    if cs == [] {
      assert NextScalar(t, i, true).NextEnd?;
    } else {
      OccursConcat(t, i, PrintChar(cs[0]), PrintChars(cs[1..]));
      NextOfChar(t, i, cs[0]);
      ScalarsOfPrinted(t, i + |PrintChar(cs[0])|, cs[1..]);
    }
  }

  lemma DecodedKey(cs: seq<Char>)
    requires CharsOk(cs)
    ensures Decoded(PrintChars(cs)) == Utf8All(ScalarsOf(cs))
  {
    hide Utf8All, PrintChars, ScalarsOf, CharsOk, Occurs;
    var t := PrintChars(cs);
    OccursWhole(t, t);
    ScalarsOfPrinted(t, 0, cs);
  }

  lemma MemberWanted(t: Text, m: Member, i: nat, keys: set<Text>)
    requires MemberOk(m, Object) && Occurs(t, i, PrintMember(m, Object))
    ensures Wanted(t, Only(keys), MemberChild(m, Object, i)) <==> KeyBytes(m.key) in keys
  {
    hide PrintValue, ValueOk, Occurs, AllWhitespace, Decoded, Utf8All, ChildAt, PrintChars;
    var key, x := m.key, PrintChars(m.key.chars);
    OccursConcat(t, i, PrintKey(key, Object), PrintValue(m.value) + m.ws);
    OccursConcat(t, i, Grammar.Quoted(key.chars), key.before + ([COLON] + key.after));
    OccursConcat(t, i, [QUOTE], x + [QUOTE]);
    OccursConcat(t, i + 1, x, [QUOTE]);
    OccursSliceIs(t, i + 1, x);
    DecodedKey(key.chars);
    OwnerOfChild(KeyOwnerAt(key, i), m.value, i + |PrintKey(key, Object)|);
  }

  lemma OwnerOfChild(owner: Owner, v: Value, i: nat)
    requires ValueOk(v)
    ensures ChildAt(owner, v, i).key == owner
  {
    hide PrintValue;
  }

  lemma {:induction false} MembersSelected(t: Text, ms: Members, i: nat, keys: set<Text>)
    requires MembersOk(ms, Object) && Occurs(t, i, PrintMembers(ms, Object))
    ensures Selection(t, Only(keys), ChildrenAt(ms, Object, i)) == SelectedMembers(ms, i, keys)
    decreases ms
  {
    hide PrintMember, MemberOk, Occurs, MemberChild, Wanted, KeyBytes;
    var m := ms.member;
    var child := MemberChild(m, Object, i);
    if ms.Last? {
      MemberWanted(t, m, i, keys);
      assert [child][1..] == [];
    } else {
      var n := i + |PrintMember(m, Object)|;
      MoreOccurs(t, i, PrintMember(m, Object), ms.gap, PrintMembers(ms.rest, Object));
      MemberWanted(t, m, i, keys);
      MembersSelected(t, ms.rest, n + 1 + |ms.gap|, keys);
      assert ([child] + ChildrenAt(ms.rest, Object, n + 1 + |ms.gap|))[1..] == ChildrenAt(ms.rest, Object, n + 1 + |ms.gap|);
    }
  }

  lemma SelectNone(t: Text, child: Child, keys: set<Text>)
    requires child.key.NoKeyOwner?
    ensures Selection(t, Only(keys), [child]) == []
  {
    assert [child][1..] == [];
  }

  lemma DocumentSelected(d: Document, keys: set<Text>)
    requires DocumentOk(d)
    ensures Selection(PrintDocument(d), Only(keys), RootChildren(d)) == SelectedChildren(d, keys)
  {
    hide PrintValue, ValueOk, PrintDocument, SkipWs, SelectedMembers, ChildrenAt, ChildAt, Occurs, Wanted, AllWhitespace;
    DocumentParts(d);
    var t, v, i := PrintDocument(d), d.value, |d.before|;
    if IsObject(v) {
      ObjectParts(t, i, v);
      if v.Filled? {
        MembersSelected(t, v.members, i + 1 + |v.ws|, keys);
      }
    } else {
      OwnerOfChild(NoKeyOwner, v, i);
      SelectNone(t, ChildAt(NoKeyOwner, v, i), keys);
    }
  }

  /** kason_parse_range_selected: an empty table is refused. */
  method ParseSelected(t: Text, table: Table, policy: ChildPolicy) returns (ok: bool, log: seq<Child>)
    requires table.Valid()
    ensures table.count == 0 ==> !ok && log == []
    ensures table.count > 0 && !ok ==> !IsLegacyText(t)
    ensures ok && !(log != [] && policy(log)) ==>
      (IsLegacyText(t) || DropsByte(t)) &&
      forall d | DocumentOk(d) && PrintDocument(d) == t :: log == SelectedChildren(d, table.Keys())
    ensures forall k | 0 < k < |log| :: !policy(log[..k])
    ensures ok && log != [] && policy(log) && IsLegacyText(t) ==>
      forall d | DocumentOk(d) && PrintDocument(d) == t :: log <= SelectedChildren(d, table.Keys())
  {
    hide ParseText, PrintDocument, DocumentOk, RootChildren, IsLegacyText, DropsByte, SelectedChildren, Selection, Table.Valid, Table.Keys;
    if table.count <= 0 {
      return false, [];
    }
    AcceptsExactly(t);
    forall d | DocumentOk(d) && PrintDocument(d) == t
      ensures ParseText(t, AutoMode, 0).Accepted? ==> ParseText(t, AutoMode, 0) == Accepted(RootChildren(d))
      ensures Selection(t, Only(table.Keys()), RootChildren(d)) == SelectedChildren(d, table.Keys())
    {
      DocumentParsed(d);
      DocumentSelected(d, table.Keys());
    }
    ok, log := ParseInternal(t, AutoMode, 0, table, policy);
    OneBreak(policy, log);
  }

  predicate AllDifferent(keys: seq<Text>) {
    forall j, k | 0 <= j < k < |keys| :: keys[j] != keys[k]
  }

  /** Adds all keys to a fresh table, which succeeds exactly when they differ and fit, and
      then parses: the members reported are those whose decoded key is among them. */
  method ParseWithKeys(t: Text, capacity: nat, wanted: seq<Text>, policy: ChildPolicy)
    returns (added: bool, ok: bool, log: seq<Child>)
    requires capacity > 0
    ensures added <==> AllDifferent(wanted) && |wanted| <= capacity
    ensures !added || wanted == [] ==> !ok && log == []
    ensures added && wanted != [] && !ok ==> !IsLegacyText(t)
    ensures ok && !(log != [] && policy(log)) ==>
      (IsLegacyText(t) || DropsByte(t)) &&
      forall d | DocumentOk(d) && PrintDocument(d) == t :: log == SelectedChildren(d, set k | 0 <= k < |wanted| :: wanted[k])
    ensures forall k | 0 < k < |log| :: !policy(log[..k])
    ensures ok && log != [] && policy(log) && IsLegacyText(t) ==>
      forall d | DocumentOk(d) && PrintDocument(d) == t :: log <= SelectedChildren(d, set k | 0 <= k < |wanted| :: wanted[k])
  {
    hide SelectedChildren, PrintDocument, DocumentOk, IsLegacyText, DropsByte, Table.Valid, Table.Keys;
    var table := new Table(capacity);
    added, ok, log := true, false, [];
    for k := 0 to |wanted|
      invariant table.Valid() && fresh(table) && fresh(table.slots) && table.slots.Length == capacity
      invariant table.Keys() == set j | 0 <= j < k :: wanted[j]
      invariant table.count == k <= capacity && AllDifferent(wanted[..k])
    {
      TableCount(table);
      var fits := table.Add(wanted[k]);
      if !fits {
        assert k < capacity ==> exists j :: 0 <= j < k && wanted[j] == wanted[k];
        return false, false, [];
      }
      TableCount(table);
      assert (set j | 0 <= j < k + 1 :: wanted[j]) == (set j | 0 <= j < k :: wanted[j]) + {wanted[k]};
      assert wanted[..k + 1] == wanted[..k] + [wanted[k]];
    }
    assert wanted[..|wanted|] == wanted;
    TableCount(table);
    ok, log := ParseSelected(t, table, policy);
  }

  lemma TableCount(table: Table)
    requires table.Valid()
    ensures table.count == |table.Keys()| && table.slots.Length > 0
  {
  }
}
