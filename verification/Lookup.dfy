/** The index of decoded keys: hashes of first and last bytes, linear probing,
    and comparison of an escaped key with a stored one. */
module Lookup {
  import opened Bytes
  import opened JsonString
  import opened StringScan

  // --------------------------------------------------------- decoded keys

  /** The UTF-8 bytes a key stands for once its escapes are decoded. */
  function Decoded(t: Text): Text {
    Utf8All(Scalars(t))
  }

  lemma {:induction false} Utf8AllConcat(a: seq<Scalar>, b: seq<Scalar>)
    ensures Utf8All(a + b) == Utf8All(a) + Utf8All(b)
    decreases |a|
  {
    hide Utf8;
    if a == [] {
      assert a + b == b;
    } else {
      assert (a + b)[1..] == a[1..] + b && (a + b)[0] == a[0];
      Utf8AllConcat(a[1..], b);
      assert Utf8(a[0]) + Utf8All(a[1..]) + Utf8All(b) == Utf8(a[0]) + (Utf8All(a[1..]) + Utf8All(b));
    }
  }

  /** Unescaped ASCII decodes to itself. */
  lemma {:induction false} AsciiDecodes(t: Text, i: nat)
    requires i <= |t| && forall k | i <= k < |t| :: IsPlain(t[k]) && t[k] < 0x80
    ensures Utf8All(ScalarsFrom(t, i, true)) == t[i..]
    decreases |t| - i
  {
    if i < |t| {
      assert NextScalar(t, i, true) == NextValue(t[i], i + 1);
      AsciiDecodes(t, i + 1);
      assert ScalarsFrom(t, i, true)[1..] == ScalarsFrom(t, i + 1, true);
      assert t[i..] == [t[i]] + t[i + 1..];
    } else {
      assert t[i..] == [];
    }
  }

  // ----------------------------------------------------------------- hashes

  const WORD: nat := 0x1_0000_0000

  function ByteOr0(t: Text, k: nat): (b: nat)
    ensures b < 256
  {
    if k < |t| then t[k] else 0
  }

  /** kason_pack_hash_bytes: up to four bytes, the first one lowest. */
  function Pack(t: Text): (n: nat)
    ensures n < WORD
  {
    ByteOr0(t, 0) + ByteOr0(t, 1) * 0x100 + ByteOr0(t, 2) * 0x1_0000 + ByteOr0(t, 3) * 0x100_0000
  }

  /** kason_hash_parts, on 32-bit words. */
  function HashParts(first: nat, last: nat, length: nat): (hash: nat)
    requires first < WORD && last < WORD
    ensures hash < WORD
  {
    var a := ((length % WORD) as bv32) * 0x9e3779b1;
    var b := a ^ ((first as bv32) * 0x85ebca6b);
    var c := (b << 13) | (b >> 19);
    var d := c ^ ((last as bv32) * 0xc2b2ae35);
    (d ^ (d >> 16)) as nat
  }

  function FirstBytes(t: Text): Text {
    if |t| < 4 then t else t[..4]
  }

  function LastBytes(t: Text): Text {
    if |t| < 4 then t else t[|t| - 4..]
  }

  /** kason_hash_bytes. */
  function HashBytes(t: Text): (hash: nat)
    ensures hash < WORD
  {
    HashParts(Pack(FirstBytes(t)), Pack(LastBytes(t)), |t|)
  }

  /** The loop of kason_pack_hash_bytes. */
  method PackBytes(t: Text) returns (packed: nat)
    requires |t| <= 4
    ensures packed == Pack(t)
  {
    packed := 0;
    var scale: nat := 1;
    for i := 0 to |t|
      invariant scale == [1, 0x100, 0x1_0000, 0x100_0000, 0x1_0000_0000][i]
      invariant packed == Pack(t[..i])
    {
      packed := packed + t[i] * scale;
      scale := scale * 0x100;
    }
    assert t[..|t|] == t;
  }

  /** kason_hash_sample: the first four bytes, and the last four in a ring. */
  class Sample {
    const first: array<Byte>
    const last: array<Byte>
    var length: nat
    ghost var added: Text

    ghost predicate Valid()
      reads this, first, last
    {
      first.Length == 4 && last.Length == 4 && first != last && length == |added| &&
      (forall k | 0 <= k < 4 && k < length :: first[k] == added[k]) &&
      (forall k | 0 <= k < length && length - 4 <= k :: last[k % 4] == added[k])
    }

    constructor ()
      ensures Valid() && added == [] && fresh(first) && fresh(last)
    {
      first := new Byte[4](_ => 0);
      last := new Byte[4](_ => 0);
      length := 0;
      added := [];
    }

    /** kason_hash_sample_add. */
    method Add(value: Byte)
      requires Valid()
      modifies this, first, last
      ensures Valid() && added == old(added) + [value]
    {
      if length < 4 {
        first[length] := value;
      }
      RingSlots(length);
      last[length % 4] := value;
      length := length + 1;
      added := added + [value];
    }

    /** kason_hash_sample_finish: the hash of all bytes that were added. */
    method Finish() returns (hash: nat)
      requires Valid()
      ensures hash == HashBytes(added)
    {
      hide HashParts, Pack;
      var n := if length < 4 then length else 4;
      var begin := length - n;
      var tail: Text := [];
      for i := 0 to n
        invariant tail == added[begin..begin + i]
      {
        tail := tail + [last[(begin + i) % 4]];
      }
      assert first[..n] == FirstBytes(added);
      assert tail == LastBytes(added);
      var f := PackBytes(first[..n]);
      var l := PackBytes(tail);
      hash := HashParts(f, l, length);
    }
  }

  /** The three previous bytes are not overwritten. */
  lemma RingSlots(length: nat)
    ensures forall k | 0 <= k < length && length - 3 <= k :: k % 4 != length % 4
  {
  }

  /** kason_decoded_key_info: whether the key is well formed, and the hash and
      length of the bytes it stands for. */
  method DecodedKeyInfo(key: Text) returns (ok: bool, hash: nat, length: nat)
    ensures ok <==> ValidBody(key)
    ensures ok ==> hash == HashBytes(Decoded(key)) && length == |Decoded(key)|
  {
    hide NextScalar, Utf8, HashBytes;
    var sample := new Sample();
    var ptr := 0;
    ghost var done: seq<Scalar> := [];
    while true
      invariant ptr <= |key| && sample.Valid() && fresh(sample) && fresh(sample.first) && fresh(sample.last)
      invariant ValidFrom(key, ptr) == ValidBody(key)
      invariant done + ScalarsFrom(key, ptr, true) == Scalars(key) && sample.added == Utf8All(done)
      decreases |key| - ptr
    {
      var next := StringNext(key, ptr, true);
      match next {
        case NextEnd =>
          assert done == Scalars(key);
          hash := sample.Finish();
          return true, hash, sample.length;
        case NextError => return false, 0, 0;
        case NextValue(v, n) =>
          AddEncoded(sample, v);
          Utf8AllSnoc(done, v);
          assert done + ScalarsFrom(key, ptr, true) == (done + [v]) + ScalarsFrom(key, n, true);
          done := done + [v];
          ptr := n;
      }
    }
  }

  lemma Utf8AllSnoc(a: seq<Scalar>, v: Scalar)
    ensures Utf8All(a + [v]) == Utf8All(a) + Utf8(v)
  {
    hide Utf8;
    Utf8AllConcat(a, [v]);
    assert [v][1..] == [];
    assert Utf8All([v]) == Utf8(v) + Utf8All([]);
    assert Utf8(v) + [] == Utf8(v);
  }

  /** The encoded bytes of one scalar value are sampled in turn. */
  method AddEncoded(sample: Sample, v: Scalar)
    requires sample.Valid()
    modifies sample, sample.first, sample.last
    ensures sample.Valid() && sample.added == old(sample.added) + Utf8(v)
  {
    var encoded := Utf8(v);
    for i := 0 to |encoded|
      invariant sample.Valid() && sample.added == old(sample.added) + encoded[..i]
    {
      sample.Add(encoded[i]);
      assert encoded[..i + 1] == encoded[..i] + [encoded[i]];
    }
    assert encoded[..|encoded|] == encoded;
  }

  /** kason_decoded_key_equals: a well-formed key against stored bytes. */
  method DecodedKeyEquals(key: Text, expected: Text) returns (equal: bool)
    requires ValidBody(key)
    ensures equal <==> Decoded(key) == expected
  {
    hide NextScalar, Utf8;
    var plain := IsPlainAscii(key);
    if plain {
      PlainIsDecoded(key);
      return key == expected;
    }
    var ptr: nat, offset: nat := 0, 0;
    while true
      invariant ptr <= |key| && offset <= |expected| && ValidFrom(key, ptr)
      invariant Decoded(key) == expected[..offset] + Utf8All(ScalarsFrom(key, ptr, true))
      decreases |key| - ptr
    {
      var next := StringNext(key, ptr, true);
      match next {
        case NextEnd =>
          assert Decoded(key) == expected[..offset];
          return offset == |expected|;
        case NextError => return false;
        case NextValue(v, n) =>
          var encoded := Utf8(v);
          ghost var rest := Utf8All(ScalarsFrom(key, n, true));
          assert Utf8All(ScalarsFrom(key, ptr, true)) == encoded + rest;
          assert Decoded(key) == expected[..offset] + encoded + rest;
          if |encoded| > |expected| - offset || expected[offset..offset + |encoded|] != encoded {
            if Decoded(key) == expected {
              MatchIs(expected, offset, encoded, rest);
            }
            return false;
          }
          assert expected[..offset + |encoded|] == expected[..offset] + encoded;
          offset := offset + |encoded|;
          ptr := n;
      }
    }
  }

  lemma MatchIs(expected: Text, offset: nat, encoded: Text, rest: Text)
    requires offset <= |expected| && expected == expected[..offset] + encoded + rest
    ensures |encoded| <= |expected| - offset && expected[offset..offset + |encoded|] == encoded
  {
  }

  /** The scan for escapes and bytes above ASCII. */
  method IsPlainAscii(key: Text) returns (plain: bool)
    ensures plain <==> forall k | 0 <= k < |key| :: key[k] != BACKSLASH && key[k] < 0x80
  {
    for k := 0 to |key|
      invariant forall j | 0 <= j < k :: key[j] != BACKSLASH && key[j] < 0x80
    {
      if key[k] == BACKSLASH || key[k] >= 0x80 {
        return false;
      }
    }
    return true;
  }

  lemma {:induction false} ValidAsciiIsPlain(t: Text, i: nat)
    requires i <= |t| && ValidFrom(t, i) && forall k | i <= k < |t| :: t[k] != BACKSLASH && t[k] < 0x80
    ensures forall k | i <= k < |t| :: IsPlain(t[k])
    decreases |t| - i
  {
    if i < |t| {
      assert NextScalar(t, i, true) == NextValue(t[i], i + 1);
      ValidAsciiIsPlain(t, i + 1);
    }
  }

  lemma PlainIsDecoded(key: Text)
    requires ValidBody(key) && forall k | 0 <= k < |key| :: key[k] != BACKSLASH && key[k] < 0x80
    ensures Decoded(key) == key
  {
    ValidAsciiIsPlain(key, 0);
    AsciiDecodes(key, 0);
    assert key[0..] == key;
  }

  // ------------------------------------------------------------- the table

  datatype Slot = Free | Used(value: Text, hash: nat)

  /** The keys in a sequence of slots. */
  function KeysOf(s: seq<Slot>): set<Text> {
    set j | 0 <= j < |s| && s[j].Used? :: s[j].value
  }

  /** `d` places behind `home`, around the end. */
  function Cyclic(home: nat, d: nat, capacity: nat): (index: nat)
    requires home < capacity && d < capacity
    ensures index < capacity
  {
    if home + d < capacity then home + d else home + d - capacity
  }

  function Home(hash: nat, capacity: nat): (index: nat)
    requires capacity > 0
    ensures index < capacity
  {
    hash % capacity
  }

  datatype Found = NotFound | FoundAt(index: nat)

  /** kason_lookup_table. `distance` records how far each entry lies from its home. */
  class Table {
    const slots: array<Slot>
    var count: nat
    ghost var distance: seq<nat>

    ghost predicate Valid()
      reads this, slots
    {
      slots.Length > 0 && |distance| == slots.Length && count == |Keys()| &&
      (forall j | 0 <= j < slots.Length && slots[j].Used? :: Reachable(j)) &&
      (forall j, k | 0 <= j < slots.Length && 0 <= k < slots.Length && slots[j].Used? && slots[k].Used? ::
        slots[j].value == slots[k].value ==> j == k)
    }

    /** Probing from its home finds the entry: every place before it is taken. */
    ghost predicate Reachable(j: nat)
      reads this, slots
      requires j < slots.Length && |distance| == slots.Length && slots[j].Used?
    {
      slots[j].hash == HashBytes(slots[j].value) && distance[j] < slots.Length &&
      Cyclic(Home(slots[j].hash, slots.Length), distance[j], slots.Length) == j &&
      Taken(Home(slots[j].hash, slots.Length), distance[j])
    }

    ghost predicate Taken(home: nat, n: nat)
      reads slots
      requires home < slots.Length && n <= slots.Length
    {
      forall d | 0 <= d < n :: slots[Cyclic(home, d, slots.Length)].Used?
    }

    /** The keys that were added. */
    ghost function Keys(): set<Text>
      reads slots
    {
      KeysOf(slots[..])
    }

    /** kason_lookup_table_init. */
    constructor (capacity: nat)
      requires capacity > 0
      ensures Valid() && Keys() == {} && slots.Length == capacity && fresh(slots)
    {
      slots := new Slot[capacity](_ => Free);
      count := 0;
      distance := seq(capacity, _ => 0);
    }

    /** The keys as they are when a place is filled. */
    ghost predicate Differs(home: nat, n: nat, value: Text)
      reads slots
      requires home < slots.Length && n <= slots.Length && Taken(home, n)
    {
      forall d | 0 <= d < n :: slots[Cyclic(home, d, slots.Length)].value != value
    }

    /** Probing stops at a free place, or has seen every place: the key is not there. */
    lemma Absent(value: Text, n: nat)
      requires Valid() && n <= slots.Length
      requires var home := Home(HashBytes(value), slots.Length);
        Taken(home, n) && Differs(home, n, value) && (n < slots.Length ==> slots[Cyclic(home, n, slots.Length)].Free?)
      ensures value !in Keys()
    {
      hide HashBytes, Home, Cyclic;
      forall j | 0 <= j < slots.Length && slots[j].Used? ensures slots[j].value != value {
        assert Reachable(j);
      }
    }

    lemma Present(index: nat)
      requires index < slots.Length && slots[index].Used?
      ensures slots[index].value in Keys()
    {
    }

    /** With every place taken the table is full. */
    lemma FullTable(home: nat)
      requires Valid() && home < slots.Length && Taken(home, slots.Length)
      ensures count == slots.Length
    {
      hide HashBytes, Home;
      forall j | 0 <= j < slots.Length ensures slots[j].Used? {
        var d := if home <= j then j - home else j + slots.Length - home;
        assert Cyclic(home, d, slots.Length) == j;
      }
      AllUsed(slots[..], slots.Length);
      assert slots[..][..slots.Length] == slots[..];
    }

    /** kason_lookup_find: the entry whose bytes the key stands for, if there is one. */
    method Find(key: Text, hash: nat, length: nat) returns (r: Found)
      requires Valid() && ValidBody(key) && hash == HashBytes(Decoded(key)) && length == |Decoded(key)|
      ensures r.FoundAt? <==> Decoded(key) in Keys()
      ensures r.FoundAt? ==> r.index < slots.Length && slots[r.index].Used? && slots[r.index].value == Decoded(key)
    {
      hide HashBytes, Decoded, ValidBody, Keys;
      var home := Home(hash, slots.Length);
      var index, probes := home, 0;
      ghost var value := Decoded(key);
      while probes < slots.Length
        invariant 0 <= probes <= slots.Length && Taken(home, probes) && Differs(home, probes, value)
        invariant probes < slots.Length ==> index == Cyclic(home, probes, slots.Length)
      {
        var slot := slots[index];
        if slot.Free? {
          Absent(value, probes);
          return NotFound;
        }
        if hash == slot.hash && length == |slot.value| {
          var equal := DecodedKeyEquals(key, slot.value);
          if equal {
            Present(index);
            return FoundAt(index);
          }
        }
        assert slot.value != value by {
          assert Reachable(index);
        }
        index := index + 1;
        if index == slots.Length {
          index := 0;
        }
        probes := probes + 1;
      }
      Absent(value, probes);
      return NotFound;
    }

    /** kason_lookup_table_add: succeeds unless the table is full or has the key. */
    method Add(value: Text) returns (ok: bool)
      requires Valid()
      modifies this, slots
      ensures Valid()
      ensures ok <==> old(count) < slots.Length && value !in old(Keys())
      ensures Keys() == if ok then old(Keys()) + {value} else old(Keys())
      ensures forall j | 0 <= j < slots.Length :: slots[j] == old(slots[j]) || slots[j] == Used(value, HashBytes(value))
      ensures forall j | 0 <= j < slots.Length && old(slots[j]).Used? :: slots[j] == old(slots[j])
    {
      hide HashBytes, Keys;
      if count >= slots.Length {
        return false;
      }
      var hash := HashBytes(value);
      var home := Home(hash, slots.Length);
      var index, probes := home, 0;
      while probes < slots.Length
        invariant 0 <= probes <= slots.Length && Taken(home, probes) && Differs(home, probes, value)
        invariant probes < slots.Length ==> index == Cyclic(home, probes, slots.Length)
      {
        var slot := slots[index];
        if slot.Free? {
          Absent(value, probes);
          Place(value, hash, index, probes);
          return true;
        }
        if slot.hash == hash && |slot.value| == |value| && slot.value == value {
          Present(index);
          return false;
        }
        assert slot.value != value by {
          assert Reachable(index);
        }
        index := index + 1;
        if index == slots.Length {
          index := 0;
        }
        probes := probes + 1;
      }
      FullTable(home);
      return false;
    }

    /** A free place is filled. */
    method Place(value: Text, hash: nat, index: nat, ghost probes: nat)
      requires Valid() && index < slots.Length && slots[index].Free? && hash == HashBytes(value) && value !in Keys()
      requires probes < slots.Length && index == Cyclic(Home(hash, slots.Length), probes, slots.Length)
      requires Taken(Home(hash, slots.Length), probes)
      modifies this, slots
      ensures Valid() && Keys() == old(Keys()) + {value}
      ensures forall j | 0 <= j < slots.Length :: slots[j] == old(slots[j]) || slots[j] == Used(value, HashBytes(value))
      ensures forall j | 0 <= j < slots.Length && old(slots[j]).Used? :: slots[j] == old(slots[j])
    {
      hide HashBytes, Home;
      KeyPlaced(slots[..], index, Used(value, hash));
      slots[index] := Used(value, hash);
      count := count + 1;
      distance := distance[index := probes];
      assert slots[..] == old(slots[..])[index := Used(value, hash)];
      forall j | 0 <= j < slots.Length && slots[j].Used? ensures Reachable(j) {
        if j != index {
          assert old(Reachable(j));
        }
      }
    }
  }

  lemma KeyPlaced(s: seq<Slot>, index: nat, slot: Slot)
    requires index < |s| && s[index].Free? && slot.Used?
    ensures KeysOf(s[index := slot]) == KeysOf(s) + {slot.value}
  {
    var s' := s[index := slot];
    assert s'[index] == slot;
    forall j | 0 <= j < |s| && s[j].Used? ensures s[j].value in KeysOf(s') {
      assert s'[j] == s[j];
    }
  }

  lemma {:induction false} AllUsed(s: seq<Slot>, n: nat)
    requires n <= |s| && forall j | 0 <= j < n :: s[j].Used?
    requires forall j, k | 0 <= j < n && 0 <= k < n && s[j].value == s[k].value :: j == k
    ensures |KeysOf(s[..n])| == n
    decreases n
  {
    if n == 0 {
      assert KeysOf(s[..n]) == {};
    } else {
      AllUsed(s, n - 1);
      var front := s[..n - 1];
      assert forall j | 0 <= j < n - 1 :: s[..n][j] == front[j];
      assert s[..n][n - 1] == s[n - 1];
      assert KeysOf(s[..n]) == KeysOf(front) + {s[n - 1].value};
    }
  }
}
