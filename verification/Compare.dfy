/** Copying decoded strings, and comparing them: on well-formed strings the order is
    that of the UTF-8 bytes, and on all slices it is a total preorder. */
module Compare {
  import opened Bytes
  import opened JsonString
  import opened Lookup

  // ------------------------------------------------------ lexicographic order

  function Lex(a: seq<int>, b: seq<int>): (r: int)
    ensures -1 <= r <= 1
  {
    if a == [] then (if b == [] then 0 else -1)
    else if b == [] then 1
    else if a[0] < b[0] then -1
    else if a[0] > b[0] then 1
    else Lex(a[1..], b[1..])
  }

  lemma {:induction false} LexReflexive(a: seq<int>)
    ensures Lex(a, a) == 0
  {
    if a != [] {
      LexReflexive(a[1..]);
    }
  }

  lemma {:induction false} LexOpposite(a: seq<int>, b: seq<int>)
    ensures Lex(a, b) == -Lex(b, a)
  {
    if a != [] && b != [] && a[0] == b[0] {
      LexOpposite(a[1..], b[1..]);
    }
  }

  lemma {:induction false} LexZero(a: seq<int>, b: seq<int>)
    ensures Lex(a, b) == 0 <==> a == b
  {
    if a != [] && b != [] && a[0] == b[0] {
      LexZero(a[1..], b[1..]);
      assert a == [a[0]] + a[1..] && b == [b[0]] + b[1..];
    }
  }

  lemma {:induction false} LexTransitive(a: seq<int>, b: seq<int>, c: seq<int>)
    requires Lex(a, b) <= 0 && Lex(b, c) <= 0
    ensures Lex(a, c) <= 0
  {
    if a != [] && b != [] && c != [] && a[0] == b[0] == c[0] {
      LexTransitive(a[1..], b[1..], c[1..]);
    }
  }

  lemma {:induction false} LexCommonPrefix(p: seq<int>, a: seq<int>, b: seq<int>)
    ensures Lex(p + a, p + b) == Lex(a, b)
  {
    if p == [] {
      assert p + a == a && p + b == b;
    } else {
      assert (p + a)[1..] == p[1..] + a && (p + b)[1..] == p[1..] + b;
      LexCommonPrefix(p[1..], a, b);
    }
  }

  /** `u` and `v` first differ at `k`, where `u` is smaller. */
  predicate Below(u: seq<int>, v: seq<int>, k: nat) {
    k < |u| && k < |v| && u[..k] == v[..k] && u[k] < v[k]
  }

  lemma LexBelow(u: seq<int>, v: seq<int>, a: seq<int>, b: seq<int>, k: nat)
    requires Below(u, v, k)
    ensures Lex(u + a, v + b) == -1
  {
    var p, x, y := u[..k], u[k..] + a, v[k..] + b;
    assert u + a == p + x && v + b == p + y;
    LexCommonPrefix(p, x, y);
    assert x[0] == u[k] && y[0] == v[k];
  }

  // ---------------------------------------------------- the order of strings

  const AT_END: int := -1
  const AT_ERROR: int := -2

  /** What the comparison sees of a slice: its scalar values, then how it ends. */
  function Ranks(t: Text, i: nat): (r: seq<int>)
    ensures r != []
    decreases |t| - i
  {
    match NextScalar(t, i, false)
    case NextValue(v, n) => [v] + Ranks(t, n)
    case NextEnd => [AT_END]
    case NextError => [AT_ERROR]
  }

  function Order(t1: Text, t2: Text): int {
    Lex(Ranks(t1, 0), Ranks(t2, 0))
  }

  /** kason_strcmp. */
  method Strcmp(t1: Text, t2: Text) returns (r: int)
    ensures r == Order(t1, t2)
  {
    hide NextScalar;
    var ptr1: nat, ptr2: nat := 0, 0;
    while true
      invariant ptr1 <= |t1| && ptr2 <= |t2| && Lex(Ranks(t1, ptr1), Ranks(t2, ptr2)) == Order(t1, t2)
      decreases |t1| - ptr1
    {
      var next1 := StringNext(t1, ptr1, false);
      var next2 := StringNext(t2, ptr2, false);
      if next1.NextError? || next2.NextError? {
        if next1 == next2 {
          return 0;
        }
        return if next1.NextError? then -1 else 1;
      }
      if next1.NextEnd? || next2.NextEnd? {
        if next1 == next2 {
          return 0;
        }
        return if next1.NextEnd? then -1 else 1;
      }
      if next1.scalar < next2.scalar {
        return -1;
      }
      if next1.scalar > next2.scalar {
        return 1;
      }
      RanksStep(t1, ptr1, t2, ptr2);
      ptr1, ptr2 := next1.next, next2.next;
    }
  }

  lemma RanksStep(t1: Text, i: nat, t2: Text, j: nat)
    requires NextScalar(t1, i, false).NextValue? && NextScalar(t2, j, false).NextValue?
    requires NextScalar(t1, i, false).scalar == NextScalar(t2, j, false).scalar
    ensures Lex(Ranks(t1, i), Ranks(t2, j)) == Lex(Ranks(t1, NextScalar(t1, i, false).next), Ranks(t2, NextScalar(t2, j, false).next))
  {
    hide NextScalar;
    var v := NextScalar(t1, i, false).scalar;
    LexCommonPrefix([v], Ranks(t1, NextScalar(t1, i, false).next), Ranks(t2, NextScalar(t2, j, false).next));
  }

  /** Over all slices, malformed ones included, the comparison is a total preorder. */
  lemma OrderIsTotalPreorder(t1: Text, t2: Text, t3: Text)
    ensures Order(t1, t1) == 0
    ensures Order(t1, t2) == -Order(t2, t1)
    ensures Order(t1, t2) <= 0 && Order(t2, t3) <= 0 ==> Order(t1, t3) <= 0
    ensures Order(t1, t2) == 0 <==> Ranks(t1, 0) == Ranks(t2, 0)
  {
    hide Ranks, Lex;
    var a, b, c := Ranks(t1, 0), Ranks(t2, 0), Ranks(t3, 0);
    LexReflexive(a);
    LexOpposite(a, b);
    LexZero(a, b);
    if Lex(a, b) <= 0 && Lex(b, c) <= 0 {
      LexTransitive(a, b, c);
    }
  }

  // ------------------------------------------------------ the order of UTF-8

  /** A longer encoding has the greater lead byte. */
  lemma LongerBelow(u: Scalar, v: Scalar)
    requires u < v && |Utf8(u)| != |Utf8(v)|
    ensures Below(Utf8(u), Utf8(v), 0)
  {
    assert Utf8(u)[..0] == Utf8(v)[..0];
  }

  lemma AtMostTwoBelow(u: Scalar, v: Scalar) returns (k: nat)
    requires u < v && |Utf8(u)| == |Utf8(v)| <= 2
    ensures Below(Utf8(u), Utf8(v), k)
  {
    var x, y := Utf8(u), Utf8(v);
    k := if x[0] != y[0] then 0 else 1;
    assert x[..k] == y[..k];
  }

  lemma ThreeBelow(u: Scalar, v: Scalar) returns (k: nat)
    requires u < v && |Utf8(u)| == |Utf8(v)| == 3
    ensures Below(Utf8(u), Utf8(v), k)
  {
    var x, y := Utf8(u), Utf8(v);
    k := if x[0] != y[0] then 0 else if x[1] != y[1] then 1 else 2;
    assert x[..k] == y[..k];
  }

  lemma FourBelow(u: Scalar, v: Scalar) returns (k: nat)
    requires u < v && |Utf8(u)| == |Utf8(v)| == 4
    ensures Below(Utf8(u), Utf8(v), k)
  {
    var x, y := Utf8(u), Utf8(v);
    k := if x[0] != y[0] then 0 else if x[1] != y[1] then 1 else if x[2] != y[2] then 2 else 3;
    assert x[..k] == y[..k];
  }

  /** The encodings of two scalar values differ at some byte, and there the smaller
      value has the smaller byte. */
  lemma Utf8Below(u: Scalar, v: Scalar) returns (k: nat)
    requires u < v
    ensures Below(Utf8(u), Utf8(v), k)
  {
    hide Utf8, Below;
    if |Utf8(u)| != |Utf8(v)| {
      LongerBelow(u, v);
      k := 0;
    } else if |Utf8(u)| == 4 {
      k := FourBelow(u, v);
    } else if |Utf8(u)| == 3 {
      k := ThreeBelow(u, v);
    } else {
      k := AtMostTwoBelow(u, v);
    }
  }

  /** Decoding without the strict rules reaches the end. */
  predicate WellFormed(t: Text, i: nat)
    decreases |t| - i
  {
    match NextScalar(t, i, false)
    case NextValue(_, n) => WellFormed(t, n)
    case NextEnd => true
    case NextError => false
  }

  /** The bytes of the decoded string from `i` on. */
  function Utf8From(t: Text, i: nat): Text {
    Utf8All(ScalarsFrom(t, i, false))
  }

  lemma Utf8Unfold(t: Text, i: nat)
    ensures var next := NextScalar(t, i, false);
      Utf8From(t, i) == (if next.NextValue? then Utf8(next.scalar) + Utf8From(t, next.next) else []) &&
      Ranks(t, i) == (if next.NextValue? then [next.scalar] + Ranks(t, next.next) else if next.NextEnd? then [AT_END] else [AT_ERROR]) &&
      WellFormed(t, i) == if next.NextValue? then WellFormed(t, next.next) else next.NextEnd?
  {
    hide NextScalar, Utf8;
    var next := NextScalar(t, i, false);
    if next.NextValue? {
      assert ScalarsFrom(t, i, false)[1..] == ScalarsFrom(t, next.next, false);
    }
  }

  lemma Utf8NotEmpty(v: Scalar)
    ensures Utf8(v) != []
  {
  }

  lemma {:induction false} OrderFrom(t1: Text, i: nat, t2: Text, j: nat)
    requires WellFormed(t1, i) && WellFormed(t2, j)
    ensures Lex(Ranks(t1, i), Ranks(t2, j)) == Lex(Utf8From(t1, i), Utf8From(t2, j))
    decreases |t1| - i
  {
    hide NextScalar, Utf8, Utf8From, Ranks, WellFormed, Lex;
    Utf8Unfold(t1, i);
    Utf8Unfold(t2, j);
    var a, b := NextScalar(t1, i, false), NextScalar(t2, j, false);
    var x, y := Utf8From(t1, i), Utf8From(t2, j);
    if a.NextValue? && b.NextValue? {
      var p, q := Ranks(t1, a.next), Ranks(t2, b.next);
      var u, v := Utf8(a.scalar), Utf8(b.scalar);
      if a.scalar == b.scalar {
        OrderFrom(t1, a.next, t2, b.next);
        LexCommonPrefix([a.scalar], p, q);
        LexCommonPrefix(u, Utf8From(t1, a.next), Utf8From(t2, b.next));
      } else if a.scalar < b.scalar {
        var k := Utf8Below(a.scalar, b.scalar);
        LexBelow(u, v, Utf8From(t1, a.next), Utf8From(t2, b.next), k);
        LexBelow([a.scalar], [b.scalar], p, q, 0);
      } else {
        var k := Utf8Below(b.scalar, a.scalar);
        LexBelow(v, u, Utf8From(t2, b.next), Utf8From(t1, a.next), k);
        LexBelow([b.scalar], [a.scalar], q, p, 0);
        LexOpposite(x, y);
        LexOpposite(Ranks(t1, i), Ranks(t2, j));
      }
    } else {
      LexWithEnd(t1, i, t2, j);
    }
  }

  /** One of the two strings has come to its end. */
  lemma LexWithEnd(t1: Text, i: nat, t2: Text, j: nat)
    requires WellFormed(t1, i) && WellFormed(t2, j)
    requires !NextScalar(t1, i, false).NextValue? || !NextScalar(t2, j, false).NextValue?
    ensures Lex(Ranks(t1, i), Ranks(t2, j)) == Lex(Utf8From(t1, i), Utf8From(t2, j))
  {
    hide NextScalar, Utf8, Utf8From, Ranks, WellFormed;
    Utf8Unfold(t1, i);
    Utf8Unfold(t2, j);
    var a, b := NextScalar(t1, i, false), NextScalar(t2, j, false);
    if a.NextValue? {
      Utf8NotEmpty(a.scalar);
    }
    if b.NextValue? {
      Utf8NotEmpty(b.scalar);
    }
    assert [AT_END][1..] == [];
  }

  /** On well-formed strings the sign of kason_strcmp is the lexicographic order of
      the UTF-8 bytes they stand for. */
  lemma OrderIsUtf8Order(t1: Text, t2: Text)
    requires WellFormed(t1, 0) && WellFormed(t2, 0)
    ensures Order(t1, t2) == Lex(Utf8From(t1, 0), Utf8From(t2, 0))
  {
    OrderFrom(t1, 0, t2, 0);
  }

  /** A string that the validator accepts is well formed, and its bytes are those
      that kason_strcpy writes. */
  lemma {:induction false} ValidIsWellFormed(t: Text, i: nat)
    requires ValidFrom(t, i)
    ensures WellFormed(t, i) && ScalarsFrom(t, i, true) == ScalarsFrom(t, i, false)
    decreases |t| - i
  {
    match NextScalar(t, i, true)
    case NextValue(_, n) =>
      StrictIsLax(t, i);
      ValidIsWellFormed(t, n);
    case _ =>
  }

  lemma StrictIsLax(t: Text, i: nat)
    ensures NextScalar(t, i, true).NextValue? ==> NextScalar(t, i, false) == NextScalar(t, i, true)
  {
  }

  /** Validated strings: the order of the decoded bytes, and equality exactly when they are equal. */
  lemma ValidOrder(t1: Text, t2: Text)
    requires ValidBody(t1) && ValidBody(t2)
    ensures Order(t1, t2) == Lex(Decoded(t1), Decoded(t2))
    ensures Order(t1, t2) == 0 <==> Decoded(t1) == Decoded(t2)
  {
    hide NextScalar, Utf8All, Lex, Ranks;
    ValidIsWellFormed(t1, 0);
    ValidIsWellFormed(t2, 0);
    OrderIsUtf8Order(t1, t2);
    LexZero(Decoded(t1), Decoded(t2));
  }

  // ------------------------------------------------------------------ copying

  /** KaSON_STRING_RESULT_ERROR, or the number of units. */
  datatype Copied = StringError | Written(count: nat)

  /** The units of all scalar values under an encoding. */
  function Encoded<U>(encode: Scalar -> seq<U>, scalars: seq<Scalar>): (units: seq<U>)
  {
    if scalars == [] then [] else Encoded(encode, scalars[..|scalars| - 1]) + encode(scalars[|scalars| - 1])
  }

  /** How many leading scalar values fit in `room` units; the first that does not ends the copy. */
  function FitCount<U>(encode: Scalar -> seq<U>, scalars: seq<Scalar>, room: nat): (k: nat)
    ensures k <= |scalars|
  {
    if scalars == [] || |encode(scalars[0])| > room then 0
    else 1 + FitCount(encode, scalars[1..], room - |encode(scalars[0])|)
  }

  lemma EncodedSnoc<U>(encode: Scalar -> seq<U>, scalars: seq<Scalar>, v: Scalar)
    ensures Encoded(encode, scalars + [v]) == Encoded(encode, scalars) + encode(v)
  {
    assert (scalars + [v])[..|scalars|] == scalars;
  }

  /** kason_strcpy, kason_strcpy_utf16 and kason_strcpy_utf32, which differ in the
      encoding of one scalar value. Without a buffer the units are counted; with one,
      whole characters are copied until the first that does not fit. */
  method Copy<U>(t: Text, encode: Scalar -> seq<U>, buffer: array?<U>, size: int) returns (r: Copied)
    requires buffer != null ==> size <= buffer.Length
    modifies if buffer == null then {} else {buffer}
    ensures r.StringError? <==> size < 0 || !ValidBody(t)
    ensures r.Written? && buffer == null ==> r.count == |Encoded(encode, Scalars(t))|
    ensures r.Written? && buffer != null ==>
      r.count <= size && buffer[..r.count] == Encoded(encode, Scalars(t)[..FitCount(encode, Scalars(t), size)]) &&
      buffer[r.count..] == old(buffer[r.count..])
  {
    hide NextScalar, ValidBody, Encoded, FitCount;
    if size < 0 {
      return StringError;
    }
    var ptr: nat, written: nat, full := 0, 0, false;
    ghost var all := Scalars(t);
    ghost var done: seq<Scalar> := [];
    CopyStart(t, encode, size);
    while true
      invariant ptr <= |t| && ValidFrom(t, ptr) == ValidBody(t) && all == done + ScalarsFrom(t, ptr, true)
      invariant buffer == null ==> written == |Encoded(encode, done)|
      invariant buffer != null ==>
        written <= size && buffer[written..] == old(buffer[written..]) && |done| <= |all| &&
        if full then buffer[..written] == Encoded(encode, all[..FitCount(encode, all, size)])
        else
          buffer[..written] == Encoded(encode, done) &&
          FitCount(encode, all, size) == |done| + FitCount(encode, ScalarsFrom(t, ptr, true), size - written)
      decreases |t| - ptr
    {
      var next := StringNext(t, ptr, true);
      match next {
        case NextError =>
          StopsHere(t, ptr);
          return StringError;
        case NextEnd =>
          StopsHere(t, ptr);
          if buffer != null && !full {
            FitNothing(encode, size - written);
            assert all[..|done|] == done;
          }
          assert buffer == null ==> all == done;
          return Written(written);
        case NextValue(v, n) =>
          GoesOn(t, ptr);
          var units := encode(v);
          EncodedSnoc(encode, done, v);
          ghost var rest := ScalarsFrom(t, n, true);
          if buffer == null {
            written := written + |units|;
          } else if !full && |units| <= size - written {
            FitOne(encode, v, rest, size - written);
            PutUnits(buffer, written, units);
            written := written + |units|;
          } else {
            if !full {
              FitNone(encode, v, rest, size - written);
              assert all[..|done|] == done;
            }
            full := true;
          }
          assert done + ([v] + rest) == (done + [v]) + rest;
          done := done + [v];
          ptr := n;
      }
    }
  }

  lemma CopyStart<U>(t: Text, encode: Scalar -> seq<U>, size: nat)
    ensures Encoded(encode, []) == [] && [] + Scalars(t) == Scalars(t) && ScalarsFrom(t, 0, true) == Scalars(t)
    ensures ValidFrom(t, 0) == ValidBody(t)
  {
  }

  lemma StopsHere(t: Text, i: nat)
    requires !NextScalar(t, i, true).NextValue?
    ensures ScalarsFrom(t, i, true) == [] && (ValidFrom(t, i) <==> NextScalar(t, i, true).NextEnd?)
  {
  }

  lemma GoesOn(t: Text, i: nat)
    requires NextScalar(t, i, true).NextValue?
    ensures var next := NextScalar(t, i, true);
      ScalarsFrom(t, i, true) == [next.scalar] + ScalarsFrom(t, next.next, true) && ValidFrom(t, i) == ValidFrom(t, next.next)
  {
  }

  lemma FitNothing<U>(encode: Scalar -> seq<U>, room: nat)
    ensures FitCount(encode, [], room) == 0
  {
  }

  lemma FitOne<U>(encode: Scalar -> seq<U>, v: Scalar, rest: seq<Scalar>, room: nat)
    requires |encode(v)| <= room
    ensures FitCount(encode, [v] + rest, room) == 1 + FitCount(encode, rest, room - |encode(v)|)
  {
    assert ([v] + rest)[1..] == rest;
  }

  lemma FitNone<U>(encode: Scalar -> seq<U>, v: Scalar, rest: seq<Scalar>, room: nat)
    requires |encode(v)| > room
    ensures FitCount(encode, [v] + rest, room) == 0
  {
  }

  /** The units of one character are stored. */
  method PutUnits<U>(buffer: array<U>, at: nat, units: seq<U>)
    requires at + |units| <= buffer.Length
    modifies buffer
    ensures buffer[..at + |units|] == old(buffer[..at]) + units
    ensures buffer[at + |units|..] == old(buffer[at + |units|..])
  {
    for i := 0 to |units|
      invariant buffer[..at] == old(buffer[..at]) && buffer[at..at + i] == units[..i]
      invariant buffer[at + i..] == old(buffer[at + i..])
    {
      buffer[at + i] := units[i];
    }
    assert buffer[..at + |units|] == buffer[..at] + buffer[at..at + |units|];
  }

  /** With enough room everything fits. */
  lemma {:induction false} EverythingFits<U>(encode: Scalar -> seq<U>, scalars: seq<Scalar>, room: nat)
    requires |Encoded(encode, scalars)| <= room
    ensures FitCount(encode, scalars, room) == |scalars|
    decreases |scalars|
  {
    if scalars != [] {
      EncodedFront(encode, scalars);
      EverythingFits(encode, scalars[1..], room - |encode(scalars[0])|);
    }
  }

  lemma {:induction false} EncodedFront<U>(encode: Scalar -> seq<U>, scalars: seq<Scalar>)
    requires scalars != []
    ensures Encoded(encode, scalars) == encode(scalars[0]) + Encoded(encode, scalars[1..])
    decreases |scalars|
  {
    var front, v := scalars[..|scalars| - 1], scalars[|scalars| - 1];
    if |scalars| == 1 {
      assert scalars[1..] == [] && front == [];
    } else {
      EncodedFront(encode, front);
      assert scalars[1..] == front[1..] + [v];
      EncodedSnoc(encode, front[1..], v);
      assert encode(scalars[0]) + Encoded(encode, front[1..]) + encode(v) ==
        encode(scalars[0]) + (Encoded(encode, front[1..]) + encode(v));
    }
  }
}
