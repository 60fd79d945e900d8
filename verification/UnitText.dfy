/** Strings in memory: UTF-8, UTF-16 and UTF-32 arrays, and the JSON text of the
    scalar values they hold. */
module UnitText {
  import opened Bytes
  import opened JsonString
  import opened Lookup
  import Compare

  /** The element type of a string in memory. */
  datatype Width = W8 | W16 | W32

  function UnitLimit(width: Width): nat {
    match width
    case W8 => 0x100
    case W16 => 0x1_0000
    case W32 => 0x1_0000_0000
  }

  predicate UnitsOk(width: Width, u: seq<int>) {
    forall k | 0 <= k < |u| :: 0 <= u[k] < UnitLimit(width)
  }

  /** kason_schema_bounded_string_length and its UTF-16 and UTF-32 forms: the first
      terminator, or the capacity when there is none. */
  function ZeroAt(u: seq<int>): (k: nat)
    ensures k <= |u| && 0 !in u[..k] && (k < |u| ==> u[k] == 0)
  {
    if u == [] || u[0] == 0 then 0
    else
      var k := ZeroAt(u[1..]);
      assert u[..1 + k] == [u[0]] + u[1..][..k];
      1 + k
  }

  /** The string in front of the terminator. */
  function CString(u: seq<int>): seq<int> {
    u[..ZeroAt(u)]
  }

  // ------------------------------------------------------------ one character

  /** The units of a scalar value. */
  function EncodeUnit(width: Width, v: Scalar): (u: seq<int>)
    ensures |u| >= 1 && UnitsOk(width, u)
  {
    match width
    case W8 => Utf8(v)
    case W16 => if v < 0x10000 then [v] else [0xD800 + (v - 0x10000) / 1024, 0xDC00 + (v - 0x10000) % 1024]
    case W32 => [v]
  }

  function Next16(u: seq<int>, i: nat): (r: Next)
    requires i < |u| && UnitsOk(W16, u)
    ensures r.NextValue? ==> IsScalar(r.scalar) && i < r.next <= |u|
    ensures !r.NextEnd?
  {
    var unit := u[i];
    if unit == 0 || IsLowSurrogate(unit) then NextError
    else if IsHighSurrogate(unit) then
      if i + 1 >= |u| || !IsLowSurrogate(u[i + 1]) then NextError else NextValue(Combine(unit, u[i + 1]), i + 2)
    else NextValue(unit, i + 1)
  }

  /** One character of a string in memory: kason_schema_utf8_sequence and one round
      of kason_schema_utf16_valid and kason_schema_utf32_valid. */
  function NextUnit(width: Width, u: seq<int>, i: nat): (r: Next)
    requires UnitsOk(width, u)
    ensures r.NextValue? ==> IsScalar(r.scalar) && i < r.next <= |u|
    ensures r.NextEnd? <==> i >= |u|
  {
    if i >= |u| then NextEnd
    else
      match width
      case W8 => if u[i] < 0x80 then NextValue(u[i], i + 1) else NextMultiByte(AsText(u), i)
      case W16 => Next16(u, i)
      case W32 => if u[i] == 0 || !IsScalar(u[i]) then NextError else NextValue(u[i], i + 1)
  }

  function AsText(u: seq<int>): (t: Text)
    requires UnitsOk(W8, u)
    ensures t == u
  {
    u
  }

  predicate UnitsValidFrom(width: Width, u: seq<int>, i: nat)
    requires UnitsOk(width, u)
    decreases |u| - i
  {
    match NextUnit(width, u, i)
    case NextEnd => true
    case NextError => false
    case NextValue(_, n) => UnitsValidFrom(width, u, n)
  }

  /** kason_schema_utf8_valid, kason_schema_utf16_valid, kason_schema_utf32_valid. */
  predicate UnitsValid(width: Width, u: seq<int>)
    requires UnitsOk(width, u)
  {
    UnitsValidFrom(width, u, 0)
  }

  /** The scalar values, as far as they can be decoded. */
  function UnitScalarsFrom(width: Width, u: seq<int>, i: nat): (ss: seq<Scalar>)
    requires UnitsOk(width, u)
    decreases |u| - i
  {
    match NextUnit(width, u, i)
    case NextValue(v, n) => [v] + UnitScalarsFrom(width, u, n)
    case _ => []
  }

  function UnitScalars(width: Width, u: seq<int>): seq<Scalar>
    requires UnitsOk(width, u)
  {
    UnitScalarsFrom(width, u, 0)
  }

  /** The units of a scalar sequence. */
  function Units(width: Width, ss: seq<Scalar>): (u: seq<int>)
    ensures UnitsOk(width, u)
  {
    if ss == [] then [] else EncodeUnit(width, ss[0]) + Units(width, ss[1..])
  }

  function Encoder(width: Width): Scalar -> seq<int> {
    (v: Scalar) => EncodeUnit(width, v)
  }

  lemma {:induction false} UnitsAreEncoded(width: Width, ss: seq<Scalar>)
    ensures Compare.Encoded(Encoder(width), ss) == Units(width, ss)
    decreases |ss|
  {
    if ss != [] {
      Compare.EncodedFront(Encoder(width), ss);
      UnitsAreEncoded(width, ss[1..]);
    }
  }

  lemma {:induction false} Utf8Units(ss: seq<Scalar>)
    ensures Units(W8, ss) == Utf8All(ss)
    decreases |ss|
  {
    if ss != [] {
      Utf8Units(ss[1..]);
    }
  }

  /** A copy of a whole string. */
  method CopyWhole(t: Text) returns (copy: array<int>)
    requires ValidBody(t)
    ensures fresh(copy) && copy[..] == Decoded(t)
  {
    hide ValidBody, ScalarsFrom, Compare.Encoded, Compare.FitCount;
    var encode := Encoder(W8);
    UnitsAreEncoded(W8, Scalars(t));
    Utf8Units(Scalars(t));
    var length := Compare.Copy(t, encode, null, 0);
    copy := new int[length.count](_ => 0);
    Compare.EverythingFits(encode, Scalars(t), length.count);
    assert Scalars(t)[..|Scalars(t)|] == Scalars(t);
    var copied := Compare.Copy(t, encode, copy, length.count);
    assert |copy[..copied.count]| == copied.count;
    assert copy[..copied.count] == copy[..];
  }

  /** kason_strcmp on validated strings: its result is the lexicographic order of the
      bytes that kason_strcpy writes. */
  method CompareCopies(t1: Text, t2: Text) returns (order: int, copy1: array<int>, copy2: array<int>)
    requires ValidBody(t1) && ValidBody(t2)
    ensures order == Compare.Lex(copy1[..], copy2[..])
    ensures order == 0 <==> copy1[..] == copy2[..]
  {
    hide ValidBody, Compare.Lex, Utf8All, Compare.Ranks;
    Compare.ValidOrder(t1, t2);
    order := Compare.Strcmp(t1, t2);
    copy1 := CopyWhole(t1);
    copy2 := CopyWhole(t2);
  }

  // ---------------------------------------------------- decoding and encoding

  lemma PairSplits(v: int)
    requires 0x10000 <= v <= 0x10FFFF
    ensures var high, low := 0xD800 + (v - 0x10000) / 1024, 0xDC00 + (v - 0x10000) % 1024;
      IsHighSurrogate(high) && IsLowSurrogate(low) && Combine(high, low) == v
  {
  }

  lemma PairJoins(high: int, low: int)
    requires IsHighSurrogate(high) && IsLowSurrogate(low)
    ensures var v := Combine(high, low);
      IsScalar(v) && v >= 0x10000 && 0xD800 + (v - 0x10000) / 1024 == high && 0xDC00 + (v - 0x10000) % 1024 == low
  {
  }

  /** What the decoder took are the units of the value it returned. */
  lemma NextIsEncoded(width: Width, u: seq<int>, i: nat)
    requires UnitsOk(width, u) && NextUnit(width, u, i).NextValue?
    ensures var r := NextUnit(width, u, i); u[i..r.next] == EncodeUnit(width, r.scalar)
  {
    hide NextMultiByte, Utf8;
    match width
    case W8 =>
      if u[i] >= 0x80 {
        EncodeDecoded(AsText(u), i);
      } else {
        Utf8Ascii(u[i]);
      }
    case W16 =>
      if IsHighSurrogate(u[i]) {
        PairJoins(u[i], u[i + 1]);
      }
    case W32 =>
  }

  /** The decoder returns the value whose units it finds, unless it is a zero that
      would end the string. */
  lemma NextOfEncoded(width: Width, u: seq<int>, i: nat, v: Scalar)
    requires UnitsOk(width, u) && (v == 0 ==> width == W8)
    requires var e := EncodeUnit(width, v); i + |e| <= |u| && u[i..i + |e|] == e
    ensures NextUnit(width, u, i) == NextValue(v, i + |EncodeUnit(width, v)|)
  {
    hide NextMultiByte, Utf8;
    var e := EncodeUnit(width, v);
    assert u[i] == e[0];
    match width
    case W8 =>
      if v >= 0x80 {
        DecodeUtf8(AsText(u), i, v);
      } else {
        Utf8Ascii(v);
      }
    case W16 =>
      if v >= 0x10000 {
        PairSplits(v);
        assert u[i + 1] == e[1];
      }
    case W32 =>
  }

  /** A valid string is the encoding of its scalar values. */
  lemma {:induction false} ValidUnits(width: Width, u: seq<int>, i: nat)
    requires UnitsOk(width, u) && i <= |u| && UnitsValidFrom(width, u, i)
    ensures Units(width, UnitScalarsFrom(width, u, i)) == u[i..]
    decreases |u| - i
  {
    hide NextUnit, EncodeUnit;
    match NextUnit(width, u, i)
    case NextEnd =>
    case NextValue(v, n) =>
      NextIsEncoded(width, u, i);
      ValidUnits(width, u, n);
      assert u[i..] == u[i..n] + u[n..];
      assert ([v] + UnitScalarsFrom(width, u, n))[1..] == UnitScalarsFrom(width, u, n);
  }

  /** The encoding of any scalar values (without zero, unless lengths are explicit)
      is a valid string of them. */
  lemma {:induction false} UnitsDecode(width: Width, u: seq<int>, i: nat, ss: seq<Scalar>)
    requires UnitsOk(width, u) && i <= |u| && u[i..] == Units(width, ss) && (width == W8 || 0 !in ss)
    ensures UnitsValidFrom(width, u, i) && UnitScalarsFrom(width, u, i) == ss
    decreases |ss|
  {
    hide NextUnit, EncodeUnit;
    if ss == [] {
      assert |u[i..]| == 0;
    } else {
      var e := EncodeUnit(width, ss[0]);
      assert |u[i..]| == |e| + |Units(width, ss[1..])|;
      assert u[i..i + |e|] == u[i..][..|e|] == e;
      assert ss[0] in ss;
      NextOfEncoded(width, u, i, ss[0]);
      assert u[i + |e|..] == u[i..][|e|..] == Units(width, ss[1..]);
      UnitsDecode(width, u, i + |e|, ss[1..]);
    }
  }

  lemma {:induction false} UnitsWithoutZero(width: Width, ss: seq<Scalar>)
    ensures 0 in Units(width, ss) <==> 0 in ss
    decreases |ss|
  {
    if ss != [] {
      ZeroUnit(width, ss[0]);
      UnitsWithoutZero(width, ss[1..]);
      assert ss == [ss[0]] + ss[1..];
    }
  }

  lemma ZeroUnit(width: Width, v: Scalar)
    ensures 0 in EncodeUnit(width, v) <==> v == 0
  {
  }

  // -------------------------------------------------------- the JSON text

  function LowerHex(d: nat): (c: Byte)
    requires d < 16
    ensures HexValue(c) == d
  {
    if d < 10 then 0x30 + d else 0x61 + d - 10
  }

  /** The escape letter of a control character that has one, or 0. */
  function EscapeLetter(v: nat): Byte {
    if v == 8 then 0x62
    else if v == 12 then 0x66
    else if v == 10 then 0x6E
    else if v == 13 then 0x72
    else if v == 9 then 0x74
    else 0
  }

  /** How the writer spells a scalar value. */
  function WrittenChar(v: Scalar): (c: Char)
    ensures CharOk(c) && ScalarOf(c) == v
  {
    if v == QUOTE || v == BACKSLASH then Short(v)
    else if v < 0x20 then
      if EscapeLetter(v) != 0 then Short(EscapeLetter(v)) else Unicode([ZERO, ZERO, LowerHex(v / 16), LowerHex(v % 16)])
    else Plain(v)
  }

  function WrittenChars(ss: seq<Scalar>): (cs: seq<Char>)
    ensures CharsOk(cs) && ScalarsOf(cs) == ss
  {
    if ss == [] then []
    else
      var cs := [WrittenChar(ss[0])] + WrittenChars(ss[1..]);
      assert cs[1..] == WrittenChars(ss[1..]);
      cs
  }

  /** The text between the quotes. */
  function JsonBody(ss: seq<Scalar>): Text {
    PrintChars(WrittenChars(ss))
  }

  function QuotedText(ss: seq<Scalar>): Text {
    [QUOTE] + (JsonBody(ss) + [QUOTE])
  }

  lemma {:induction false} JsonBodySnoc(ss: seq<Scalar>, v: Scalar)
    ensures JsonBody(ss + [v]) == JsonBody(ss) + PrintChar(WrittenChar(v))
    decreases |ss|
  {
    hide PrintChar, WrittenChar, JsonBody;
    WrittenUnfold(ss + [v]);
    if ss == [] {
      JsonBodyEmpty();
      assert (ss + [v])[1..] == [];
    } else {
      assert (ss + [v])[1..] == ss[1..] + [v];
      JsonBodySnoc(ss[1..], v);
      WrittenUnfold(ss);
    }
  }

  lemma JsonBodyEmpty()
    ensures JsonBody([]) == []
  {
  }

  lemma WrittenUnfold(ss: seq<Scalar>)
    requires ss != []
    ensures JsonBody(ss) == PrintChar(WrittenChar(ss[0])) + JsonBody(ss[1..])
  {
    hide PrintChar, WrittenChar;
    var cs := WrittenChars(ss);
    assert cs == [WrittenChar(ss[0])] + WrittenChars(ss[1..]);
    assert cs[1..] == WrittenChars(ss[1..]);
  }

  /** What is written is a valid body, and it decodes to the scalar values written. */
  lemma WrittenBodyDecodes(ss: seq<Scalar>)
    ensures ValidBody(JsonBody(ss)) && Scalars(JsonBody(ss)) == ss
  {
    hide ValidFrom, PrintChars, CharsOk, CharOk;
    var t, cs := JsonBody(ss), WrittenChars(ss);
    assert t[0..] == t;
    PrintedIsValid(t, 0, cs);
    ValidIsPrinted(t, 0);
  }

  /** Printer and parser invert each other: the matching kason_strcpy restores the units
      of every valid string from its JSON text. */
  lemma StringRoundTrip(width: Width, u: seq<int>)
    requires UnitsOk(width, u) && UnitsValid(width, u)
    ensures var body := JsonBody(UnitScalars(width, u));
      ValidBody(body) && Compare.Encoded(Encoder(width), Scalars(body)) == u
  {
    hide UnitsValidFrom, UnitScalarsFrom, ValidBody, ValidFrom;
    var ss := UnitScalars(width, u);
    WrittenBodyDecodes(ss);
    UnitsAreEncoded(width, ss);
    ValidUnits(width, u, 0);
    assert u[0..] == u;
  }

  /** The three forms of the same scalar values have the same JSON text. */
  lemma SameText(ss: seq<Scalar>, width: Width)
    requires 0 !in ss
    ensures UnitsValid(width, Units(width, ss)) && QuotedText(UnitScalars(width, Units(width, ss))) == QuotedText(ss)
  {
    var u := Units(width, ss);
    assert u[0..] == u;
    UnitsDecode(width, u, 0, ss);
  }
}
