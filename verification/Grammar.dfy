/** JSON texts as concrete syntax trees: sections 2 to 7 of RFC 8259.

    A tree records every byte of the text it prints, white space included, so
    "the input is a JSON text" is "some well-formed tree prints it". */
module Grammar {
  import opened Bytes
  import opened JsonString
  import opened Number

  datatype Kind = Object | Array

  function OpenOf(kind: Kind): Byte {
    if kind.Object? then LBRACE else LBRACKET
  }

  function CloseOf(kind: Kind): Byte {
    if kind.Object? then RBRACE else RBRACKET
  }

  /** The name of an object member with its colon; array elements have none. */
  datatype Key = NoKey | Key(chars: seq<Char>, before: Text, after: Text)

  datatype Value =
    | Null | True | False
    | Num(number: Number)
    | Str(chars: seq<Char>)
    | Empty(kind: Kind, ws: Text)
    | Filled(kind: Kind, ws: Text, members: Members)

  /** An object member or array element and the white space behind it. */
  datatype Member = Member(key: Key, value: Value, ws: Text)

  /** One or more members; `gap` follows the comma. */
  datatype Members =
    | Last(member: Member)
    | More(member: Member, gap: Text, rest: Members)

  predicate KeyOk(key: Key, kind: Kind) {
    match key
    case NoKey => kind.Array?
    case Key(cs, b, a) => kind.Object? && CharsOk(cs) && AllWhitespace(b) && AllWhitespace(a)
  }

  predicate ValueOk(v: Value) {
    match v
    case Num(n) => NumberOk(n)
    case Str(cs) => CharsOk(cs)
    case Empty(_, ws) => AllWhitespace(ws)
    case Filled(kind, ws, ms) => AllWhitespace(ws) && MembersOk(ms, kind)
    case _ => true
  }

  predicate MemberOk(m: Member, kind: Kind) {
    KeyOk(m.key, kind) && ValueOk(m.value) && AllWhitespace(m.ws)
  }

  predicate MembersOk(ms: Members, kind: Kind) {
    MemberOk(ms.member, kind) && (ms.More? ==> AllWhitespace(ms.gap) && MembersOk(ms.rest, kind))
  }

  const NULL: Text := [0x6E, 0x75, 0x6C, 0x6C]
  const TRUE: Text := [0x74, 0x72, 0x75, 0x65]
  const FALSE: Text := [0x66, 0x61, 0x6C, 0x73, 0x65]

  function Quoted(cs: seq<Char>): (t: Text)
    requires CharsOk(cs)
  {
    [QUOTE] + (PrintChars(cs) + [QUOTE])
  }

  function PrintKey(key: Key, kind: Kind): Text
    requires KeyOk(key, kind)
  {
    match key
    case NoKey => []
    case Key(cs, b, a) => Quoted(cs) + (b + ([COLON] + a))
  }

  function PrintValue(v: Value): (t: Text)
    requires ValueOk(v)
    ensures |t| >= 1
    decreases v, 0
  {
    match v
    case Null => NULL
    case True => TRUE
    case False => FALSE
    case Num(n) => PrintNumber(n)
    case Str(cs) => Quoted(cs)
    case Empty(kind, ws) => [OpenOf(kind)] + (ws + [CloseOf(kind)])
    case Filled(kind, ws, ms) => [OpenOf(kind)] + (ws + (PrintMembers(ms, kind) + [CloseOf(kind)]))
  }

  function PrintMember(m: Member, kind: Kind): Text
    requires MemberOk(m, kind)
    decreases m, 1
  {
    PrintKey(m.key, kind) + (PrintValue(m.value) + m.ws)
  }

  function PrintMembers(ms: Members, kind: Kind): Text
    requires MembersOk(ms, kind)
    decreases ms, 2
  {
    match ms
    case Last(m) => PrintMember(m, kind)
    case More(m, gap, rest) => PrintMember(m, kind) + ([COMMA] + (gap + PrintMembers(rest, kind)))
  }

  function Max(a: nat, b: nat): nat {
    if a < b then b else a
  }

  /** Levels of values below the outermost one. */
  function Height(v: Value): nat {
    if v.Filled? then 1 + MembersHeight(v.members) else 0
  }

  function MembersHeight(ms: Members): nat {
    if ms.Last? then Height(ms.member.value) else Max(Height(ms.member.value), MembersHeight(ms.rest))
  }

  /** Levels of brackets. */
  function BracketDepth(v: Value): nat {
    match v
    case Empty(_, _) => 1
    case Filled(_, _, ms) => 1 + MembersDepth(ms)
    case _ => 0
  }

  function MembersDepth(ms: Members): nat {
    if ms.Last? then BracketDepth(ms.member.value) else Max(BracketDepth(ms.member.value), MembersDepth(ms.rest))
  }

  function Count(ms: Members): nat {
    if ms.Last? then 1 else 1 + Count(ms.rest)
  }

  /** A JSON text: one value, surrounded by white space. */
  datatype Document = Document(before: Text, value: Value, after: Text)

  predicate DocumentOk(d: Document) {
    AllWhitespace(d.before) && ValueOk(d.value) && AllWhitespace(d.after)
  }

  function PrintDocument(d: Document): Text
    requires DocumentOk(d)
  {
    d.before + (PrintValue(d.value) + d.after)
  }

  /** The texts the library accepts: RFC 8259 with every value at depth at most `MAX_NESTING`. */
  ghost predicate IsJsonText(s: Text) {
    exists d :: DocumentOk(d) && Height(d.value) <= MAX_NESTING && PrintDocument(d) == s
  }

  // -------------------------------------------------------- first bytes

  predicate StartsValue(c: int) {
    c == QUOTE || c == MINUS || IsDigit(c) || c == LBRACE || c == LBRACKET || c == 0x6E || c == 0x74 || c == 0x66
  }

  lemma FirstOfValue(v: Value)
    requires ValueOk(v)
    ensures |PrintValue(v)| >= 1 && StartsValue(PrintValue(v)[0])
    ensures PrintValue(v)[0] == LBRACE || PrintValue(v)[0] == LBRACKET <==> v.Empty? || v.Filled?
  {
    if v.Num? {
      var n := v.number;
      assert PrintNumber(n)[0] == if n.negative then MINUS else n.integer[0];
    }
  }

  predicate IsContainer(v: Value) {
    v.Empty? || v.Filled?
  }

  // ---------------------------------------------------------- bare tokens

  predicate IsBareByte(c: int) {
    IsDigit(c) || c == PLUS || c == MINUS || c == DOT || IsExponentMark(c) || (0x61 <= c <= 0x7A)
  }

  predicate IsBare(v: Value) {
    v.Null? || v.True? || v.False? || v.Num?
  }

  lemma NumberBytes(n: Number)
    requires NumberOk(n)
    ensures forall k | 0 <= k < |PrintNumber(n)| :: IsBareByte(PrintNumber(n)[k])
  {
    var d, f, e := n.integer, PrintFrac(n.frac), PrintExponent(n.exponent);
    assert forall k | 0 <= k < |f| :: IsBareByte(f[k]);
    assert forall k | 0 <= k < |e| :: IsBareByte(e[k]);
    assert forall k | 0 <= k < |d| :: IsBareByte(d[k]);
  }

  lemma BareBytes(v: Value)
    requires ValueOk(v) && IsBare(v)
    ensures PrintValue(v) != [] && forall k | 0 <= k < |PrintValue(v)| :: IsBareByte(PrintValue(v)[k])
  {
    if v.Num? {
      NumberBytes(v.number);
    }
  }

  lemma FirstOfNumber(n: Number)
    requires NumberOk(n)
    ensures PrintNumber(n) != [] && (PrintNumber(n)[0] == MINUS || IsDigit(PrintNumber(n)[0]))
  {
  }

  // -------------------------------------------------------------- reading

  function ReadKey(s: Text, i: nat, kind: Kind): (r: Read<Key>)
    requires i <= |s|
    ensures r.Read? ==> i <= r.next <= |s|
  {
    if kind.Array? then Read(NoKey, i)
    else if At(s, i) != QUOTE || ReadBody(s, i + 1).NoBody? then NoRead
    else
      var close := ReadBody(s, i + 1).close;
      var p := SkipWs(s, close + 1);
      if At(s, p) != COLON then NoRead
      else
        var q := SkipWs(s, p + 1);
        Read(Key(ReadBody(s, i + 1).chars, s[close + 1..p], s[p + 1..q]), q)
  }

  function ReadPrimitive(s: Text, i: nat): (r: Read<Value>)
    ensures r.Read? ==> i < r.next <= |s|
  {
    var c := At(s, i);
    if c == QUOTE then
      if ReadBody(s, i + 1).NoBody? then NoRead
      else Read(Str(ReadBody(s, i + 1).chars), ReadBody(s, i + 1).close + 1)
    else if c == MINUS || IsDigit(c) then
      var n := ReadNumber(s, i);
      if n.NoRead? then NoRead else Read(Num(n.value), n.next)
    else if Occurs(s, i, TRUE) then Read(True, i + 4)
    else if Occurs(s, i, FALSE) then Read(False, i + 5)
    else if Occurs(s, i, NULL) then Read(Null, i + 4)
    else NoRead
  }

  /** The value that starts exactly at `i`, itself at depth `depth`. */
  function ReadValue(s: Text, i: nat, depth: int): (r: Read<Value>)
    requires i <= |s|
    ensures r.Read? ==> i < r.next <= |s|
    decreases |s| - i, 0
  {
    var c := At(s, i);
    if depth > MAX_NESTING then NoRead
    else if c == LBRACE then ReadContainer(s, i, depth, Object)
    else if c == LBRACKET then ReadContainer(s, i, depth, Array)
    else ReadPrimitive(s, i)
  }

  function ReadContainer(s: Text, i: nat, depth: int, kind: Kind): (r: Read<Value>)
    requires i < |s|
    ensures r.Read? ==> i < r.next <= |s|
    decreases |s| - i - 1, 3
  {
    var k := SkipWs(s, i + 1);
    if At(s, k) == CloseOf(kind) then Read(Empty(kind, s[i + 1..k]), k + 1)
    else
      var ms := ReadMembers(s, k, depth, kind);
      if ms.NoRead? then NoRead else Read(Filled(kind, s[i + 1..k], ms.value), ms.next + 1)
  }

  /** One member with the white space behind it. */
  function ReadMember(s: Text, i: nat, depth: int, kind: Kind): (r: Read<Member>)
    requires i <= |s|
    ensures r.Read? ==> i < r.next <= |s| && !IsWhitespace(At(s, r.next))
    decreases |s| - i, 1
  {
    var key := ReadKey(s, i, kind);
    if key.NoRead? then NoRead
    else
      var v := ReadValue(s, key.next, depth + 1);
      if v.NoRead? then NoRead
      else
        var p := SkipWs(s, v.next);
        Read(Member(key.value, v.value, s[v.next..p]), p)
  }

  /** Members from `i` up to, and not including, the closing bracket at `next`. */
  function ReadMembers(s: Text, i: nat, depth: int, kind: Kind): (r: Read<Members>)
    requires i <= |s|
    ensures r.Read? ==> i < r.next < |s| && s[r.next] == CloseOf(kind)
    decreases |s| - i, 2
  {
    var m := ReadMember(s, i, depth, kind);
    if m.NoRead? then NoRead
    else if At(s, m.next) == CloseOf(kind) then Read(Last(m.value), m.next)
    else if At(s, m.next) != COMMA then NoRead
    else
      var q := SkipWs(s, m.next + 1);
      var rest := ReadMembers(s, q, depth, kind);
      if rest.NoRead? then NoRead else Read(More(m.value, s[m.next + 1..q], rest.value), rest.next)
  }

  /** The whole input as one document. */
  function ReadDocument(s: Text): (r: Read<Document>) {
    var i := SkipWs(s, 0);
    var v := ReadValue(s, i, 0);
    if v.NoRead? then NoRead
    else
      var j := SkipWs(s, v.next);
      if j < |s| then NoRead else Read(Document(s[..i], v.value, s[v.next..]), |s|)
  }

  // ------------------------------------------------- the reader is sound

  lemma SkippedIsWs(s: Text, i: nat)
    requires i <= |s|
    ensures var w := s[i..SkipWs(s, i)]; AllWhitespace(w) && Occurs(s, i, w)
  {
  }

  lemma ReadQuotedSound(s: Text, i: nat)
    requires At(s, i) == QUOTE && ReadBody(s, i + 1).Body?
    ensures var r := ReadBody(s, i + 1);
      CharsOk(r.chars) && Occurs(s, i, Quoted(r.chars)) && r.close + 1 == i + |Quoted(r.chars)|
  {
    hide Occurs, PrintChars, CharsOk, ReadBody;
    var r := ReadBody(s, i + 1);
    ReadBodySound(s, i + 1);
    OccursByte(s, i, QUOTE);
    OccursByte(s, r.close, QUOTE);
    OccursConcat(s, i + 1, PrintChars(r.chars), [QUOTE]);
    OccursConcat(s, i, [QUOTE], PrintChars(r.chars) + [QUOTE]);
  }

  lemma ReadKeySound(s: Text, i: nat, kind: Kind)
    requires i <= |s| && ReadKey(s, i, kind).Read?
    ensures var r := ReadKey(s, i, kind);
      KeyOk(r.value, kind) && Occurs(s, i, PrintKey(r.value, kind)) && r.next == i + |PrintKey(r.value, kind)|
  {
    hide Quoted, Occurs, AllWhitespace, CharsOk, ReadBody, SkipWs, IsWhitespace;
    if kind.Array? {
      OccursNothing(s, i);
    } else {
      ReadQuotedSound(s, i);
      var key := ReadKey(s, i, kind).value;
      var c := ReadBody(s, i + 1).close + 1;
      var p := SkipWs(s, c);
      SkippedIsWs(s, c);
      SkippedIsWs(s, p + 1);
      OccursByte(s, p, COLON);
      OccursConcat(s, p, [COLON], key.after);
      OccursConcat(s, c, key.before, [COLON] + key.after);
      OccursConcat(s, i, Quoted(key.chars), key.before + ([COLON] + key.after));
    }
  }

  lemma ReadPrimitiveSound(s: Text, i: nat)
    requires ReadPrimitive(s, i).Read?
    ensures var r := ReadPrimitive(s, i);
      ValueOk(r.value) && Occurs(s, i, PrintValue(r.value)) && r.next == i + |PrintValue(r.value)|
    ensures Height(ReadPrimitive(s, i).value) == 0
  {
    hide Quoted, ReadNumber, PrintNumber, NumberOk;
    var c := At(s, i);
    if c == QUOTE {
      ReadQuotedSound(s, i);
    } else if c == MINUS || IsDigit(c) {
      ReadNumberSound(s, i);
    }
  }

  /** A member, a comma, a gap and the other members. */
  lemma MoreOccurs(s: Text, i: nat, member: Text, gap: Text, rest: Text)
    ensures var n := i + |member|;
      Occurs(s, i, member + ([COMMA] + (gap + rest))) <==>
        Occurs(s, i, member) && At(s, n) == COMMA && Occurs(s, n + 1, gap) && Occurs(s, n + 1 + |gap|, rest)
  {
    hide Occurs;
    var n := i + |member|;
    OccursConcat(s, i, member, [COMMA] + (gap + rest));
    OccursConcat(s, n, [COMMA], gap + rest);
    OccursConcat(s, n + 1, gap, rest);
    OccursByte(s, n, COMMA);
  }

  lemma {:induction false} ReadValueSound(s: Text, i: nat, depth: int)
    requires i <= |s| && ReadValue(s, i, depth).Read?
    ensures var r := ReadValue(s, i, depth);
      ValueOk(r.value) && Occurs(s, i, PrintValue(r.value)) && r.next == i + |PrintValue(r.value)| &&
      depth + Height(r.value) <= MAX_NESTING
    decreases |s| - i, 0
  {
    hide ReadPrimitive;
    var c := At(s, i);
    if c == LBRACE {
      ReadContainerSound(s, i, depth, Object);
    } else if c == LBRACKET {
      ReadContainerSound(s, i, depth, Array);
    } else {
      ReadPrimitiveSound(s, i);
    }
  }

  lemma {:induction false} ReadContainerSound(s: Text, i: nat, depth: int, kind: Kind)
    requires i < |s| && s[i] == OpenOf(kind) && depth <= MAX_NESTING && ReadContainer(s, i, depth, kind).Read?
    ensures var r := ReadContainer(s, i, depth, kind);
      ValueOk(r.value) && Occurs(s, i, PrintValue(r.value)) && r.next == i + |PrintValue(r.value)| &&
      depth + Height(r.value) <= MAX_NESTING
    decreases |s| - i - 1, 3
  {
    hide ReadMembers, PrintMembers, Occurs, AllWhitespace, MembersOk;
    var k := SkipWs(s, i + 1);
    var ws := s[i + 1..k];
    SkippedIsWs(s, i + 1);
    OccursByte(s, i, OpenOf(kind));
    if At(s, k) == CloseOf(kind) {
      OccursByte(s, k, CloseOf(kind));
      OccursConcat(s, i + 1, ws, [CloseOf(kind)]);
      OccursConcat(s, i, [OpenOf(kind)], ws + [CloseOf(kind)]);
    } else {
      ReadMembersSound(s, k, depth, kind);
      var ms := ReadMembers(s, k, depth, kind);
      OccursByte(s, ms.next, CloseOf(kind));
      OccursConcat(s, k, PrintMembers(ms.value, kind), [CloseOf(kind)]);
      OccursConcat(s, i + 1, ws, PrintMembers(ms.value, kind) + [CloseOf(kind)]);
      OccursConcat(s, i, [OpenOf(kind)], ws + (PrintMembers(ms.value, kind) + [CloseOf(kind)]));
    }
  }

  lemma {:induction false} ReadMemberSound(s: Text, i: nat, depth: int, kind: Kind)
    requires i <= |s| && ReadMember(s, i, depth, kind).Read?
    ensures var r := ReadMember(s, i, depth, kind);
      MemberOk(r.value, kind) && Occurs(s, i, PrintMember(r.value, kind)) &&
      r.next == i + |PrintMember(r.value, kind)| && depth + 1 + Height(r.value.value) <= MAX_NESTING
    decreases |s| - i, 1
  {
    hide ReadKey, KeyOk, PrintKey, ReadValue, ValueOk, PrintValue, AllWhitespace, Occurs, Height;
    var key := ReadKey(s, i, kind);
    ReadKeySound(s, i, kind);
    ReadValueSound(s, key.next, depth + 1);
    var v := ReadValue(s, key.next, depth + 1);
    var ws := s[v.next..SkipWs(s, v.next)];
    SkippedIsWs(s, v.next);
    OccursConcat(s, key.next, PrintValue(v.value), ws);
    OccursConcat(s, i, PrintKey(key.value, kind), PrintValue(v.value) + ws);
  }

  /** One member of a successful read. */
  lemma ReadMembersCases(s: Text, i: nat, depth: int, kind: Kind)
    requires i <= |s| && ReadMembers(s, i, depth, kind).Read?
    ensures var m := ReadMember(s, i, depth, kind);
      m.Read? &&
      if At(s, m.next) == CloseOf(kind) then ReadMembers(s, i, depth, kind) == Read(Last(m.value), m.next)
      else
        var q := SkipWs(s, m.next + 1);
        At(s, m.next) == COMMA && q <= |s| && ReadMembers(s, q, depth, kind).Read? &&
        var rest := ReadMembers(s, q, depth, kind);
        ReadMembers(s, i, depth, kind) == Read(More(m.value, s[m.next + 1..q], rest.value), rest.next)
  {
    hide ReadMember, SkipWs;
  }

  lemma {:induction false} ReadMembersSound(s: Text, i: nat, depth: int, kind: Kind)
    requires i <= |s| && ReadMembers(s, i, depth, kind).Read?
    ensures var r := ReadMembers(s, i, depth, kind);
      MembersOk(r.value, kind) && Occurs(s, i, PrintMembers(r.value, kind)) &&
      r.next == i + |PrintMembers(r.value, kind)| && depth + 1 + MembersHeight(r.value) <= MAX_NESTING
    decreases |s| - i, 2
  {
    hide ReadMember, ReadMembers, SkipWs, MemberOk, PrintMember, AllWhitespace, Occurs, Height;
    ReadMembersCases(s, i, depth, kind);
    ReadMemberSound(s, i, depth, kind);
    var m := ReadMember(s, i, depth, kind);
    if At(s, m.next) != CloseOf(kind) {
      var q := SkipWs(s, m.next + 1);
      SkippedIsWs(s, m.next + 1);
      ReadMembersSound(s, q, depth, kind);
      MoreOccurs(s, i, PrintMember(m.value, kind), s[m.next + 1..q], PrintMembers(ReadMembers(s, q, depth, kind).value, kind));
    }
  }

  // --------------------------------------------- the reader is complete

  lemma QuotedComplete(s: Text, i: nat, cs: seq<Char>)
    requires CharsOk(cs) && Occurs(s, i, Quoted(cs))
    ensures At(s, i) == QUOTE && ReadBody(s, i + 1) == Body(cs, i + |Quoted(cs)| - 1)
  {
    var t := PrintChars(cs);
    OccursConcat(s, i, [QUOTE], t + [QUOTE]);
    OccursConcat(s, i + 1, t, [QUOTE]);
    OccursByte(s, i, QUOTE);
    OccursByte(s, i + 1 + |t|, QUOTE);
    ReadBodyComplete(s, i + 1, cs);
  }

  lemma ReadKeyComplete(s: Text, i: nat, key: Key, kind: Kind)
    requires i <= |s| && KeyOk(key, kind) && Occurs(s, i, PrintKey(key, kind))
    requires !IsWhitespace(At(s, i + |PrintKey(key, kind)|))
    ensures ReadKey(s, i, kind) == Read(key, i + |PrintKey(key, kind)|)
  {
    hide Quoted, AllWhitespace, CharsOk, ReadBody, SkipWs, Occurs, IsWhitespace;
    if kind.Object? {
      ColonNotWhitespace();
      var c := i + |Quoted(key.chars)|;
      var p := c + |key.before|;
      OccursConcat(s, i, Quoted(key.chars), key.before + ([COLON] + key.after));
      OccursConcat(s, c, key.before, [COLON] + key.after);
      OccursConcat(s, p, [COLON], key.after);
      OccursByte(s, p, COLON);
      QuotedComplete(s, i, key.chars);
      SkipWsTo(s, c, key.before);
      SkipWsTo(s, p + 1, key.after);
      OccursIsSlice(s, c, key.before);
      OccursIsSlice(s, p + 1, key.after);
    }
  }

  lemma ColonNotWhitespace()
    ensures !IsWhitespace(COLON)
  {
  }

  /** A byte that may follow a value inside a text. */
  predicate EndsValue(c: int) {
    !ExtendsNumber(c)
  }

  lemma ReadPrimitiveComplete(s: Text, i: nat, v: Value)
    requires ValueOk(v) && !v.Empty? && !v.Filled? && Occurs(s, i, PrintValue(v))
    requires EndsValue(At(s, i + |PrintValue(v)|))
    ensures ReadPrimitive(s, i) == Read(v, i + |PrintValue(v)|)
  {
    hide ReadNumber, PrintNumber, NumberOk, Quoted, ReadBody;
    FirstOfValue(v);
    OccursAt(s, i, PrintValue(v), 0);
    match v
    case Str(cs) => QuotedComplete(s, i, cs);
    case Num(n) =>
      ReadNumberComplete(s, i, n);
      ReadNumberStart(s, i);
    case _ =>
  }

  lemma ReadNumberStart(s: Text, i: nat)
    requires ReadNumber(s, i).Read?
    ensures At(s, i) == MINUS || IsDigit(At(s, i))
  {
  }

  lemma StartOfValue(s: Text, i: nat, v: Value)
    requires ValueOk(v) && Occurs(s, i, PrintValue(v))
    ensures i < |s| && StartsValue(s[i])
    ensures s[i] == LBRACE || s[i] == LBRACKET <==> v.Empty? || v.Filled?
  {
    FirstOfValue(v);
    OccursAt(s, i, PrintValue(v), 0);
  }

  lemma {:induction false} ReadValueComplete(s: Text, i: nat, depth: int, v: Value)
    requires ValueOk(v) && Occurs(s, i, PrintValue(v)) && depth + Height(v) <= MAX_NESTING
    requires EndsValue(At(s, i + |PrintValue(v)|)) && i <= |s|
    ensures ReadValue(s, i, depth) == Read(v, i + |PrintValue(v)|)
    decreases v, 0
  {
    hide ReadPrimitive, ReadContainer, Occurs, PrintValue, ValueOk, StartsValue, EndsValue;
    StartOfValue(s, i, v);
    match v
    case Empty(kind, ws) => ReadEmptyComplete(s, i, depth, v);
    case Filled(kind, ws, ms) => ReadFilledComplete(s, i, depth, v);
    case _ => ReadPrimitiveComplete(s, i, v);
  }

  lemma ReadEmptyComplete(s: Text, i: nat, depth: int, v: Value)
    requires v.Empty? && ValueOk(v) && Occurs(s, i, PrintValue(v))
    ensures i < |s| && s[i] == OpenOf(v.kind)
    ensures ReadContainer(s, i, depth, v.kind) == Read(v, i + |PrintValue(v)|)
  {
    hide ReadContainer, Occurs, AllWhitespace, SkipWs;
    var kind, ws := v.kind, v.ws;
    OccursConcat(s, i, [OpenOf(kind)], ws + [CloseOf(kind)]);
    OccursConcat(s, i + 1, ws, [CloseOf(kind)]);
    OccursByte(s, i, OpenOf(kind));
    OccursByte(s, i + 1 + |ws|, CloseOf(kind));
    OccursIsSlice(s, i + 1, ws);
    SkipWsTo(s, i + 1, ws);
    ReadContainerEmpty(s, i, depth, v);
  }

  lemma {:induction false} ReadFilledComplete(s: Text, i: nat, depth: int, v: Value)
    requires v.Filled? && ValueOk(v) && Occurs(s, i, PrintValue(v)) && depth + Height(v) <= MAX_NESTING
    ensures i < |s| && s[i] == OpenOf(v.kind)
    ensures ReadContainer(s, i, depth, v.kind) == Read(v, i + |PrintValue(v)|)
    decreases v.members, 3
  {
    hide ReadContainer, Occurs, ReadMembers, PrintMembers, MembersOk, AllWhitespace, SkipWs;
    var kind, ws, ms := v.kind, v.ws, v.members;
    var t := PrintMembers(ms, kind);
    var k := i + 1 + |ws|;
    OccursConcat(s, i, [OpenOf(kind)], ws + (t + [CloseOf(kind)]));
    OccursConcat(s, i + 1, ws, t + [CloseOf(kind)]);
    OccursConcat(s, k, t, [CloseOf(kind)]);
    OccursByte(s, i, OpenOf(kind));
    OccursByte(s, k + |t|, CloseOf(kind));
    OccursIsSlice(s, i + 1, ws);
    FirstOfMembers(s, k, ms, kind);
    SkipWsTo(s, i + 1, ws);
    ReadMembersComplete(s, k, depth, ms, kind);
    ReadContainerFilled(s, i, depth, v);
  }

  lemma ReadContainerEmpty(s: Text, i: nat, depth: int, v: Value)
    requires i < |s| && v.Empty? && At(s, SkipWs(s, i + 1)) == CloseOf(v.kind)
    requires s[i + 1..SkipWs(s, i + 1)] == v.ws
    ensures ReadContainer(s, i, depth, v.kind) == Read(v, i + 2 + |v.ws|)
  {
  }

  lemma ReadContainerFilled(s: Text, i: nat, depth: int, v: Value)
    requires i < |s| && v.Filled? && At(s, SkipWs(s, i + 1)) != CloseOf(v.kind)
    requires s[i + 1..SkipWs(s, i + 1)] == v.ws
    requires ReadMembers(s, SkipWs(s, i + 1), depth, v.kind).Read?
    requires ReadMembers(s, SkipWs(s, i + 1), depth, v.kind).value == v.members
    ensures ReadContainer(s, i, depth, v.kind) == Read(v, ReadMembers(s, SkipWs(s, i + 1), depth, v.kind).next + 1)
  {
  }

  lemma FirstOfMembers(s: Text, i: nat, ms: Members, kind: Kind)
    requires MembersOk(ms, kind) && Occurs(s, i, PrintMembers(ms, kind))
    ensures i < |s| && !IsWhitespace(s[i]) && s[i] != CloseOf(kind)
    ensures StartsValue(s[i])
  {
    hide PrintValue;
    var m := ms.member;
    if ms.More? {
      OccursConcat(s, i, PrintMember(m, kind), [COMMA] + (ms.gap + PrintMembers(ms.rest, kind)));
    }
    OccursConcat(s, i, PrintKey(m.key, kind), PrintValue(m.value) + m.ws);
    if kind.Object? {
      OccursAt(s, i, PrintKey(m.key, kind), 0);
    } else {
      OccursConcat(s, i, PrintValue(m.value), m.ws);
      FirstOfValue(m.value);
      OccursAt(s, i, PrintValue(m.value), 0);
    }
  }

  lemma {:induction false} ReadMemberComplete(s: Text, i: nat, depth: int, m: Member, kind: Kind)
    requires MemberOk(m, kind) && Occurs(s, i, PrintMember(m, kind)) && depth + 1 + Height(m.value) <= MAX_NESTING
    requires At(s, i + |PrintMember(m, kind)|) == CloseOf(kind) || At(s, i + |PrintMember(m, kind)|) == COMMA
    requires i <= |s|
    ensures ReadMember(s, i, depth, kind) == Read(m, i + |PrintMember(m, kind)|)
    decreases m, 1
  {
    hide ReadMember, ReadKey, PrintKey, KeyOk, PrintValue, ValueOk, ReadValue, AllWhitespace, SkipWs, Height, Occurs,
      IsWhitespace, StartsValue, EndsValue;
    var a := i + |PrintKey(m.key, kind)|;
    var b := a + |PrintValue(m.value)|;
    OccursConcat(s, i, PrintKey(m.key, kind), PrintValue(m.value) + m.ws);
    OccursConcat(s, a, PrintValue(m.value), m.ws);
    StartOfValue(s, a, m.value);
    StartsNotWhitespace(s[a]);
    BracketEnds(At(s, b + |m.ws|));
    assert EndsValue(At(s, b)) by {
      if m.ws != [] {
        WhitespaceAt(s, b, m.ws);
        WhitespaceEnds(At(s, b));
      }
    }
    ReadKeyComplete(s, i, m.key, kind);
    ReadValueComplete(s, a, depth + 1, m.value);
    SkipWsTo(s, b, m.ws);
    OccursIsSlice(s, b, m.ws);
    ReadMemberParts(s, i, depth, m, kind);
  }

  lemma ReadMemberParts(s: Text, i: nat, depth: int, m: Member, kind: Kind)
    requires i <= |s| && ReadKey(s, i, kind).Read? && ReadKey(s, i, kind).value == m.key
    requires ReadValue(s, ReadKey(s, i, kind).next, depth + 1).Read?
    requires ReadValue(s, ReadKey(s, i, kind).next, depth + 1).value == m.value
    requires var b := ReadValue(s, ReadKey(s, i, kind).next, depth + 1).next; s[b..SkipWs(s, b)] == m.ws
    ensures var b := ReadValue(s, ReadKey(s, i, kind).next, depth + 1).next;
      ReadMember(s, i, depth, kind) == Read(m, b + |m.ws|)
  {
  }

  lemma BracketEnds(c: int)
    ensures c == COMMA || c == RBRACE || c == RBRACKET ==> EndsValue(c) && !IsWhitespace(c)
  {
  }

  lemma StartsNotWhitespace(c: int)
    requires StartsValue(c)
    ensures !IsWhitespace(c)
  {
  }

  lemma WhitespaceEnds(c: int)
    requires IsWhitespace(c)
    ensures EndsValue(c)
  {
  }

  lemma OccursIsSlice(s: Text, i: nat, t: Text)
    requires Occurs(s, i, t)
    ensures i + |t| <= |s| && s[i..i + |t|] == t
  {
  }

  lemma WhitespaceAt(s: Text, i: nat, ws: Text)
    requires Occurs(s, i, ws) && AllWhitespace(ws) && ws != []
    ensures IsWhitespace(At(s, i))
  {
    OccursAt(s, i, ws, 0);
  }

  lemma ReadMembersOf(s: Text, i: nat, depth: int, kind: Kind, m: Member, next: nat)
    requires i <= |s| && ReadMember(s, i, depth, kind) == Read(m, next) && next <= |s|
    ensures At(s, next) == CloseOf(kind) ==> ReadMembers(s, i, depth, kind) == Read(Last(m), next)
    ensures At(s, next) == COMMA ==>
      var q := SkipWs(s, next + 1);
      var rest := ReadMembers(s, q, depth, kind);
      q <= |s| && ReadMembers(s, i, depth, kind) == if rest.Read? then Read(More(m, s[next + 1..q], rest.value), rest.next) else NoRead
  {
    hide ReadMember, SkipWs;
  }

  lemma {:induction false} ReadMembersComplete(s: Text, i: nat, depth: int, ms: Members, kind: Kind)
    requires MembersOk(ms, kind) && Occurs(s, i, PrintMembers(ms, kind))
    requires depth + 1 + MembersHeight(ms) <= MAX_NESTING
    requires At(s, i + |PrintMembers(ms, kind)|) == CloseOf(kind) && i <= |s|
    ensures ReadMembers(s, i, depth, kind) == Read(ms, i + |PrintMembers(ms, kind)|)
    decreases ms, 2
  {
    hide ReadMember, ReadMembers, PrintMember, MemberOk, AllWhitespace, SkipWs, Occurs, Height;
    var m := ms.member;
    var p := i + |PrintMember(m, kind)|;
    if ms.More? {
      var rest := PrintMembers(ms.rest, kind);
      var q := p + 1 + |ms.gap|;
      MoreOccurs(s, i, PrintMember(m, kind), ms.gap, rest);
      OccursIsSlice(s, p + 1, ms.gap);
      FirstOfMembers(s, q, ms.rest, kind);
      SkipWsTo(s, p + 1, ms.gap);
      ReadMembersComplete(s, q, depth, ms.rest, kind);
    }
    ReadMemberComplete(s, i, depth, m, kind);
    ReadMembersOf(s, i, depth, kind, m, p);
  }

  // ---------------------------------------------------------- documents

  /** The reader accepts exactly the JSON texts, and there is one tree for each. */
  lemma ReadDocumentIffJsonText(s: Text)
    ensures ReadDocument(s).Read? <==> IsJsonText(s)
    ensures ReadDocument(s).Read? ==>
      var d := ReadDocument(s).value;
      DocumentOk(d) && Height(d.value) <= MAX_NESTING && PrintDocument(d) == s
  {
    if ReadDocument(s).Read? {
      ReadDocumentSound(s);
    }
    forall d | DocumentOk(d) && Height(d.value) <= MAX_NESTING && PrintDocument(d) == s
      ensures ReadDocument(s) == Read(d, |s|)
    {
      ReadDocumentComplete(d);
    }
  }

  lemma ReadDocumentSound(s: Text)
    requires ReadDocument(s).Read?
    ensures var d := ReadDocument(s).value;
      DocumentOk(d) && Height(d.value) <= MAX_NESTING && PrintDocument(d) == s
  {
    hide ReadValue, PrintValue, ValueOk, Occurs, SkipWs, AllWhitespace, IsWhitespace, Height;
    var i := SkipWs(s, 0);
    var v := ReadValue(s, i, 0);
    ReadValueSound(s, i, 0);
    SkippedIsWs(s, 0);
    SkippedIsWs(s, v.next);
    assert s[..i] == s[0..i] && s[v.next..] == s[v.next..SkipWs(s, v.next)];
    OccursConcat(s, i, PrintValue(v.value), s[v.next..]);
    OccursConcat(s, 0, s[..i], PrintValue(v.value) + s[v.next..]);
    OccursWhole(s, s[..i] + (PrintValue(v.value) + s[v.next..]));
  }

  lemma OccursWhole(s: Text, t: Text)
    ensures Occurs(s, 0, t) && |t| == |s| <==> s == t
  {
    if Occurs(s, 0, t) && |t| == |s| {
      assert s == s[0..|s|];
    }
    if s == t {
      assert s == s[0..|s|];
    }
  }

  /** The value of a document, read in place from any depth it fits. */
  lemma ReadRootComplete(d: Document, depth: int)
    requires DocumentOk(d) && depth + Height(d.value) <= MAX_NESTING
    ensures var s, i := PrintDocument(d), |d.before|;
      SkipWs(s, 0) == i && i <= |s| && ReadValue(s, i, depth) == Read(d.value, i + |PrintValue(d.value)|) &&
      SkipWs(s, i + |PrintValue(d.value)|) == |s| && Occurs(s, 0, d.before) && Occurs(s, i + |PrintValue(d.value)|, d.after)
  {
    hide ReadValue, ValueOk, PrintValue, Occurs, SkipWs, AllWhitespace, IsWhitespace, Height, EndsValue, StartsValue;
    var s := PrintDocument(d);
    var t := PrintValue(d.value);
    var i := |d.before|;
    var j := i + |t|;
    OccursWhole(s, s);
    OccursConcat(s, 0, d.before, t + d.after);
    OccursConcat(s, i, t, d.after);
    StartOfValue(s, i, d.value);
    StartsNotWhitespace(s[i]);
    EndIsNothing(At(s, |s|));
    SkipWsTo(s, 0, d.before);
    SkipWsTo(s, j, d.after);
    assert EndsValue(At(s, j)) by {
      if d.after != [] {
        WhitespaceAt(s, j, d.after);
        WhitespaceEnds(At(s, j));
      }
    }
    ReadValueComplete(s, i, depth, d.value);
  }

  lemma ReadDocumentComplete(d: Document)
    requires DocumentOk(d) && Height(d.value) <= MAX_NESTING
    ensures ReadDocument(PrintDocument(d)) == Read(d, |PrintDocument(d)|)
  {
    hide ReadValue, ValueOk, PrintValue, Occurs, SkipWs, AllWhitespace, IsWhitespace, Height;
    var s := PrintDocument(d);
    ReadRootComplete(d, 0);
    var i, j := |d.before|, |d.before| + |PrintValue(d.value)|;
    OccursIsSlice(s, 0, d.before);
    OccursIsSlice(s, j, d.after);
    assert s[..i] == s[0..i] && s[j..] == s[j..|s|];
  }

  /** A text has at most one tree, however deep. */
  lemma Unambiguous(d: Document, d': Document)
    requires DocumentOk(d) && DocumentOk(d') && PrintDocument(d) == PrintDocument(d')
    ensures d == d'
  {
    hide ReadValue, ValueOk, PrintValue, Occurs, SkipWs, AllWhitespace, IsWhitespace, Height, PrintDocument;
    var s := PrintDocument(d);
    var depth: int := 0 - Height(d.value) - Height(d'.value);
    ReadRootComplete(d, depth);
    ReadRootComplete(d', depth);
    var i, j := |d.before|, |d.before| + |PrintValue(d.value)|;
    OccursIsSlice(s, 0, d.before);
    OccursIsSlice(s, 0, d'.before);
    assert j + |d.after| == |s| && j + |d'.after| == |s| by {
      PrintedLength(d);
      PrintedLength(d');
    }
    OccursIsSlice(s, j, d.after);
    OccursIsSlice(s, j, d'.after);
  }

  lemma PrintedLength(d: Document)
    requires DocumentOk(d)
    ensures |PrintDocument(d)| == |d.before| + |PrintValue(d.value)| + |d.after|
  {
    hide PrintValue;
  }

  lemma EndIsNothing(c: int)
    ensures c == -1 ==> !IsWhitespace(c) && EndsValue(c)
  {
  }
}
