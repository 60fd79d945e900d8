/** Formatting on syntax trees: only the white space changes, and it becomes the
    same whatever it was before. */
module FormatTrees {
  import opened Bytes
  import opened JsonString
  import opened Number
  import opened Grammar
  import opened StringScan
  import opened Format

  // -------------------------------------------------- the printed trees

  function CompactKey(key: Key): Key {
    if key.Key? then key.(before := [], after := []) else key
  }

  function CompactValue(v: Value): Value
    decreases v, 0
  {
    match v
    case Empty(kind, _) => Empty(kind, [])
    case Filled(kind, _, ms) => Filled(kind, [], CompactMembers(ms))
    case _ => v
  }

  function CompactMember(m: Member): Member
    decreases m, 1
  {
    Member(CompactKey(m.key), CompactValue(m.value), [])
  }

  function CompactMembers(ms: Members): Members
    decreases ms, 2
  {
    if ms.Last? then Last(CompactMember(ms.member)) else More(CompactMember(ms.member), [], CompactMembers(ms.rest))
  }

  function PrettyKey(key: Key): Key {
    if key.Key? then key.(before := [], after := [SPACE]) else key
  }

  /** `depth` is how many containers around the value are spread over lines. */
  function PrettyValue(v: Value, depth: nat): Value
    decreases v, 0
  {
    match v
    case Empty(kind, _) => Empty(kind, [])
    case Filled(kind, _, ms) => Filled(kind, Line(depth + 1), PrettyMembers(ms, depth + 1, Line(depth)))
    case _ => v
  }

  function PrettyMember(m: Member, depth: nat, ws: Text): Member
    decreases m, 1
  {
    Member(PrettyKey(m.key), PrettyValue(m.value, depth), ws)
  }

  /** `last` is the white space behind the last member. */
  function PrettyMembers(ms: Members, depth: nat, last: Text): Members
    decreases ms, 2
  {
    if ms.Last? then Last(PrettyMember(ms.member, depth, last))
    else More(PrettyMember(ms.member, depth, []), Line(depth), PrettyMembers(ms.rest, depth, last))
  }

  // ------------------------------------------------ they are well formed

  lemma {:induction false} CompactOk(v: Value)
    requires ValueOk(v)
    ensures ValueOk(CompactValue(v)) && Height(CompactValue(v)) == Height(v) && BracketDepth(CompactValue(v)) == BracketDepth(v)
    decreases v, 0
  {
    if v.Filled? {
      CompactMembersOk(v.members, v.kind);
    }
  }

  lemma {:induction false} CompactMembersOk(ms: Members, kind: Kind)
    requires MembersOk(ms, kind)
    ensures var r := CompactMembers(ms);
      MembersOk(r, kind) && MembersHeight(r) == MembersHeight(ms) && MembersDepth(r) == MembersDepth(ms)
    decreases ms, 2
  {
    CompactOk(ms.member.value);
    if ms.More? {
      CompactMembersOk(ms.rest, kind);
    }
  }

  lemma LineIsSpace(depth: nat)
    ensures AllWhitespace(Line(depth)) && forall k | 0 <= k < |Line(depth)| :: IsSpace(Line(depth)[k])
  {
  }

  lemma {:induction false} PrettyOk(v: Value, depth: nat)
    requires ValueOk(v)
    ensures ValueOk(PrettyValue(v, depth)) && Height(PrettyValue(v, depth)) == Height(v)
    ensures BracketDepth(PrettyValue(v, depth)) == BracketDepth(v)
    decreases v, 0
  {
    hide Line;
    if v.Filled? {
      LineIsSpace(depth);
      LineIsSpace(depth + 1);
      PrettyMembersOk(v.members, v.kind, depth + 1, Line(depth));
    }
  }

  lemma {:induction false} PrettyMembersOk(ms: Members, kind: Kind, depth: nat, last: Text)
    requires MembersOk(ms, kind) && AllWhitespace(last)
    ensures var r := PrettyMembers(ms, depth, last);
      MembersOk(r, kind) && MembersHeight(r) == MembersHeight(ms) && MembersDepth(r) == MembersDepth(ms)
    decreases ms, 2
  {
    hide Line;
    PrettyOk(ms.member.value, depth);
    LineIsSpace(depth);
    if ms.More? {
      PrettyMembersOk(ms.rest, kind, depth, last);
    }
  }

  // ------------------------------------------ the white space is forgotten

  lemma {:induction false} CompactOfPretty(v: Value, depth: nat)
    ensures CompactValue(PrettyValue(v, depth)) == CompactValue(v)
    decreases v, 0
  {
    if v.Filled? {
      CompactOfPrettyMembers(v.members, depth + 1, Line(depth));
    }
  }

  lemma {:induction false} CompactOfPrettyMembers(ms: Members, depth: nat, last: Text)
    ensures CompactMembers(PrettyMembers(ms, depth, last)) == CompactMembers(ms)
    decreases ms, 2
  {
    CompactOfPretty(ms.member.value, depth);
    if ms.More? {
      CompactOfPrettyMembers(ms.rest, depth, last);
    }
  }

  lemma {:induction false} PrettyOfPretty(v: Value, depth: nat)
    ensures PrettyValue(PrettyValue(v, depth), depth) == PrettyValue(v, depth)
    ensures PrettyValue(CompactValue(v), depth) == PrettyValue(v, depth)
    ensures CompactValue(CompactValue(v)) == CompactValue(v)
    decreases v, 0
  {
    if v.Filled? {
      PrettyOfPrettyMembers(v.members, depth + 1, Line(depth));
    }
  }

  lemma {:induction false} PrettyOfPrettyMembers(ms: Members, depth: nat, last: Text)
    ensures PrettyMembers(PrettyMembers(ms, depth, last), depth, last) == PrettyMembers(ms, depth, last)
    ensures PrettyMembers(CompactMembers(ms), depth, last) == PrettyMembers(ms, depth, last)
    ensures CompactMembers(CompactMembers(ms)) == CompactMembers(ms)
    decreases ms, 2
  {
    PrettyOfPretty(ms.member.value, depth);
    if ms.More? {
      PrettyOfPrettyMembers(ms.rest, depth, last);
    }
  }

  // --------------------------------------------- compact, token by token

  lemma {:induction false} SpaceDropped(t: Text, i: nat, w: Text)
    requires AllWhitespace(w) && Occurs(t, i, w)
    ensures CompactFrom(t, i, Outside) == CompactFrom(t, i + |w|, Outside)
    decreases |w|
  {
    if w != [] {
      assert w == [w[0]] + w[1..];
      OccursConcat(t, i, [w[0]], w[1..]);
      OccursByte(t, i, w[0]);
      SpaceDropped(t, i + 1, w[1..]);
    }
  }

  lemma {:induction false} StringKept(t: Text, i: nat, q: Quote)
    requires q != Outside && QuoteFrom(t, i, q == Escaped) >= 0
    ensures var stop := QuoteFrom(t, i, q == Escaped) + 1;
      CompactFrom(t, i, q) == t[i..stop] + CompactFrom(t, stop, Outside)
    decreases |t| - i
  {
    var stop := QuoteFrom(t, i, q == Escaped) + 1;
    if q == Inside && t[i] == QUOTE {
      assert t[i..stop] == [t[i]];
    } else {
      StringKept(t, i + 1, Quoting(q, t[i]));
      assert t[i..stop] == [t[i]] + t[i + 1..stop];
    }
  }

  lemma QuotedKept(t: Text, i: nat, cs: seq<Char>)
    requires CharsOk(cs) && Occurs(t, i, Quoted(cs))
    ensures CompactFrom(t, i, Outside) == Quoted(cs) + CompactFrom(t, i + |Quoted(cs)|, Outside)
  {
    hide Quoted, CharsOk, CompactFrom, Occurs;
    QuotedStops(t, i, cs);
    StringKept(t, i + 1, Inside);
    StringBegins(t, i);
    var stop := i + |Quoted(cs)|;
    assert t[i..stop] == [t[i]] + t[i + 1..stop];
    var rest := CompactFrom(t, stop, Outside);
    assert [t[i]] + (t[i + 1..stop] + rest) == [t[i]] + t[i + 1..stop] + rest;
  }

  lemma StringBegins(t: Text, i: nat)
    requires At(t, i) == QUOTE
    ensures CompactFrom(t, i, Outside) == [QUOTE] + CompactFrom(t, i + 1, Inside)
  {
  }

  /** Where a printed string is closed. */
  lemma QuotedStops(t: Text, i: nat, cs: seq<Char>)
    requires CharsOk(cs) && Occurs(t, i, Quoted(cs))
    ensures At(t, i) == QUOTE && QuoteFrom(t, i + 1, false) == i + |Quoted(cs)| - 1 >= i + 1
    ensures i + |Quoted(cs)| <= |t| && t[i..i + |Quoted(cs)|] == Quoted(cs)
  {
    hide PrintChars, CharsOk;
    var x := PrintChars(cs);
    OccursConcat(t, i, [QUOTE], x + [QUOTE]);
    OccursConcat(t, i + 1, x, [QUOTE]);
    OccursByte(t, i, QUOTE);
    OccursByte(t, i + 1 + |x|, QUOTE);
    CharsSkip(t, i + 1, cs);
  }

  predicate IsToken(c: int) {
    c != QUOTE && !IsSpace(c)
  }

  lemma {:induction false} TokenKept(t: Text, i: nat, x: Text)
    requires Occurs(t, i, x) && forall k | 0 <= k < |x| :: IsToken(x[k])
    ensures CompactFrom(t, i, Outside) == x + CompactFrom(t, i + |x|, Outside)
    decreases |x|
  {
    if x != [] {
      assert x == [x[0]] + x[1..];
      OccursConcat(t, i, [x[0]], x[1..]);
      OccursByte(t, i, x[0]);
      TokenKept(t, i + 1, x[1..]);
    }
  }

  lemma BareIsToken(v: Value)
    requires ValueOk(v) && IsBare(v)
    ensures forall k | 0 <= k < |PrintValue(v)| :: IsToken(PrintValue(v)[k])
  {
    hide PrintValue;
    BareBytes(v);
  }

  lemma {:induction false} ValueCompacted(t: Text, i: nat, v: Value)
    requires ValueOk(v) && Occurs(t, i, PrintValue(v))
    ensures ValueOk(CompactValue(v))
    ensures CompactFrom(t, i, Outside) == PrintValue(CompactValue(v)) + CompactFrom(t, i + |PrintValue(v)|, Outside)
    decreases v, 1
  {
    hide CompactFrom, Occurs, Quoted, PrintMembers, MembersOk, AllWhitespace, PrintNumber, NumberOk, CompactMembers;
    CompactOk(v);
    match v
    case Str(cs) => QuotedKept(t, i, cs);
    case Empty(kind, ws) => ContainerCompacted(t, i, v);
    case Filled(kind, ws, ms) => ContainerCompacted(t, i, v);
    case _ =>
      BareIsToken(v);
      TokenKept(t, i, PrintValue(v));
  }

  lemma ContainerText(v: Value)
    requires ValueOk(v) && IsContainer(v)
    ensures AllWhitespace(v.ws) && (v.Filled? ==> MembersOk(v.members, v.kind))
    ensures PrintValue(v) == [OpenOf(v.kind)] + (v.ws + (InnerText(v) + [CloseOf(v.kind)]))
  {
    hide AllWhitespace, PrintMembers;
    if v.Empty? {
      assert [] + [CloseOf(v.kind)] == [CloseOf(v.kind)];
    }
  }

  function InnerText(v: Value): Text
    requires ValueOk(v) && IsContainer(v)
  {
    if v.Filled? then PrintMembers(v.members, v.kind) else []
  }

  /** The parts of a container in a text. */
  lemma ContainerAt(t: Text, i: nat, v: Value)
    requires ValueOk(v) && IsContainer(v) && Occurs(t, i, PrintValue(v))
    ensures At(t, i) == OpenOf(v.kind) && Occurs(t, i + 1, v.ws) && Occurs(t, i + 1 + |v.ws|, InnerText(v))
    ensures At(t, i + |PrintValue(v)| - 1) == CloseOf(v.kind)
    ensures |PrintValue(v)| == 2 + |v.ws| + |InnerText(v)|
  {
    hide Occurs, PrintValue, ValueOk, InnerText;
    ContainerText(v);
    var x := InnerText(v);
    OccursConcat(t, i, [OpenOf(v.kind)], v.ws + (x + [CloseOf(v.kind)]));
    OccursConcat(t, i + 1, v.ws, x + [CloseOf(v.kind)]);
    OccursConcat(t, i + 1 + |v.ws|, x, [CloseOf(v.kind)]);
    OccursByte(t, i, OpenOf(v.kind));
    OccursByte(t, i + 1 + |v.ws| + |x|, CloseOf(v.kind));
  }

  lemma ByteKept(t: Text, i: nat, c: Byte)
    requires At(t, i) == c && IsToken(c)
    ensures CompactFrom(t, i, Outside) == [c] + CompactFrom(t, i + 1, Outside)
  {
  }

  lemma {:induction false} ContainerCompacted(t: Text, i: nat, v: Value)
    requires ValueOk(v) && IsContainer(v) && Occurs(t, i, PrintValue(v)) && ValueOk(CompactValue(v))
    ensures CompactFrom(t, i, Outside) == PrintValue(CompactValue(v)) + CompactFrom(t, i + |PrintValue(v)|, Outside)
    decreases v, 0
  {
    hide CompactFrom, Occurs, PrintMembers, MembersOk, AllWhitespace, CompactMembers;
    ContainerText(v);
    ContainerAt(t, i, v);
    ByteKept(t, i, OpenOf(v.kind));
    SpaceDropped(t, i + 1, v.ws);
    var k := i + 1 + |v.ws|;
    var end := i + |PrintValue(v)|;
    var x: Text := [];
    if v.Filled? {
      MembersCompacted(t, k, v.members, v.kind);
      x := PrintMembers(CompactMembers(v.members), v.kind);
    }
    ByteKept(t, end - 1, CloseOf(v.kind));
    CompactText(OpenOf(v.kind), x, CloseOf(v.kind), CompactFrom(t, end, Outside));
  }

  lemma CompactText(open: Byte, x: Text, close: Byte, rest: Text)
    ensures [open] + (x + ([close] + rest)) == [open] + ([] + (x + [close])) + rest
    ensures [open] + ([close] + rest) == [open] + ([] + [close]) + rest
    ensures [] + ([close] + rest) == [close] + rest
  {
  }

  lemma KeyCompacted(t: Text, i: nat, key: Key, kind: Kind)
    requires KeyOk(key, kind) && Occurs(t, i, PrintKey(key, kind))
    ensures CompactFrom(t, i, Outside) == PrintKey(CompactKey(key), kind) + CompactFrom(t, i + |PrintKey(key, kind)|, Outside)
  {
    hide CompactFrom, Occurs, Quoted, AllWhitespace, CharsOk;
    if key.Key? {
      var x := Quoted(key.chars);
      var c := i + |x|;
      var d := c + |key.before|;
      OccursConcat(t, i, x, key.before + ([COLON] + key.after));
      OccursConcat(t, c, key.before, [COLON] + key.after);
      OccursConcat(t, d, [COLON], key.after);
      OccursByte(t, d, COLON);
      QuotedKept(t, i, key.chars);
      SpaceDropped(t, c, key.before);
      ByteKept(t, d, COLON);
      SpaceDropped(t, d + 1, key.after);
      var rest := CompactFrom(t, d + 1 + |key.after|, Outside);
      assert x + ([COLON] + rest) == x + ([] + ([COLON] + [])) + rest;
    }
  }

  lemma {:induction false} MemberCompacted(t: Text, i: nat, m: Member, kind: Kind)
    requires MemberOk(m, kind) && Occurs(t, i, PrintMember(m, kind))
    ensures MemberOk(CompactMember(m), kind)
    ensures CompactFrom(t, i, Outside) == PrintMember(CompactMember(m), kind) + CompactFrom(t, i + |PrintMember(m, kind)|, Outside)
    decreases m, 2
  {
    hide CompactFrom, Occurs, PrintKey, PrintValue, ValueOk, AllWhitespace, CompactValue;
    var k, x := PrintKey(m.key, kind), PrintValue(m.value);
    OccursConcat(t, i, k, x + m.ws);
    OccursConcat(t, i + |k|, x, m.ws);
    KeyCompacted(t, i, m.key, kind);
    ValueCompacted(t, i + |k|, m.value);
    SpaceDropped(t, i + |k| + |x|, m.ws);
    assert AllWhitespace([]) by {
      NoSpace();
    }
    var rest := CompactFrom(t, i + |k| + |x| + |m.ws|, Outside);
    var k', x' := PrintKey(CompactKey(m.key), kind), PrintValue(CompactValue(m.value));
    assert k' + (x' + rest) == k' + (x' + []) + rest;
  }

  lemma NoSpace()
    ensures AllWhitespace([])
  {
  }

  lemma {:induction false} MembersCompacted(t: Text, i: nat, ms: Members, kind: Kind)
    requires MembersOk(ms, kind) && Occurs(t, i, PrintMembers(ms, kind))
    ensures MembersOk(CompactMembers(ms), kind)
    ensures CompactFrom(t, i, Outside) ==
      PrintMembers(CompactMembers(ms), kind) + CompactFrom(t, i + |PrintMembers(ms, kind)|, Outside)
    decreases ms, 3
  {
    hide CompactFrom, Occurs, PrintMember, MemberOk, AllWhitespace, CompactMember;
    var m := ms.member;
    MemberCompactedOnly(t, i, ms, kind);
    if ms.More? {
      var n := i + |PrintMember(m, kind)|;
      MoreOccurs(t, i, PrintMember(m, kind), ms.gap, PrintMembers(ms.rest, kind));
      ByteKept(t, n, COMMA);
      SpaceDropped(t, n + 1, ms.gap);
      MembersCompacted(t, n + 1 + |ms.gap|, ms.rest, kind);
      NoSpace();
      var x, y := PrintMember(CompactMember(m), kind), PrintMembers(CompactMembers(ms.rest), kind);
      var rest := CompactFrom(t, i + |PrintMembers(ms, kind)|, Outside);
      assert x + ([COMMA] + (y + rest)) == x + ([COMMA] + ([] + y)) + rest;
    }
  }

  lemma {:induction false} MemberCompactedOnly(t: Text, i: nat, ms: Members, kind: Kind)
    requires MembersOk(ms, kind) && Occurs(t, i, PrintMembers(ms, kind))
    ensures var m := ms.member;
      MemberOk(CompactMember(m), kind) &&
      CompactFrom(t, i, Outside) == PrintMember(CompactMember(m), kind) + CompactFrom(t, i + |PrintMember(m, kind)|, Outside)
    decreases ms, 2
  {
    hide CompactFrom, Occurs, PrintMember, MemberOk, AllWhitespace, CompactMember;
    if ms.More? {
      MoreOccurs(t, i, PrintMember(ms.member, kind), ms.gap, PrintMembers(ms.rest, kind));
    }
    MemberCompacted(t, i, ms.member, kind);
  }
}
