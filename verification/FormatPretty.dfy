/** The pretty printer writes the tree with its canonical white space. */
module FormatPretty {
  import opened Bytes
  import opened JsonString
  import opened Number
  import opened Grammar
  import opened StringScan
  import opened Format
  import opened FormatTrees

  lemma {:induction false} SpaceSkipped(t: Text, i: nat, w: Text, stack: seq<bool>)
    requires AllWhitespace(w) && Occurs(t, i, w)
    ensures PrettyFrom(t, i, Outside, stack) == PrettyFrom(t, i + |w|, Outside, stack)
    ensures NextSolid(t, i) == NextSolid(t, i + |w|)
    decreases |w|
  {
    hide PrettyFrom;
    if w != [] {
      assert w == [w[0]] + w[1..];
      OccursConcat(t, i, [w[0]], w[1..]);
      OccursByte(t, i, w[0]);
      PrettyStep(t, i, Outside, stack);
      SpaceSkipped(t, i + 1, w[1..], stack);
    }
  }

  lemma {:induction false} StringCopied(t: Text, i: nat, q: Quote, stack: seq<bool>)
    requires q != Outside && QuoteFrom(t, i, q == Escaped) >= 0
    ensures var stop := QuoteFrom(t, i, q == Escaped) + 1;
      PrettyFrom(t, i, q, stack) == Prefixed(t[i..stop], PrettyFrom(t, stop, Outside, stack))
    decreases |t| - i
  {
    hide PrettyFrom, Prefixed;
    var stop := QuoteFrom(t, i, q == Escaped) + 1;
    PrettyStep(t, i, q, stack);
    if q == Inside && t[i] == QUOTE {
      assert t[i..stop] == [t[i]];
    } else {
      StringCopied(t, i + 1, Quoting(q, t[i]), stack);
      assert t[i..stop] == [t[i]] + t[i + 1..stop];
      PrefixedTwice([t[i]], t[i + 1..stop], PrettyFrom(t, stop, Outside, stack));
    }
  }

  lemma QuotedCopied(t: Text, i: nat, cs: seq<Char>, stack: seq<bool>)
    requires CharsOk(cs) && Occurs(t, i, Quoted(cs))
    ensures PrettyFrom(t, i, Outside, stack) == Prefixed(Quoted(cs), PrettyFrom(t, i + |Quoted(cs)|, Outside, stack))
  {
    hide Quoted, CharsOk, PrettyFrom, Prefixed, Occurs;
    QuotedStops(t, i, cs);
    StringCopied(t, i + 1, Inside, stack);
    PrettyStep(t, i, Outside, stack);
    var stop := i + |Quoted(cs)|;
    assert t[i..stop] == [t[i]] + t[i + 1..stop];
    PrefixedTwice([t[i]], t[i + 1..stop], PrettyFrom(t, stop, Outside, stack));
  }

  predicate IsOrdinary(c: int) {
    IsToken(c) && c != LBRACE && c != RBRACE && c != LBRACKET && c != RBRACKET && c != COMMA && c != COLON
  }

  lemma {:induction false} TokenCopied(t: Text, i: nat, x: Text, stack: seq<bool>)
    requires Occurs(t, i, x) && forall k | 0 <= k < |x| :: IsOrdinary(x[k])
    ensures PrettyFrom(t, i, Outside, stack) == Prefixed(x, PrettyFrom(t, i + |x|, Outside, stack))
    decreases |x|
  {
    hide PrettyFrom, Prefixed;
    if x == [] {
      PrefixedNothing(PrettyFrom(t, i, Outside, stack));
    } else {
      assert x == [x[0]] + x[1..];
      OccursConcat(t, i, [x[0]], x[1..]);
      OccursByte(t, i, x[0]);
      PrettyStep(t, i, Outside, stack);
      TokenCopied(t, i + 1, x[1..], stack);
      PrefixedTwice([x[0]], x[1..], PrettyFrom(t, i + |x|, Outside, stack));
    }
  }

  lemma BareIsOrdinary(v: Value)
    requires ValueOk(v) && IsBare(v)
    ensures forall k | 0 <= k < |PrintValue(v)| :: IsOrdinary(PrintValue(v)[k])
  {
    hide PrintValue;
    BareBytes(v);
  }

  // ------------------------------------------------------------- brackets

  lemma EmptyBrackets(t: Text, i: nat, v: Value, stack: seq<bool>)
    requires ValueOk(v) && v.Empty? && Occurs(t, i, PrintValue(v)) && |stack| < MAX_NESTING
    ensures PrettyFrom(t, i, Outside, stack) ==
      Prefixed(PrintValue(Empty(v.kind, [])), PrettyFrom(t, i + |PrintValue(v)|, Outside, stack))
  {
    hide PrettyFrom, Prefixed, Occurs, AllWhitespace, PrintValue;
    ContainerText(v);
    ContainerAt(t, i, v);
    var close := i + |PrintValue(v)| - 1;
    var longer := stack + [false];
    SpaceSkipped(t, i + 1, v.ws, longer);
    NextIs(t, close);
    assert !Expands(OpenOf(v.kind), NextSolid(t, i + 1));
    PrettyStep(t, i, Outside, stack);
    PrettyStep(t, close, Outside, longer);
    assert longer[..|stack|] == stack;
    var rest := PrettyFrom(t, close + 1, Outside, stack);
    assert [OpenOf(v.kind)] + [] == [OpenOf(v.kind)] && [] + [CloseOf(v.kind)] == [CloseOf(v.kind)];
    PrefixedTwice([OpenOf(v.kind)], [CloseOf(v.kind)], rest);
    EmptyText(v.kind);
  }

  lemma EmptyText(kind: Kind)
    ensures PrintValue(Empty(kind, [])) == [OpenOf(kind)] + [CloseOf(kind)]
  {
    assert [] + [CloseOf(kind)] == [CloseOf(kind)];
  }

  lemma NextIs(t: Text, i: nat)
    requires i < |t| && !IsSpace(t[i])
    ensures NextSolid(t, i) == t[i]
  {
  }

  /** Before the members of a container that is spread over lines. */
  lemma OpenBracket(t: Text, i: nat, v: Value, stack: seq<bool>)
    requires ValueOk(v) && v.Filled? && Occurs(t, i, PrintValue(v)) && |stack| < MAX_NESTING
    ensures PrettyFrom(t, i, Outside, stack) ==
      Prefixed([OpenOf(v.kind)] + Line(Trues(stack) + 1), PrettyFrom(t, i + 1 + |v.ws|, Outside, stack + [true]))
  {
    hide PrettyFrom, Prefixed, Occurs, AllWhitespace, PrintValue, Line, PrintMembers, MembersOk;
    ContainerText(v);
    ContainerAt(t, i, v);
    var k := i + 1 + |v.ws|;
    var longer := stack + [true];
    SpaceSkipped(t, i + 1, v.ws, longer);
    StartOfMembers(t, k, v.members, v.kind);
    NextIs(t, k);
    assert Expands(OpenOf(v.kind), NextSolid(t, i + 1));
    PrettyStep(t, i, Outside, stack);
    TruesSnoc(stack, true);
  }

  lemma StartOfMembers(t: Text, i: nat, ms: Members, kind: Kind)
    requires MembersOk(ms, kind) && Occurs(t, i, PrintMembers(ms, kind))
    ensures i < |t| && !IsSpace(t[i]) && t[i] != CloseOf(kind)
  {
    hide Occurs, PrintMembers, MembersOk;
    FirstOfMembers(t, i, ms, kind);
  }

  /** The closing bracket of a container that is spread over lines. */
  lemma CloseBracket(t: Text, i: nat, kind: Kind, stack: seq<bool>)
    requires At(t, i) == CloseOf(kind)
    ensures PrettyFrom(t, i, Outside, stack + [true]) ==
      Prefixed(Line(Trues(stack)) + [CloseOf(kind)], PrettyFrom(t, i + 1, Outside, stack))
  {
    hide PrettyFrom, Prefixed, Line;
    PrettyStep(t, i, Outside, stack + [true]);
    assert (stack + [true])[..|stack|] == stack;
  }

  // ---------------------------------------------------------------- values

  lemma DepthOfMembers(v: Value)
    requires v.Filled?
    ensures BracketDepth(v) == 1 + MembersDepth(v.members)
  {
  }

  lemma {:induction false} ValuePretty(t: Text, i: nat, v: Value, stack: seq<bool>)
    requires ValueOk(v) && Occurs(t, i, PrintValue(v)) && |stack| + BracketDepth(v) <= MAX_NESTING
    ensures ValueOk(PrettyValue(v, Trues(stack)))
    ensures PrettyFrom(t, i, Outside, stack) ==
      Prefixed(PrintValue(PrettyValue(v, Trues(stack))), PrettyFrom(t, i + |PrintValue(v)|, Outside, stack))
    decreases v, 1
  {
    hide PrettyFrom, Prefixed, Occurs, Quoted, PrintMembers, MembersOk, AllWhitespace, PrintNumber, NumberOk, PrettyMembers, Line, Trues;
    PrettyOk(v, Trues(stack));
    match v
    case Str(cs) => QuotedCopied(t, i, cs, stack);
    case Empty(kind, ws) => EmptyBrackets(t, i, v, stack);
    case Filled(kind, ws, ms) => FilledPretty(t, i, v, stack);
    case _ =>
      BareIsOrdinary(v);
      TokenCopied(t, i, PrintValue(v), stack);
  }

  lemma {:induction false} FilledPretty(t: Text, i: nat, v: Value, stack: seq<bool>)
    requires ValueOk(v) && v.Filled? && Occurs(t, i, PrintValue(v)) && |stack| + BracketDepth(v) <= MAX_NESTING
    requires ValueOk(PrettyValue(v, Trues(stack)))
    ensures PrettyFrom(t, i, Outside, stack) ==
      Prefixed(PrintValue(PrettyValue(v, Trues(stack))), PrettyFrom(t, i + |PrintValue(v)|, Outside, stack))
    decreases v, 0
  {
    hide PrettyFrom, Prefixed, Occurs, PrintMembers, MembersOk, AllWhitespace, PrettyMembers, Line, BracketDepth, MembersDepth, Trues;
    var d, ms, longer := Trues(stack), v.members, stack + [true];
    DepthOfMembers(v);
    ContainerText(v);
    ContainerAt(t, i, v);
    TruesSnoc(stack, true);
    OpenBracket(t, i, v, stack);
    MembersPretty(t, i + 1 + |v.ws|, ms, v.kind, longer);
    var end := i + |PrintValue(v)|;
    CloseBracket(t, end - 1, v.kind, stack);
    LineIsSpace(d);
    LastSpace(ms, v.kind, d + 1, Line(d));
    var body, rest := PrintMembers(PrettyMembers(ms, d + 1, []), v.kind), PrettyFrom(t, end, Outside, stack);
    PrefixedTwice(body, Line(d) + [CloseOf(v.kind)], rest);
    PrefixedTwice([OpenOf(v.kind)] + Line(d + 1), body + (Line(d) + [CloseOf(v.kind)]), rest);
    assert [OpenOf(v.kind)] + Line(d + 1) + (body + (Line(d) + [CloseOf(v.kind)])) ==
      [OpenOf(v.kind)] + (Line(d + 1) + ((body + Line(d)) + [CloseOf(v.kind)]));
  }

  /** The white space behind the last member comes last. */
  lemma {:induction false} LastSpace(ms: Members, kind: Kind, depth: nat, last: Text)
    requires MembersOk(ms, kind) && AllWhitespace(last)
    ensures MembersOk(PrettyMembers(ms, depth, []), kind) && MembersOk(PrettyMembers(ms, depth, last), kind)
    ensures PrintMembers(PrettyMembers(ms, depth, last), kind) == PrintMembers(PrettyMembers(ms, depth, []), kind) + last
    decreases ms
  {
    hide PrintKey, PrintValue, AllWhitespace, ValueOk, KeyOk, PrettyValue, PrettyKey, Line;
    NoSpace();
    PrettyMembersOk(ms, kind, depth, last);
    PrettyMembersOk(ms, kind, depth, []);
    if ms.Last? {
      LastMemberSpace(PrettyMember(ms.member, depth, []), kind, last);
    } else {
      LastSpace(ms.rest, kind, depth, last);
      var x, y := PrintMember(PrettyMember(ms.member, depth, []), kind), PrintMembers(PrettyMembers(ms.rest, depth, []), kind);
      assert x + ([COMMA] + (Line(depth) + (y + last))) == x + ([COMMA] + (Line(depth) + y)) + last;
    }
  }

  lemma LastMemberSpace(m: Member, kind: Kind, last: Text)
    requires MemberOk(m, kind) && m.ws == [] && AllWhitespace(last)
    ensures MemberOk(m.(ws := last), kind) && PrintMember(m.(ws := last), kind) == PrintMember(m, kind) + last
  {
    hide PrintKey, PrintValue;
    var k, x := PrintKey(m.key, kind), PrintValue(m.value);
    assert k + (x + last) == k + (x + []) + last;
  }

  lemma ColonPretty(t: Text, i: nat, stack: seq<bool>)
    requires At(t, i) == COLON
    ensures PrettyFrom(t, i, Outside, stack) == Prefixed([COLON, SPACE], PrettyFrom(t, i + 1, Outside, stack))
  {
    hide PrettyFrom, Prefixed;
    PrettyStep(t, i, Outside, stack);
  }

  lemma KeyPretty(t: Text, i: nat, key: Key, kind: Kind, stack: seq<bool>)
    requires KeyOk(key, kind) && Occurs(t, i, PrintKey(key, kind))
    ensures KeyOk(PrettyKey(key), kind)
    ensures PrettyFrom(t, i, Outside, stack) ==
      Prefixed(PrintKey(PrettyKey(key), kind), PrettyFrom(t, i + |PrintKey(key, kind)|, Outside, stack))
  {
    hide PrettyFrom, Prefixed, Occurs, Quoted, CharsOk;
    if key.NoKey? {
      PrefixedNothing(PrettyFrom(t, i, Outside, stack));
    } else {
      var x := Quoted(key.chars);
      var c := i + |x|;
      var d := c + |key.before|;
      OccursConcat(t, i, x, key.before + ([COLON] + key.after));
      OccursConcat(t, c, key.before, [COLON] + key.after);
      OccursConcat(t, d, [COLON], key.after);
      OccursByte(t, d, COLON);
      QuotedCopied(t, i, key.chars, stack);
      SpaceSkipped(t, c, key.before, stack);
      ColonPretty(t, d, stack);
      SpaceSkipped(t, d + 1, key.after, stack);
      PrefixedTwice(x, [COLON, SPACE], PrettyFrom(t, d + 1 + |key.after|, Outside, stack));
      assert x + [COLON, SPACE] == x + ([] + ([COLON] + [SPACE]));
    }
  }

  lemma {:induction false} MemberPretty(t: Text, i: nat, m: Member, kind: Kind, stack: seq<bool>)
    requires MemberOk(m, kind) && Occurs(t, i, PrintMember(m, kind)) && |stack| + BracketDepth(m.value) <= MAX_NESTING
    ensures MemberOk(PrettyMember(m, Trues(stack), []), kind)
    ensures PrettyFrom(t, i, Outside, stack) ==
      Prefixed(PrintMember(PrettyMember(m, Trues(stack), []), kind), PrettyFrom(t, i + |PrintMember(m, kind)|, Outside, stack))
    decreases m, 2
  {
    hide PrettyFrom, Prefixed, Occurs, PrintKey, PrintValue, ValueOk, AllWhitespace, PrettyValue, Trues, BracketDepth;
    var k, x := PrintKey(m.key, kind), PrintValue(m.value);
    OccursConcat(t, i, k, x + m.ws);
    OccursConcat(t, i + |k|, x, m.ws);
    KeyPretty(t, i, m.key, kind, stack);
    ValuePretty(t, i + |k|, m.value, stack);
    SpaceSkipped(t, i + |k| + |x|, m.ws, stack);
    NoSpace();
    var k', x' := PrintKey(PrettyKey(m.key), kind), PrintValue(PrettyValue(m.value, Trues(stack)));
    PrefixedTwice(k', x', PrettyFrom(t, i + |k| + |x| + |m.ws|, Outside, stack));
    assert k' + x' == k' + (x' + []);
  }

  lemma CommaPretty(t: Text, i: nat, stack: seq<bool>)
    requires At(t, i) == COMMA
    ensures PrettyFrom(t, i, Outside, stack) == Prefixed([COMMA] + Line(Trues(stack)), PrettyFrom(t, i + 1, Outside, stack))
  {
    hide PrettyFrom, Prefixed, Line, Trues;
    PrettyStep(t, i, Outside, stack);
  }

  lemma {:induction false} MembersPretty(t: Text, i: nat, ms: Members, kind: Kind, stack: seq<bool>)
    requires MembersOk(ms, kind) && Occurs(t, i, PrintMembers(ms, kind)) && |stack| + MembersDepth(ms) <= MAX_NESTING
    ensures MembersOk(PrettyMembers(ms, Trues(stack), []), kind)
    ensures PrettyFrom(t, i, Outside, stack) ==
      Prefixed(PrintMembers(PrettyMembers(ms, Trues(stack), []), kind), PrettyFrom(t, i + |PrintMembers(ms, kind)|, Outside, stack))
    decreases ms, 3
  {
    hide PrettyFrom, Prefixed, Occurs, PrintMember, MemberOk, AllWhitespace, PrettyMember, Line, Trues, BracketDepth;
    var m, d := ms.member, Trues(stack);
    if ms.Last? {
      MemberPretty(t, i, m, kind, stack);
    } else {
      var n := i + |PrintMember(m, kind)|;
      MoreOccurs(t, i, PrintMember(m, kind), ms.gap, PrintMembers(ms.rest, kind));
      MemberPretty(t, i, m, kind, stack);
      CommaPretty(t, n, stack);
      SpaceSkipped(t, n + 1, ms.gap, stack);
      MembersPretty(t, n + 1 + |ms.gap|, ms.rest, kind, stack);
      LineIsSpace(d);
      var x, y := PrintMember(PrettyMember(m, d, []), kind), PrintMembers(PrettyMembers(ms.rest, d, []), kind);
      var rest := PrettyFrom(t, i + |PrintMembers(ms, kind)|, Outside, stack);
      PrefixedTwice([COMMA] + Line(d), y, rest);
      PrefixedTwice(x, [COMMA] + Line(d) + y, rest);
      assert x + ([COMMA] + Line(d) + y) == x + ([COMMA] + (Line(d) + y));
    }
  }

  // ------------------------------------------------------- too many brackets

  lemma FullStack(t: Text, i: nat, stack: seq<bool>)
    requires i < |t| && (t[i] == LBRACE || t[i] == LBRACKET) && |stack| >= MAX_NESTING
    ensures PrettyFrom(t, i, Outside, stack) == Unsafe
  {
  }

  lemma {:induction false} ValueTooDeep(t: Text, i: nat, v: Value, stack: seq<bool>)
    requires ValueOk(v) && Occurs(t, i, PrintValue(v)) && |stack| <= MAX_NESTING < |stack| + BracketDepth(v)
    ensures PrettyFrom(t, i, Outside, stack) == Unsafe
    decreases v, 0
  {
    hide PrettyFrom, Occurs, PrintValue, PrintMembers, MembersOk, AllWhitespace, NumberOk, CharsOk, MembersDepth;
    assert IsContainer(v);
    ContainerText(v);
    ContainerAt(t, i, v);
    if |stack| >= MAX_NESTING {
      FullStack(t, i, stack);
    } else {
      DepthOfMembers(v);
      OpenBracket(t, i, v, stack);
      MembersTooDeep(t, i + 1 + |v.ws|, v.members, v.kind, stack + [true]);
    }
  }

  lemma {:induction false} MemberTooDeep(t: Text, i: nat, m: Member, kind: Kind, stack: seq<bool>)
    requires MemberOk(m, kind) && Occurs(t, i, PrintMember(m, kind)) && |stack| <= MAX_NESTING < |stack| + BracketDepth(m.value)
    ensures PrettyFrom(t, i, Outside, stack) == Unsafe
    decreases m, 1
  {
    hide PrettyFrom, Occurs, PrintKey, PrintValue, ValueOk, AllWhitespace, BracketDepth;
    var k, x := PrintKey(m.key, kind), PrintValue(m.value);
    OccursConcat(t, i, k, x + m.ws);
    OccursConcat(t, i + |k|, x, m.ws);
    KeyPretty(t, i, m.key, kind, stack);
    ValueTooDeep(t, i + |k|, m.value, stack);
  }

  lemma {:induction false} MembersTooDeep(t: Text, i: nat, ms: Members, kind: Kind, stack: seq<bool>)
    requires MembersOk(ms, kind) && Occurs(t, i, PrintMembers(ms, kind)) && |stack| <= MAX_NESTING < |stack| + MembersDepth(ms)
    ensures PrettyFrom(t, i, Outside, stack) == Unsafe
    decreases ms, 2
  {
    hide PrettyFrom, Occurs, PrintMember, MemberOk, AllWhitespace, BracketDepth, Trues, Line;
    var m := ms.member;
    if ms.More? {
      MoreOccurs(t, i, PrintMember(m, kind), ms.gap, PrintMembers(ms.rest, kind));
    }
    if |stack| + BracketDepth(m.value) > MAX_NESTING {
      MemberTooDeep(t, i, m, kind, stack);
    } else {
      var n := i + |PrintMember(m, kind)|;
      MemberPretty(t, i, m, kind, stack);
      CommaPretty(t, n, stack);
      SpaceSkipped(t, n + 1, ms.gap, stack);
      MembersTooDeep(t, n + 1 + |ms.gap|, ms.rest, kind, stack);
    }
  }
}
