/** Arrays of arrays: an array's elements are parsed from the text between its
    brackets, and brackets at both ends of that text are taken off once more. */
module NestedArrays {
  import opened Bytes
  import opened JsonString
  import opened Number
  import opened Grammar
  import opened Modes
  import opened LegacySpec
  import opened LegacyTokens
  import opened LegacyBrackets
  import opened LegacyTrees
  import opened LegacyComplete
  import opened LegacySound
  import opened Unpack

  predicate IsArray(v: Value) {
    IsContainer(v) && v.kind.Array?
  }

  // ------------------------------------------- when brackets are taken off

  /** Only an array begins with its bracket. */
  lemma NoBracket(v: Value)
    requires ValueOk(v)
    ensures PrintValue(v)[0] == LBRACKET <==> IsArray(v)
  {
    hide PrintValue, ValueOk;
    FirstByte(v);
    FirstOfValue(v);
  }

  lemma FirstByte(v: Value)
    requires ValueOk(v)
    ensures IsContainer(v) ==> PrintValue(v)[0] == OpenOf(v.kind)
  {
    hide PrintMembers, MembersOk;
  }

  /** Only an array ends with its bracket. */
  lemma LastBracket(v: Value)
    requires ValueOk(v)
    ensures var x := PrintValue(v); x[|x| - 1] == RBRACKET <==> IsArray(v)
  {
    hide PrintNumber, NumberOk, PrintMembers, MembersOk, PrintChars, CharsOk;
    if IsBare(v) {
      BareBytes(v);
    } else if v.Str? {
      assert PrintValue(v) == [QUOTE] + (PrintChars(v.chars) + [QUOTE]);
    }
  }

  function LastMember(ms: Members): Member {
    if ms.Last? then ms.member else LastMember(ms.rest)
  }

  lemma {:induction false} MembersEnd(ms: Members)
    requires MembersOk(ms, Array) && LastWs(ms) == []
    ensures ValueOk(LastMember(ms).value)
    ensures var x := PrintMembers(ms, Array); x != [] && (x[|x| - 1] == RBRACKET <==> IsArray(LastMember(ms).value))
    decreases ms
  {
    hide PrintValue, ValueOk, AllWhitespace;
    if ms.Last? {
      var v := ms.member.value;
      LastBracket(v);
      assert [] + (PrintValue(v) + []) == PrintValue(v);
    } else {
      MembersEnd(ms.rest);
    }
  }

  lemma MembersBegin(ms: Members)
    requires MembersOk(ms, Array)
    ensures ValueOk(ms.member.value)
    ensures var x := PrintMembers(ms, Array); x != [] && (x[0] == LBRACKET <==> IsArray(ms.member.value))
  {
    hide PrintValue, ValueOk, AllWhitespace, PrintMembers;
    PrintMembersUnfold(ms, Array);
    NoBracket(ms.member.value);
    assert PrintMember(ms.member, Array) == [] + (PrintValue(ms.member.value) + ms.member.ws);
  }

  /** The array begins and ends with an element that is an array. */
  predicate Bracketed(v: Value)
    requires v.Filled?
  {
    v.ws == [] && IsArray(v.members.member.value) && IsArray(LastMember(v.members).value)
  }

  lemma {:induction false} EndsKept(ms: Members)
    ensures WithLastWs(ms, []).member.value == ms.member.value
    ensures LastMember(WithLastWs(ms, [])).value == LastMember(ms).value && LastWs(WithLastWs(ms, [])) == []
    decreases ms
  {
    if ms.More? {
      EndsKept(ms.rest);
    }
  }

  lemma EndBytes(ws: Text, x: Text)
    requires x != []
    ensures var text := ws + x; text != [] && text[|text| - 1] == x[|x| - 1] && text[0] == if ws == [] then x[0] else ws[0]
  {
  }

  /** The first and the last byte of what is shown of an array. */
  lemma ContentEnds(v: Value)
    requires ValueOk(v) && IsArray(v) && v.Filled?
    ensures var text := Content(v);
      text != [] && (text[0] == LBRACKET <==> v.ws == [] && IsArray(v.members.member.value)) &&
      (text[|text| - 1] == RBRACKET <==> IsArray(LastMember(v.members).value))
  {
    assert v.kind.Array?;
    hide PrintMembers, PrintValue, MembersOk, AllWhitespace, ValueOk, Occurs, Content, IsArray;
    OccursWhole(PrintValue(v), PrintValue(v));
    FilledParts(PrintValue(v), 0, v);
    FilledSpace(v);
    var bare := WithLastWs(v.members, []);
    EndsKept(v.members);
    MembersEnd(bare);
    MembersBegin(bare);
    EndBytes(v.ws, PrintMembers(bare, Array));
    if v.ws != [] {
      SpaceAt(v.ws, 0);
    }
  }

  /** The text of an array's elements is parsed as it stands exactly unless it begins
      and ends with an element that is itself an array. */
  lemma OwnBrackets(v: Value)
    requires ValueOk(v) && IsArray(v) && v.Filled?
    ensures var text := Content(v);
      text != [] && (Bracketed(v) ==> |text| >= 2) && Elements(text) == if Bracketed(v) then text[1..|text| - 1] else text
  {
    hide ValueOk, Content, Elements, IsArray;
    ContentEnds(v);
    OneByte(Content(v));
  }

  lemma SpaceAt(w: Text, k: nat)
    requires AllWhitespace(w) && k < |w|
    ensures IsWhitespace(w[k])
  {
  }

  lemma OneByte(text: Text)
    requires text != []
    ensures Elements(text) == if text[0] == LBRACKET && text[|text| - 1] == RBRACKET then text[1..|text| - 1] else text
    ensures text[0] == LBRACKET && text[|text| - 1] == RBRACKET ==> |text| >= 2
  {
  }

  // -------------------------------------------- a lone array as the element

  /** With a single array inside, what remains is the text between that array's brackets. */
  lemma LoneArray(v: Value)
    requires ValueOk(v) && IsArray(v) && v.Filled? && Bracketed(v) && v.members.Last?
    ensures var w := v.members.member.value;
      ValueOk(w) && Elements(Content(v)) == w.ws + MembersText(w) && AllWhitespace(w.ws) && (w.Filled? ==> MembersOk(w.members, Array))
  {
    hide PrintMembers, PrintValue, MembersOk, AllWhitespace, ValueOk, Occurs;
    OccursWhole(PrintValue(v), PrintValue(v));
    FilledParts(PrintValue(v), 0, v);
    var w := v.members.member.value;
    OneMember(v.members);
    OwnBrackets(v);
    ContainerText(w);
    Unwrapped(w.ws, MembersText(w));
    assert [] + PrintValue(w) == PrintValue(w);
  }

  lemma Unwrapped(a: Text, b: Text)
    ensures var x := [LBRACKET] + (a + (b + [RBRACKET])); x[1..|x| - 1] == a + b
  {
  }

  lemma OneMember(ms: Members)
    requires MembersOk(ms, Array) && ms.Last?
    ensures var bare := WithLastWs(ms, []);
      ValueOk(ms.member.value) && MembersOk(bare, Array) && PrintMembers(bare, Array) == PrintValue(ms.member.value)
  {
    hide PrintValue, ValueOk;
    NoSpaceAllWhitespace();
    assert [] + (PrintValue(ms.member.value) + []) == PrintValue(ms.member.value);
  }

  /** White space alone is not accepted as elements. */
  lemma OnlySpace(w: Text)
    requires AllWhitespace(w)
    ensures ParseText(w, ArrayMode, 0) == Rejected
  {
    hide Continue, AllWhitespace, Occurs, ParseText;
    var job, p := Job(w, ArrayMode, false, 0), Begin(ArrayMode, 0);
    ArrayBegins(w, 0);
    OccursWhole(w, w);
    KeyNotSpace();
    SpaceTo(job, p, 0, w);
    HaltRest(job, p, |w|);
  }

  // -------------------------------------------- several elements are refused

  lemma {:induction false} NotClosedBefore(t: Text, c: Byte, i: nat, kind: Kind, q: Quoting, b: Brackets)
    requires i <= |t| && FindClose(t + [c], i, kind, q, b).ClosedAt? && FindClose(t + [c], i, kind, q, b).at == |t|
    ensures FindClose(t, i, kind, q, b).NoClose?
    decreases |t| - i
  {
    hide QuotedStep, Counted, Negative, Closes;
    if i < |t| {
      assert (t + [c])[i] == t[i];
      if q != Outside {
        match QuotedStep(q, t[i])
        case StillQuoted(q') => NotClosedBefore(t, c, i + 1, kind, q', b);
        case QuoteCloses => NotClosedBefore(t, c, i + 1, kind, Outside, b);
        case _ =>
      } else if t[i] == QUOTE {
        NotClosedBefore(t, c, i + 1, kind, InString, b);
      } else {
        NotClosedBefore(t, c, i + 1, kind, Outside, Counted(b, t[i]));
      }
    }
  }

  lemma OccursShorter(t: Text, c: Byte, i: nat, x: Text)
    requires Occurs(t + [c], i, x) && i + |x| <= |t|
    ensures Occurs(t, i, x)
  {
    assert (t + [c])[i..i + |x|] == t[i..i + |x|];
  }

  /** An array whose closing bracket was taken off. */
  lemma OpenArray(job: Job, p: Parser, i: nat, v: Value)
    requires InList(job) && Awaits(p) && ValueOk(v) && IsArray(v)
    requires Occurs(job.t + [RBRACKET], i, PrintValue(v)) && i + |PrintValue(v)| == |job.t| + 1 && i <= |job.t|
    ensures Continue(job, p, i) == Rejected
  {
    hide Continue, PrintValue, ValueOk, FindClose, Occurs, AtClose;
    var t := job.t;
    ContainerCloses(t + [RBRACKET], i, v);
    TwoBrackets(v);
    assert (t + [RBRACKET])[i] == t[i];
    var q := ArrayBegun(job, p, i);
    NotClosedBefore(t, RBRACKET, i + 1, Array, Outside, Brackets(1, 0, 0));
    ContainerRest(job, q, i + 1, Array);
  }

  lemma TwoBrackets(v: Value)
    requires ValueOk(v) && IsContainer(v)
    ensures |PrintValue(v)| >= 2
  {
    hide PrintMembers, MembersOk;
  }

  lemma {:induction false} MembersTextNotEmpty(ms: Members, kind: Kind)
    requires MembersOk(ms, kind)
    ensures PrintMembers(ms, kind) != []
  {
    hide PrintValue, ValueOk;
  }

  /** Elements up to a last array whose closing bracket was taken off. */
  lemma {:induction false} OpenMembers(job: Job, p: Parser, ms: Members, i: nat)
    requires AtMember(job, p, Array) && MembersOk(ms, Array) && LastWs(ms) == [] && IsArray(LastMember(ms).value)
    requires Occurs(job.t + [RBRACKET], i, PrintMembers(ms, Array)) && i + |PrintMembers(ms, Array)| == |job.t| + 1 && i <= |job.t|
    ensures Continue(job, p, i) == Rejected
    decreases ms
  {
    hide Continue, PrintMember, PrintMembers, MemberOk, MembersOk, AllWhitespace, Occurs, Entered, MemberChild, SkipWs, PrintValue, ValueOk;
    var t := job.t;
    MembersUnfold(ms);
    if ms.Last? {
      OpenArray(job, p, i, ms.member.value);
    } else {
      var x, rest := PrintMember(ms.member, Array), PrintMembers(ms.rest, Array);
      var n := i + |x|;
      var k := n + 1 + |ms.gap|;
      MoreOccurs(t + [RBRACKET], i, x, ms.gap, rest);
      MembersTextNotEmpty(ms.rest, Array);
      OccursShorter(t, RBRACKET, i, x);
      OccursShorter(t, RBRACKET, n + 1, ms.gap);
      assert At(t, n) == COMMA;
      var noted := CommaRest(job, p, ms, i);
      MembersStart(t + [RBRACKET], k, ms.rest, Array);
      NotSpaceBefore(t, k);
      SpaceTo(job, noted, n + 1, ms.gap);
      OpenMembers(job, noted, ms.rest, k);
    }
  }

  lemma NotSpaceBefore(t: Text, k: nat)
    requires k <= |t| && !IsWhitespace((t + [RBRACKET])[k])
    ensures !IsWhitespace(At(t, k))
  {
  }

  lemma MembersUnfold(ms: Members)
    requires MembersOk(ms, Array)
    ensures MemberOk(ms.member, Array) && ValueOk(ms.member.value) && ms.member.key.NoKey? && AllWhitespace(ms.member.ws)
    ensures PrintMember(ms.member, Array) == PrintValue(ms.member.value) + ms.member.ws
    ensures ms.member.ws == [] ==> PrintMember(ms.member, Array) == PrintValue(ms.member.value)
    ensures if ms.Last? then PrintMembers(ms, Array) == PrintMember(ms.member, Array)
      else
        MembersOk(ms.rest, Array) && AllWhitespace(ms.gap) &&
        PrintMembers(ms, Array) == PrintMember(ms.member, Array) + ([COMMA] + (ms.gap + PrintMembers(ms.rest, Array)))
  {
    hide PrintValue, ValueOk;
    var x := PrintValue(ms.member.value);
    assert [] + (x + ms.member.ws) == x + ms.member.ws && x + [] == x;
  }

  /** From an element to behind the comma after it, if it is accepted. */
  lemma CommaRest(job: Job, p: Parser, ms: Members, i: nat) returns (q: Parser)
    requires AtMember(job, p, Array) && MembersOk(ms, Array) && ms.More? && i <= |job.t|
    requires MemberOk(ms.member, Array) && Occurs(job.t, i, PrintMember(ms.member, Array))
    requires At(job.t, i + |PrintMember(ms.member, Array)|) == COMMA
    ensures AtMember(job, q, Array)
    ensures Continue(job, p, i).Accepted? ==> Continue(job, q, i + |PrintMember(ms.member, Array)| + 1).Accepted?
  {
    hide Continue, PrintMember, MemberOk, AllWhitespace, Occurs, Entered, MemberChild;
    var n := i + |PrintMember(ms.member, Array)|;
    var behind := MemberRest(job, p, ms.member, Array, i);
    var after := behind.(phase := FindValueBegin);
    GoRest(job, behind, n, after);
    q := Noted(after, COMMA, n);
  }

  /** A stray closing bracket is passed only as the delimiter of a bare token. */
  lemma StrayBracket(job: Job, p: Parser, m: Member, i: nat) returns (q: Parser)
    requires AtMember(job, p, Array) && MemberOk(m, Array) && Occurs(job.t, i, PrintMember(m, Array))
    requires At(job.t, i + |PrintMember(m, Array)|) == RBRACKET && Continue(job, p, i).Accepted?
    ensures q.phase == FindParamSeparator && q.quoting == Outside && q.keyBegin == -1
    ensures Continue(job, q, i + |PrintMember(m, Array)| + 1).Accepted?
  {
    hide Continue, AllWhitespace, Occurs, Entered, PrintValue, ValueOk, TokenOk, TokenStop, ChildOf, IsBareByte, IsWhitespace;
    var t, v, x := job.t, m.value, PrintValue(m.value);
    assert PrintMember(m, Array) == x + m.ws by {
      assert [] + (x + m.ws) == x + m.ws;
    }
    OccursConcat(t, i, x, m.ws);
    var n := i + |x|;
    if IsBare(v) && m.ws == [] {
      BareStarts(v);
      BytesAt(t, i, x);
      TokenStopIs(t, i + 1, n, job.mode);
      var q0 := TokenRest(job, p, i);
      q := Noted(Committed(job, q0, RBRACKET), RBRACKET, n);
    } else {
      var behind := BeforeSpace(job, p, m, i);
      BracketHalts(job, behind, n, m.ws);
      q := behind;
    }
  }

  /** A value that is no bare token, or that has white space behind it. */
  lemma BeforeSpace(job: Job, p: Parser, m: Member, i: nat) returns (q: Parser)
    requires InList(job) && Awaits(p) && ValueOk(m.value) && AllWhitespace(m.ws) && (!IsBare(m.value) || m.ws != [])
    requires Occurs(job.t, i, PrintValue(m.value)) && Occurs(job.t, i + |PrintValue(m.value)|, m.ws)
    requires Continue(job, p, i).Accepted?
    ensures i + |PrintValue(m.value)| <= |job.t|
    ensures q.phase == FindParamSeparator && Continue(job, q, i + |PrintValue(m.value)|).Accepted?
  {
    hide Continue, Entered, PrintValue, ValueOk, ChildAt;
    var v := m.value;
    if IsBare(v) {
      OccursAt(job.t, i + |PrintValue(v)|, m.ws, 0);
      q := BareValueRest(job, p, i, v);
    } else if v.Str? {
      q := StringValueRest(job, p, i, v);
    } else if v.kind.Object? {
      q := ObjectValueRest(job, p, i, v);
    } else {
      q := ArrayValueRest(job, p, i, v);
    }
  }

  lemma BracketHalts(job: Job, q: Parser, n: nat, w: Text)
    requires InList(job) && job.mode == ArrayMode && q.phase == FindParamSeparator
    requires Occurs(job.t, n, w) && AllWhitespace(w) && At(job.t, n + |w|) == RBRACKET
    ensures Continue(job, q, n) == Rejected
  {
    hide Continue, Occurs, AllWhitespace;
    SpaceTo(job, q, n, w);
    HaltRest(job, q, n + |w|);
  }

  /** Elements and a stray closing bracket. */
  lemma {:induction false} StrayMembers(job: Job, p: Parser, ms: Members, i: nat) returns (q: Parser)
    requires AtMember(job, p, Array) && MembersOk(ms, Array) && Occurs(job.t, i, PrintMembers(ms, Array))
    requires At(job.t, i + |PrintMembers(ms, Array)|) == RBRACKET && Continue(job, p, i).Accepted?
    ensures q.phase == FindParamSeparator && q.quoting == Outside && q.keyBegin == -1
    ensures Continue(job, q, i + |PrintMembers(ms, Array)| + 1).Accepted?
    decreases ms
  {
    hide Continue, PrintMember, PrintMembers, MemberOk, MembersOk, AllWhitespace, Occurs, Entered, MemberChild, SkipWs, PrintValue, ValueOk;
    MembersUnfold(ms);
    if ms.Last? {
      q := StrayBracket(job, p, ms.member, i);
    } else {
      var x, rest := PrintMember(ms.member, Array), PrintMembers(ms.rest, Array);
      var n := i + |x|;
      var k := n + 1 + |ms.gap|;
      MoreOccurs(job.t, i, x, ms.gap, rest);
      var noted := CommaRest(job, p, ms, i);
      MembersStart(job.t, k, ms.rest, Array);
      SpaceTo(job, noted, n + 1, ms.gap);
      q := StrayMembers(job, noted, ms.rest, k);
    }
  }

  /** The text between the brackets of an array, and the stray closing bracket. */
  lemma StrayArray(job: Job, p: Parser, w: Value, i: nat) returns (q: Parser)
    requires AtMember(job, p, Array) && ValueOk(w) && IsArray(w) && Occurs(job.t, i, w.ws + (MembersText(w) + [RBRACKET]))
    requires i <= |job.t| && Continue(job, p, i).Accepted?
    ensures q.phase == FindParamSeparator && q.quoting == Outside && q.keyBegin == -1
    ensures var n := i + |w.ws| + |MembersText(w)| + 1; n <= |job.t| && Continue(job, q, n).Accepted?
  {
    hide Continue, PrintMembers, MembersOk, AllWhitespace, Occurs, PrintValue, ValueOk;
    var t, k, x := job.t, i + |w.ws|, MembersText(w);
    ContainerText(w);
    OccursConcat(t, i, w.ws, x + [RBRACKET]);
    OccursConcat(t, k, x, [RBRACKET]);
    OccursByte(t, k + |x|, RBRACKET);
    if w.Filled? {
      MembersStart(t, k, w.members, Array);
      SpaceTo(job, p, i, w.ws);
      q := StrayMembers(job, p, w.members, k);
    } else {
      SpaceTo(job, p, i, w.ws);
      BracketIsNoToken(job, p, k);
      q := p;
    }
  }

  lemma BracketIsNoToken(job: Job, p: Parser, k: nat)
    requires InList(job) && Awaits(p) && At(job.t, k) == RBRACKET
    ensures Continue(job, p, k) == Rejected
  {
    hide Continue;
    var q := TokenRest(job, p, k);
    assert job.t[k..TokenEnd(job, k)][0] == RBRACKET;
  }

  lemma OccursTail(t: Text, i: nat, x: Text)
    requires Occurs(t, i, x) && i >= 1
    ensures Occurs(t[1..], i - 1, x)
  {
    assert t[1..][i - 1..i - 1 + |x|] == t[i..i + |x|];
  }

  /** An array that begins and ends with an array and has several elements: without
      the outer brackets of those two, its text is refused. */
  lemma SeveralRejected(v: Value)
    requires ValueOk(v) && IsArray(v) && v.Filled? && Bracketed(v) && v.members.More?
    ensures Elements(Content(v)) != [] && ParseText(Elements(Content(v)), ArrayMode, 0) == Rejected
  {
    hide Continue, ParseText, PrintMembers, PrintMember, MembersOk, MemberOk, AllWhitespace, PrintValue, ValueOk, Occurs, Elements;
    OccursWhole(PrintValue(v), PrintValue(v));
    FilledParts(PrintValue(v), 0, v);
    OwnBrackets(v);
    EndsKept(v.members);
    var ms, text := WithLastWs(v.members, []), Content(v);
    var t := text[1..|text| - 1];
    assert text == PrintMembers(ms, Array);
    MembersEnd(ms);
    assert text[1..] == t + [RBRACKET];
    ArrayBegins(t, 0);
    var job, p := Job(t, ArrayMode, false, 0), Begin(ArrayMode, 0);
    SeveralParsed(job, p, ms, text);
  }

  lemma SeveralParsed(job: Job, p: Parser, ms: Members, text: Text)
    requires MembersOk(ms, Array) && text == PrintMembers(ms, Array) && text != [] && text[1..] == job.t + [RBRACKET]
    requires ms.More? && IsArray(ms.member.value) && LastWs(ms) == [] && IsArray(LastMember(ms).value)
    requires AtMember(job, p, Array)
    ensures job.t != [] && Continue(job, p, 0) == Rejected
  {
    hide Continue, PrintMembers, PrintMember, MembersOk, MemberOk, AllWhitespace, PrintValue, ValueOk, Occurs, SkipWs;
    var t, m, w := job.t, ms.member, ms.member.value;
    MembersUnfold(ms);
    OccursWhole(text, text);
    var rest := PrintMembers(ms.rest, Array);
    MoreOccurs(text, 0, PrintMember(m, Array), ms.gap, rest);
    OccursConcat(text, 0, PrintValue(w), m.ws);
    ContainerText(w);
    var inner := w.ws + (MembersText(w) + [RBRACKET]);
    OccursConcat(text, 0, [LBRACKET], inner);
    MembersTextNotEmpty(ms.rest, Array);
    var c := |inner|;
    var n := c + |m.ws|;
    var k := n + 1 + |ms.gap|;
    OccursCut(t, text, 1, inner);
    OccursCut(t, text, 1 + c, m.ws);
    OccursCut(t, text, n + 2, ms.gap);
    OccursTail(text, k + 1, rest);
    assert t[n] == text[1..][n] == COMMA;
    MembersStart(t + [RBRACKET], k, ms.rest, Array);
    NotSpaceBefore(t, k);
    if Continue(job, p, 0).Accepted? {
      var q := StrayArray(job, p, w, 0);
      OpenRest(job, q, c, m.ws, ms.gap, ms.rest);
    }
  }

  /** Behind the stray bracket: a comma, then elements whose last one is not closed. */
  lemma OpenRest(job: Job, q: Parser, c: nat, ws: Text, gap: Text, ms: Members)
    requires InList(job) && job.mode == ArrayMode && q.phase == FindParamSeparator && q.quoting == Outside && q.keyBegin == -1
    requires MembersOk(ms, Array) && LastWs(ms) == [] && IsArray(LastMember(ms).value)
    requires Occurs(job.t, c, ws) && AllWhitespace(ws) && At(job.t, c + |ws|) == COMMA
    requires Occurs(job.t, c + |ws| + 1, gap) && AllWhitespace(gap)
    requires var k := c + |ws| + 1 + |gap|;
      !IsWhitespace(At(job.t, k)) && Occurs(job.t + [RBRACKET], k, PrintMembers(ms, Array)) && k + |PrintMembers(ms, Array)| == |job.t| + 1
    ensures c <= |job.t| && Continue(job, q, c) == Rejected
  {
    hide Continue, PrintMembers, MembersOk, AllWhitespace;
    var n := c + |ws|;
    KeyNotSpace();
    SpaceTo(job, q, c, ws);
    var after := q.(phase := FindValueBegin);
    GoRest(job, q, n, after);
    var noted := Noted(after, COMMA, n);
    SpaceTo(job, noted, n + 1, gap);
    OpenMembers(job, noted, ms, n + 1 + |gap|);
  }

  lemma OccursCut(t: Text, text: Text, i: nat, x: Text)
    requires text != [] && text[1..] == t + [RBRACKET] && Occurs(text, i, x) && i >= 1 && i + |x| < |text|
    ensures Occurs(t, i - 1, x)
  {
    hide Occurs;
    OccursTail(text, i, x);
    assert |text| == |t| + 2;
    OccursShorter(t, RBRACKET, i - 1, x);
  }
}
