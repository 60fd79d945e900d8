/** On well-formed members kason_parse_internal reads exactly the tree and reports
    its children; only the containers it enters count towards its depth limit. */
module LegacyTrees {
  import opened Bytes
  import opened JsonString
  import opened Number
  import opened Grammar
  import opened Events
  import opened Modes
  import opened LegacySpec
  import opened LegacyTokens
  import opened LegacyBrackets

  /** Levels of containers that are entered: an array without elements is not. */
  function Enters(v: Value): nat {
    match v
    case Empty(kind, _) => if kind.Object? then 1 else 0
    case Filled(_, _, ms) => 1 + MembersEnter(ms)
    case _ => 0
  }

  function MembersEnter(ms: Members): nat {
    if ms.Last? then Enters(ms.member.value) else Max(Enters(ms.member.value), MembersEnter(ms.rest))
  }

  /** Every container that is entered lies at depth at most MAX_NESTING when `v` is at `depth`. */
  predicate WithinLimit(depth: nat, levels: nat) {
    depth + levels <= MAX_NESTING + 1
  }

  // ------------------------------------------- trailing space of an array

  function LastWs(ms: Members): Text {
    if ms.Last? then ms.member.ws else LastWs(ms.rest)
  }

  function WithLastWs(ms: Members, ws: Text): Members {
    if ms.Last? then Last(ms.member.(ws := ws)) else ms.(rest := WithLastWs(ms.rest, ws))
  }

  lemma {:induction false} LastWsPrints(ms: Members, kind: Kind, ws: Text)
    requires MembersOk(ms, kind) && AllWhitespace(ws)
    ensures var bare, full := WithLastWs(ms, []), WithLastWs(ms, ws);
      MembersOk(bare, kind) && MembersOk(full, kind) && AllWhitespace(LastWs(ms)) && WithLastWs(ms, LastWs(ms)) == ms &&
      Count(full) == Count(ms) && MembersEnter(full) == MembersEnter(ms) &&
      PrintMembers(full, kind) == PrintMembers(bare, kind) + ws
    decreases ms
  {
    hide PrintKey, PrintValue, KeyOk, ValueOk, AllWhitespace, Enters, PrintMember, MemberOk;
    if ms.Last? {
      LastMemberWs(ms.member, kind, ws);
    } else {
      LastWsPrints(ms.rest, kind, ws);
      MoreText(PrintMember(ms.member, kind), ms.gap, PrintMembers(WithLastWs(ms.rest, []), kind), ws);
    }
  }

  lemma LastMemberWs(m: Member, kind: Kind, ws: Text)
    requires MemberOk(m, kind) && AllWhitespace(ws)
    ensures var bare, full := m.(ws := []), m.(ws := ws);
      MemberOk(bare, kind) && MemberOk(full, kind) && AllWhitespace(m.ws) &&
      PrintMember(full, kind) == PrintMember(bare, kind) + ws
  {
    var k, x := PrintKey(m.key, kind), PrintValue(m.value);
    hide PrintKey, PrintValue, KeyOk, ValueOk;
    assert k + (x + ws) == k + (x + []) + ws;
  }

  lemma MoreText(x: Text, gap: Text, y: Text, ws: Text)
    ensures x + ([COMMA] + (gap + (y + ws))) == x + ([COMMA] + (gap + y)) + ws
  {
  }

  lemma LastOfValue(v: Value)
    requires ValueOk(v)
    ensures var x := PrintValue(v); x != [] && !IsWhitespace(x[|x| - 1]) && x[|x| - 1] != COMMA
  {
    hide PrintNumber, NumberOk, PrintMembers, MembersOk, PrintChars, CharsOk;
    if IsBare(v) {
      BareBytes(v);
    }
  }

  /** Without trailing space, the last byte of the members is the last byte of a value. */
  lemma {:induction false} LastOfMembers(ms: Members, kind: Kind)
    requires MembersOk(ms, kind) && LastWs(ms) == []
    ensures var x := PrintMembers(ms, kind); x != [] && !IsWhitespace(x[|x| - 1]) && x[|x| - 1] != COMMA
    decreases ms
  {
    hide PrintKey, PrintValue, KeyOk, ValueOk, AllWhitespace, IsWhitespace;
    if ms.Last? {
      LastOfValue(ms.member.value);
    } else {
      LastOfMembers(ms.rest, kind);
    }
  }

  // ------------------------------------------------------- what is reported

  /** The callback for the value `v` printed at `i`; an array shows the text
      between its brackets without the white space before the closing one. */
  function ChildAt(owner: Owner, v: Value, i: nat): Child
    requires ValueOk(v)
  {
    match v
    case Str(_) => Child(owner, StringType, i + 1, i + |PrintValue(v)| - 1, 1)
    case Empty(kind, _) =>
      if kind.Object? then Child(owner, ObjectType, i, i + |PrintValue(v)|, 1)
      else Child(owner, ArrayType, i + 1, i + 1, 0)
    case Filled(kind, ws, ms) =>
      if kind.Object? then Child(owner, ObjectType, i, i + |PrintValue(v)|, 1)
      else Child(owner, ArrayType, i + 1, i + |PrintValue(v)| - 1 - |LastWs(ms)|, Count(ms))
    case _ => Child(owner, TypeOf(v), i, i + |PrintValue(v)|, 1)
  }

  function ChildrenAt(ms: Members, kind: Kind, i: nat): seq<Child>
    requires MembersOk(ms, kind)
  {
    var first := MemberChild(ms.member, kind, i);
    if ms.Last? then [first]
    else [first] + ChildrenAt(ms.rest, kind, i + |PrintMember(ms.member, kind)| + 1 + |ms.gap|)
  }

  function MemberChild(m: Member, kind: Kind, i: nat): Child
    requires MemberOk(m, kind)
  {
    ChildAt(KeyOwnerAt(m.key, i), m.value, i + |PrintKey(m.key, kind)|)
  }

  // ------------------------------------------------------------- one value

  /** The members of an object, or the text between the brackets of an array. */
  predicate InList(job: Job) {
    job.depth <= MAX_NESTING && !job.rootArray && (job.mode == ObjectMode || job.mode == ArrayMode)
  }

  predicate Awaits(p: Parser) {
    p.phase == FindValueBegin && p.quoting == Outside
  }

  function OwnerOf(p: Parser): Owner {
    if p.keyBegin < 0 || p.keyEnd < 0 then NoKeyOwner else KeyOwner(Span(p.keyBegin, p.keyEnd))
  }

  /** A byte that may follow a value inside a list; -1 is the end of the text. */
  predicate Follows(mode: Mode, c: int) {
    c == -1 || c == COMMA || IsWhitespace(c) || (mode == ObjectMode && c == RBRACE)
  }

  /** After a value. */
  predicate Behind(job: Job, p: Parser, q: Parser) {
    q.phase == FindParamSeparator && q.quoting == Outside && q.keyBegin == -1 &&
    q.hasEntries == (p.hasEntries || job.mode == ObjectMode)
  }

  /** The state after a value, whatever follows. */
  function BehindValue(job: Job, p: Parser): Parser {
    p.(keyBegin := -1, keyEnd := -1, valueBegin := -1, phase := FindParamSeparator,
      hasEntries := p.hasEntries || job.mode == ObjectMode)
  }

  /** A token that is committed at its delimiter goes on as if it had been
      committed before it. */
  lemma DelimiterRest(job: Job, p: Parser, n: nat)
    requires InList(job) && n < |job.t| && Follows(job.mode, job.t[n])
    requires p.phase == FindGenericEnd || p.phase == FindNumberEnd
    ensures Continue(job, BehindValue(job, p), n) ==
      Continue(job, Noted(Committed(job, p, job.t[n]), job.t[n], n), n + 1)
  {
    hide Continue;
    var q := BehindValue(job, p);
    GoRest(job, q, n, Committed(job, p, job.t[n]));
  }

  lemma {:induction false} RunShift(state: NumberState, t: Text, i: nat, x: Text, k: nat)
    requires Occurs(t, i, x) && k <= |x|
    ensures RunNumber(state, t[..i + |x|], i + k) == RunNumber(state, x, k)
    decreases |x| - k
  {
    if k < |x| {
      OccursAt(t, i, x, k);
      RunShift(NumberNext(state, x[k]), t, i, x, k + 1);
    }
  }

  lemma {:induction false} TokenStopIs(t: Text, i: nat, n: nat, mode: Mode)
    requires i <= n <= |t| && (forall k | i <= k < n :: IsBareByte(t[k])) && (n < |t| ==> Delimits(mode, t[n]))
    requires mode == ObjectMode || mode == ArrayMode || mode == GenericMode
    ensures TokenStop(t, i, mode) == if n == |t| - 1 && t[n] == COMMA then |t| else n
    decreases n - i
  {
    if i < n {
      TokenStopIs(t, i + 1, n, mode);
    }
  }

  /** How a bare token is classified at its commit. */
  predicate TokenOk(x: Text) {
    x != [] && if NumberBegin(x[0]) != Invalid then AutomatonAccepts(x) else x == NULL || x == TRUE || x == FALSE
  }

  lemma TokenOfValue(v: Value)
    requires ValueOk(v) && IsBare(v)
    ensures TokenOk(PrintValue(v)) && (v.Num? <==> NumberBegin(PrintValue(v)[0]) != Invalid)
    ensures !TokenOk(PrintValue(v) + [COMMA])
  {
    hide RunNumber;
    if v.Num? {
      FirstOfNumber(v.number);
      var x := PrintNumber(v.number);
      assert IsNumberText(x);
      AutomatonIffNumber(x);
      CommaEndsNumber(x);
    } else {
      assert NULL[0] != MINUS && TRUE[0] != MINUS && FALSE[0] != MINUS;
      assert (PrintValue(v) + [COMMA])[|PrintValue(v)|] == COMMA;
    }
  }

  lemma CommaEndsNumber(x: Text)
    ensures !AutomatonAccepts(x + [COMMA])
  {
    AutomatonIffNumber(x + [COMMA]);
    assert (x + [COMMA])[|x|] == COMMA;
    forall n | NumberOk(n) ensures PrintNumber(n) != x + [COMMA] {
      NumberBytes(n);
    }
  }

  lemma ValueOfToken(x: Text) returns (v: Value)
    requires TokenOk(x)
    ensures ValueOk(v) && IsBare(v) && PrintValue(v) == x
  {
    hide RunNumber;
    if NumberBegin(x[0]) != Invalid {
      AutomatonIffNumber(x);
      var n :| NumberOk(n) && PrintNumber(n) == x;
      v := Num(n);
    } else if x == NULL {
      v := Null;
    } else if x == TRUE {
      v := True;
    } else {
      v := False;
    }
  }

  /** The first byte of a bare token. */
  function TokenBegun(p: Parser, c: Byte, i: nat): Parser {
    if NumberBegin(c) != Invalid then p.(phase := FindNumberEnd, valueBegin := i, number := NumberBegin(c))
    else p.(phase := FindGenericEnd, valueBegin := i)
  }

  /** Where the bare token that starts at `i` ends. */
  function TokenEnd(job: Job, i: nat): (n: nat)
    requires i < |job.t|
    ensures i < n <= |job.t|
  {
    TokenStop(job.t, i + 1, job.mode)
  }

  /** A bare token in any mode: accepted when its text is one. */
  lemma TokenRest(job: Job, p: Parser, i: nat) returns (q: Parser)
    requires i < |job.t| && job.depth <= MAX_NESTING && Awaits(p) && StartsToken(job.t[i])
    ensures var n, x := TokenEnd(job, i), job.t[i..TokenEnd(job, i)];
      q == TokenBegun(p, job.t[i], i).(number := q.number, lastSolid := q.lastSolid) &&
      ChildOf(q, job.t, n) == Child(OwnerOf(p), ValueTypeOf(q, x), i, n, 1) &&
      Continue(job, p, i) ==
        if TokenOk(x) then
          Prepend(ChildOf(q, job.t, n),
            Continue(job, Noted(Committed(job, q, job.t[CommitByte(job.t, n)]), job.t[CommitByte(job.t, n)], CommitByte(job.t, n)),
              CommitByte(job.t, n) + 1))
        else Rejected
  {
    hide Continue, RunNumber, TokenStop, NumberBegin, Committed;
    var t, c := job.t, job.t[i];
    var n := TokenEnd(job, i);
    var x := t[i..n];
    var begun := TokenBegun(p, c, i);
    TokenTextRun(t, i, n);
    if i == |t| - 1 {
      CommitRest(job, p, i, begun, i + 1);
      q := begun;
      RunNothing(begun.number, x);
    } else {
      GoRest(job, p, i, begun);
      q := BareFrom(job, Noted(begun, c, i), i + 1);
    }
  }

  lemma RunNothing(state: NumberState, x: Text)
    requires |x| == 1
    ensures RunNumber(state, x, 1) == state
  {
  }

  lemma TokenTextRun(t: Text, i: nat, n: nat)
    requires i < n <= |t|
    ensures var x := t[i..n];
      AutomatonAccepts(x) == NumberComplete(RunNumber(NumberBegin(t[i]), x, 1)) &&
      RunNumber(NumberBegin(t[i]), t[..n], i + 1) == RunNumber(NumberBegin(t[i]), x, 1)
  {
    var x := t[i..n];
    OccursSlice(t, i, n);
    RunShift(NumberBegin(t[i]), t, i, x, 1);
    assert RunNumber(Start, x, 0) == RunNumber(NumberBegin(x[0]), x, 1);
  }

  lemma BareStarts(v: Value)
    requires ValueOk(v) && IsBare(v)
    ensures PrintValue(v) != [] && StartsToken(PrintValue(v)[0])
    ensures forall k | 0 <= k < |PrintValue(v)| :: IsBareByte(PrintValue(v)[k])
  {
    hide PrintValue, ValueOk;
    BareBytes(v);
  }

  lemma BareChild(p: Parser, i: nat, n: nat, v: Value, q: Parser)
    requires ValueOk(v) && IsBare(v) && n == i + |PrintValue(v)|
    requires q.phase == if NumberBegin(PrintValue(v)[0]) != Invalid then FindNumberEnd else FindGenericEnd
    ensures Child(OwnerOf(p), ValueTypeOf(q, PrintValue(v)), i, n, 1) == ChildAt(OwnerOf(p), v, i)
  {
    hide PrintNumber, NumberOk;
    TokenOfValue(v);
  }

  /** A comma at the very end is an error in any case. */
  lemma FinalComma(job: Job, p: Parser, n: nat)
    requires InList(job) && n == |job.t| - 1 && job.t[n] == COMMA && p.phase == FindParamSeparator
    ensures Continue(job, p, n) == Rejected
  {
    hide Continue;
    var after := p.(phase := if job.mode == ObjectMode then FindKeyBegin else FindValueBegin);
    GoRest(job, p, n, after);
    HaltRest(job, Noted(after, COMMA, n), n + 1);
  }

  lemma BareValueRest(job: Job, p: Parser, i: nat, v: Value) returns (q: Parser)
    requires InList(job) && Awaits(p) && ValueOk(v) && IsBare(v) && Occurs(job.t, i, PrintValue(v))
    requires Follows(job.mode, At(job.t, i + |PrintValue(v)|))
    ensures Behind(job, p, q)
    ensures Continue(job, p, i) == Prepend(ChildAt(OwnerOf(p), v, i), Continue(job, q, i + |PrintValue(v)|))
  {
    hide Continue, ValueOk, PrintValue, TokenOk, TokenStop, NumberBegin, ChildAt, ChildOf, ValueTypeOf, IsBareByte, Occurs;
    var t, x := job.t, PrintValue(v);
    var n := i + |x|;
    BareStarts(v);
    BytesAt(t, i, x);
    SlicesAt(t, i, x);
    TokenOfValue(v);
    FollowsDelimits(t, n, job.mode);
    TokenStopIs(t, i + 1, n, job.mode);
    var q0 := TokenRest(job, p, i);
    if n == |t| - 1 && t[n] == COMMA {
      q := BehindValue(job, p);
      FinalComma(job, q, n);
    } else {
      BareChild(p, i, n, v, q0);
      if n < |t| {
        q := BehindValue(job, q0);
        DelimiterRest(job, q0, n);
      } else {
        var c := t[n - 1];
        q := Noted(Committed(job, q0, c), c, n - 1);
        BareIsNoDelimiter(c);
      }
    }
  }

  lemma BareIsNoDelimiter(c: Byte)
    requires IsBareByte(c)
    ensures c != COMMA && c != RBRACE && c != RBRACKET
  {
  }

  lemma SlicesAt(t: Text, i: nat, x: Text)
    requires Occurs(t, i, x)
    ensures var n := i + |x|; t[i..n] == x && (n < |t| ==> t[i..n + 1] == x + [t[n]])
  {
    assert i + |x| < |t| ==> t[i..i + |x| + 1] == t[i..i + |x|] + [t[i + |x|]];
  }

  lemma BytesAt(t: Text, i: nat, x: Text)
    requires Occurs(t, i, x)
    ensures i + |x| <= |t| && forall k | i <= k < i + |x| :: t[k] == x[k - i]
  {
    forall k | i <= k < i + |x| ensures t[k] == x[k - i] {
      OccursAt(t, i, x, k - i);
    }
  }

  lemma FollowsDelimits(t: Text, n: nat, mode: Mode)
    requires Follows(mode, At(t, n)) && n <= |t|
    ensures n < |t| ==> Delimits(mode, t[n])
  {
  }

  lemma StringValueRest(job: Job, p: Parser, i: nat, v: Value) returns (q: Parser)
    requires InList(job) && Awaits(p) && ValueOk(v) && v.Str? && Occurs(job.t, i, PrintValue(v))
    ensures Behind(job, p, q)
    ensures Continue(job, p, i) == Prepend(ChildAt(OwnerOf(p), v, i), Continue(job, q, i + |PrintValue(v)|))
  {
    hide Continue, CharsOk, PrintChars, ReadBody;
    var t, x := job.t, PrintChars(v.chars);
    OccursConcat(t, i, [QUOTE], x + [QUOTE]);
    OccursConcat(t, i + 1, x, [QUOTE]);
    OccursByte(t, i, QUOTE);
    OccursByte(t, i + 1 + |x|, QUOTE);
    ReadBodyComplete(t, i + 1, v.chars);
    var begun := p.(phase := FindStringEnd, quoting := InString, valueBegin := i + 1, unclean := false);
    GoRest(job, p, i, begun);
    var q0 := StringRest(job, Noted(begun, QUOTE, i), i + 1);
    var stop := i + 1 + |x|;
    q := Noted(Committed(job, q0, QUOTE), QUOTE, stop);
  }

  // ------------------------------------------------------------ containers

  /** What the recursion into a container decides. */
  predicate Entered(v: Value, depth: nat)
    requires ValueOk(v)
  {
    match v
    case Empty(kind, _) => if kind.Object? then ParseText(PrintValue(v), AutoMode, depth).Accepted? else true
    case Filled(kind, ws, ms) =>
      if kind.Object? then ParseText(PrintValue(v), AutoMode, depth).Accepted?
      else ParseText(Content(v), ArrayMode, depth).Accepted?
    case _ => true
  }

  /** The text between the brackets of an array, without the white space before the closing one. */
  function Content(v: Value): Text
    requires ValueOk(v) && v.Filled?
  {
    var x := PrintMembers(v.members, v.kind);
    v.ws + Slice(x, 0, |x| - |LastWs(v.members)|)
  }

  lemma ContainerCloses(t: Text, i: nat, v: Value)
    requires ValueOk(v) && IsContainer(v) && Occurs(t, i, PrintValue(v))
    ensures t[i] == OpenOf(v.kind)
    ensures FindClose(t, i + 1, v.kind, Outside, if v.kind.Object? then Brackets(0, 1, 0) else Brackets(1, 0, 0)) ==
      ClosedAt(i + |PrintValue(v)| - 1,
        Brackets(0, 0, if v.Filled? && v.kind.Array? then Count(v.members) - 1 else 0))
  {
    hide Occurs, PrintMembers, MembersOk, AllWhitespace, FindClose, PrintValue, ValueOk, Separated, Counted;
    var kind, ws, x := v.kind, v.ws, MembersText(v);
    var b := if kind.Object? then Brackets(0, 1, 0) else Brackets(1, 0, 0);
    ContainerText(v);
    var n := i + 1 + |ws| + |x|;
    OccursConcat(t, i, [OpenOf(kind)], ws + (x + [CloseOf(kind)]));
    OccursConcat(t, i + 1, ws, x + [CloseOf(kind)]);
    OccursConcat(t, i + 1 + |ws|, x, [CloseOf(kind)]);
    OccursByte(t, i, OpenOf(kind));
    OccursByte(t, n, CloseOf(kind));
    SpaceScans(t, i + 1, kind, b, ws);
    var commas := if v.Filled? then Count(v.members) - 1 else 0;
    if v.Filled? {
      MembersScan(t, i + 1 + |ws|, kind, b, v.members, kind);
    }
    CommasOf(kind, b, commas);
    CloseFound(t, n, kind, Separated(b, commas));
  }

  /** The text of the members; nothing in an empty container. */
  function MembersText(v: Value): Text
    requires ValueOk(v) && IsContainer(v)
  {
    if v.Filled? then PrintMembers(v.members, v.kind) else []
  }

  lemma ContainerText(v: Value)
    requires ValueOk(v) && IsContainer(v)
    ensures PrintValue(v) == [OpenOf(v.kind)] + (v.ws + (MembersText(v) + [CloseOf(v.kind)]))
    ensures AllWhitespace(v.ws) && (v.Filled? ==> MembersOk(v.members, v.kind))
  {
    hide AllWhitespace, PrintMembers;
    if v.Empty? {
      assert [] + [CloseOf(v.kind)] == [CloseOf(v.kind)];
    }
  }

  lemma CommasOf(kind: Kind, b: Brackets, n: nat)
    requires b == if kind.Object? then Brackets(0, 1, 0) else Brackets(1, 0, 0)
    ensures var s := Separated(b, n);
      s.arrays >= 0 && s.objects >= 0 && (if kind.Object? then s.objects else s.arrays) == 1 && Separated(b, 0) == b &&
      Counted(s, CloseOf(kind)) == Brackets(0, 0, if kind.Array? then n else 0)
  {
  }

  lemma CloseFound(t: Text, n: nat, kind: Kind, b: Brackets)
    requires At(t, n) == CloseOf(kind) && b.arrays >= 0 && b.objects >= 0
    requires (if kind.Object? then b.objects else b.arrays) == 1
    ensures FindClose(t, n, kind, Outside, b) == ClosedAt(n, Counted(b, CloseOf(kind)))
  {
  }

  lemma ObjectValueRest(job: Job, p: Parser, i: nat, v: Value) returns (q: Parser)
    requires InList(job) && Awaits(p) && ValueOk(v) && IsContainer(v) && v.kind.Object? && Occurs(job.t, i, PrintValue(v))
    ensures Behind(job, p, q)
    ensures Continue(job, p, i) ==
      if Entered(v, job.depth + 1) then Prepend(ChildAt(OwnerOf(p), v, i), Continue(job, q, i + |PrintValue(v)|))
      else Rejected
  {
    hide Continue, ValueOk, PrintValue, FindClose, ParseText, LastSolid, Occurs;
    var t, n := job.t, i + |PrintValue(v)|;
    OccursSliceIs(t, i, PrintValue(v));
    ContainerCloses(t, i, v);
    var begun := p.(phase := FindObjectEnd, valueBegin := i, brackets := Brackets(0, 1, 0));
    GoRest(job, p, i, begun);
    var noted := Noted(begun, LBRACE, i);
    ContainerRest(job, noted, i + 1, Object);
    var r := FindClose(t, i + 1, Object, Outside, Brackets(0, 1, 0));
    var q0 := Closed(noted, t, i + 1, r);
    q := Noted(Committed(job, q0, RBRACE), RBRACE, n - 1);
  }

  lemma OccursSliceIs(t: Text, i: nat, x: Text)
    requires Occurs(t, i, x)
    ensures i + |x| <= |t| && t[i..i + |x|] == x && Slice(t, i, i + |x|) == x
  {
  }

  lemma EmptyArrayLast(t: Text, i: nat, v: Value)
    requires ValueOk(v) && v.Empty? && Occurs(t, i, PrintValue(v))
    ensures LastSolid(t, i + 1, i + |PrintValue(v)| - 1, i) == i
  {
    hide LastSolid, Occurs;
    OccursConcat(t, i, [OpenOf(v.kind)], v.ws + [CloseOf(v.kind)]);
    OccursConcat(t, i + 1, v.ws, [CloseOf(v.kind)]);
    OccursSliceIs(t, i + 1, v.ws);
    LastSolidStays(t, i + 1, i + 1 + |v.ws|, i);
  }

  /** The members without trailing space, the trailing space and the bracket. */
  lemma FilledParts(t: Text, i: nat, v: Value)
    requires ValueOk(v) && v.Filled? && Occurs(t, i, PrintValue(v))
    ensures MembersOk(v.members, v.kind) && MembersOk(WithLastWs(v.members, []), v.kind)
    ensures var x := PrintMembers(WithLastWs(v.members, []), v.kind);
      Content(v) == v.ws + x && x != [] && !IsWhitespace(x[|x| - 1]) && x[|x| - 1] != COMMA &&
      AllWhitespace(LastWs(v.members)) &&
      |PrintValue(v)| == 2 + |Content(v)| + |LastWs(v.members)| &&
      Occurs(t, i + 1, Content(v)) && Occurs(t, i + 1 + |Content(v)|, LastWs(v.members))
  {
    hide Occurs, PrintMembers, MembersOk, AllWhitespace, IsWhitespace;
    var ms, kind := v.members, v.kind;
    assert MembersOk(ms, kind);
    NoSpaceAllWhitespace();
    LastWsPrints(ms, kind, LastWs(ms)) by {
      LastWsOk(ms, kind);
    }
    LastWsOk(ms, kind);
    var x, w := PrintMembers(WithLastWs(ms, []), kind), LastWs(ms);
    LastWsCleared(ms, kind);
    LastOfMembers(WithLastWs(ms, []), kind);
    assert PrintMembers(ms, kind) == x + w;
    assert Slice(x + w, 0, |x|) == x;
    OccursConcat(t, i, [OpenOf(kind)], v.ws + ((x + w) + [CloseOf(kind)]));
    assert v.ws + ((x + w) + [CloseOf(kind)]) == (v.ws + x) + (w + [CloseOf(kind)]);
    OccursConcat(t, i + 1, v.ws + x, w + [CloseOf(kind)]);
    OccursConcat(t, i + 1 + |v.ws + x|, w, [CloseOf(kind)]);
  }

  lemma NoSpaceAllWhitespace()
    ensures AllWhitespace([])
  {
  }

  lemma {:induction false} LastWsOk(ms: Members, kind: Kind)
    requires MembersOk(ms, kind)
    ensures AllWhitespace(LastWs(ms))
    decreases ms
  {
    if ms.More? {
      LastWsOk(ms.rest, kind);
    }
  }

  lemma {:induction false} LastWsCleared(ms: Members, kind: Kind)
    ensures LastWs(WithLastWs(ms, [])) == []
    decreases ms
  {
    if ms.More? {
      LastWsCleared(ms.rest, kind);
    }
  }

  lemma FilledArrayLast(t: Text, i: nat, v: Value)
    requires ValueOk(v) && v.Filled? && Occurs(t, i, PrintValue(v))
    ensures var k := i + |Content(v)|;
      LastSolid(t, i + 1, i + |PrintValue(v)| - 1, i) == k && k >= i + 1 && ByteAt(t, k) != COMMA &&
      Slice(t, i + 1, k + 1) == Content(v)
  {
    hide LastSolid, Occurs, PrintMembers, PrintValue, MembersOk, ValueOk, Content;
    FilledParts(t, i, v);
    var y, w := Content(v), LastWs(v.members);
    var k, c := i + |y|, i + 1 + |y| + |w|;
    OccursAt(t, i + 1, y, |y| - 1);
    OccursSliceIs(t, i + 1, y);
    OccursSliceIs(t, k + 1, w);
    assert t[k] == y[|y| - 1];
    LastSolidIs(t, i + 1, c, i, k);
  }

  /** An array up to its commit. */
  lemma ArrayRest(job: Job, p: Parser, i: nat, v: Value) returns (q: Parser)
    requires job.depth <= MAX_NESTING && Awaits(p) && ValueOk(v) && IsContainer(v) && v.kind.Array?
    requires Occurs(job.t, i, PrintValue(v))
    ensures q == p.(phase := FindArrayEnd, valueBegin := i + 1, brackets := q.brackets, lastSolid := q.lastSolid)
    ensures var stop, c := (if v.Empty? then i + 1 else i + 1 + |Content(v)|), i + |PrintValue(v)| - 1;
      job.t[c] == RBRACKET && Continue(job, p, i) == AtCommit(job, q, stop, c) &&
      ChildOf(q, job.t, stop) == ChildAt(OwnerOf(p), v, i) &&
      (v.Filled? ==> Slice(job.t, i + 1, stop) == Content(v) && i + 1 < stop)
  {
    hide Continue, AtCommit, ValueOk, PrintValue, FindClose, LastSolid, Occurs, Content;
    var t := job.t;
    OccursSliceIs(t, i, PrintValue(v));
    ContainerCloses(t, i, v);
    var begun := p.(phase := FindArrayEnd, valueBegin := i + 1, brackets := Brackets(1, 0, 0));
    GoRest(job, p, i, begun);
    var noted := Noted(begun, LBRACKET, i);
    ContainerRest(job, noted, i + 1, Array);
    var r := FindClose(t, i + 1, Array, Outside, Brackets(1, 0, 0));
    q := Closed(noted, t, i + 1, r);
    if v.Empty? {
      EmptyArrayLast(t, i, v);
    } else {
      FilledArrayLast(t, i, v);
      FilledParts(t, i, v);
    }
  }

  lemma ArrayValueRest(job: Job, p: Parser, i: nat, v: Value) returns (q: Parser)
    requires InList(job) && Awaits(p) && ValueOk(v) && IsContainer(v) && v.kind.Array? && Occurs(job.t, i, PrintValue(v))
    ensures Behind(job, p, q)
    ensures Continue(job, p, i) ==
      if Entered(v, job.depth + 1) then Prepend(ChildAt(OwnerOf(p), v, i), Continue(job, q, i + |PrintValue(v)|))
      else Rejected
  {
    hide Continue, ValueOk, PrintValue, ParseText, Occurs, Content, ChildAt, ChildOf;
    var q0 := ArrayRest(job, p, i, v);
    q := Noted(Committed(job, q0, RBRACKET), RBRACKET, i + |PrintValue(v)| - 1);
  }

  /** Any value of a list. */
  lemma ValueRest(job: Job, p: Parser, i: nat, v: Value) returns (q: Parser)
    requires InList(job) && Awaits(p) && ValueOk(v) && Occurs(job.t, i, PrintValue(v))
    requires Follows(job.mode, At(job.t, i + |PrintValue(v)|))
    ensures Behind(job, p, q)
    ensures Continue(job, p, i) ==
      if Entered(v, job.depth + 1) then Prepend(ChildAt(OwnerOf(p), v, i), Continue(job, q, i + |PrintValue(v)|))
      else Rejected
  {
    hide Continue, ValueOk, PrintValue, ParseText, Occurs, Content, ChildAt, InList, Behind;
    if IsBare(v) {
      q := BareValueRest(job, p, i, v);
    } else if v.Str? {
      q := StringValueRest(job, p, i, v);
    } else if v.kind.Object? {
      q := ObjectValueRest(job, p, i, v);
    } else {
      q := ArrayValueRest(job, p, i, v);
    }
  }
}
