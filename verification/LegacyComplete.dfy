/** kason_parse_internal accepts well-formed objects and arrays within its depth
    limit, and reports their children. */
module LegacyComplete {
  import opened Bytes
  import opened JsonString
  import opened Grammar
  import opened Events
  import opened Modes
  import opened LegacySpec
  import opened LegacyTokens
  import opened LegacyTrees

  function ListMode(kind: Kind): Mode {
    if kind.Object? then ObjectMode else ArrayMode
  }

  /** In front of a member. */
  predicate AtMember(job: Job, p: Parser, kind: Kind) {
    InList(job) && job.mode == ListMode(kind) && p.quoting == Outside &&
    (if kind.Object? then p.phase == FindKeyBegin else p.phase == FindValueBegin && p.keyBegin == -1)
  }

  lemma SpaceTo(job: Job, p: Parser, i: nat, w: Text)
    requires job.depth <= MAX_NESTING && SkipsSpace(p.phase) && Occurs(job.t, i, w) && AllWhitespace(w)
    requires !IsWhitespace(At(job.t, i + |w|))
    ensures Continue(job, p, i) == Continue(job, p, i + |w|)
  {
    hide Continue;
    SkipWsTo(job.t, i, w);
    SpaceRest(job, p, i);
  }

  lemma KeyNotSpace()
    ensures !IsWhitespace(COLON) && !IsWhitespace(COMMA) && !IsWhitespace(RBRACE) && !IsWhitespace(-1)
  {
  }

  lemma ValueStart(t: Text, i: nat, v: Value)
    requires ValueOk(v) && Occurs(t, i, PrintValue(v))
    ensures i < |t| && !IsWhitespace(t[i]) && t[i] == PrintValue(v)[0]
  {
    hide PrintValue, ValueOk;
    FirstOfValue(v);
    OccursAt(t, i, PrintValue(v), 0);
  }

  lemma NameRest(job: Job, p: Parser, key: Key, i: nat) returns (q: Parser)
    requires AtMember(job, p, Object) && KeyOk(key, Object) && Occurs(job.t, i, Grammar.Quoted(key.chars))
    ensures Continue(job, p, i) == Continue(job, q, i + |Grammar.Quoted(key.chars)|)
    ensures q.phase == FindValueSeparator && q.quoting == Outside && q.hasEntries == p.hasEntries &&
      OwnerOf(q) == KeyOwnerAt(key, i)
  {
    hide Continue, CharsOk, PrintChars, ReadBody, AllWhitespace;
    var t, x := job.t, PrintChars(key.chars);
    OccursConcat(t, i, [QUOTE], x + [QUOTE]);
    OccursConcat(t, i + 1, x, [QUOTE]);
    OccursByte(t, i, QUOTE);
    OccursByte(t, i + 1 + |x|, QUOTE);
    ReadBodyComplete(t, i + 1, key.chars);
    var begun := p.(phase := FindKeyEnd, quoting := InString, keyBegin := i + 1, unclean := false);
    GoRest(job, p, i, begun);
    q := KeyRest(job, Noted(begun, QUOTE, i), i + 1);
  }

  lemma MemberKeyRest(job: Job, p: Parser, key: Key, kind: Kind, i: nat) returns (q: Parser)
    requires AtMember(job, p, kind) && KeyOk(key, kind) && Occurs(job.t, i, PrintKey(key, kind))
    requires !IsWhitespace(At(job.t, i + |PrintKey(key, kind)|))
    ensures Continue(job, p, i) == Continue(job, q, i + |PrintKey(key, kind)|)
    ensures Awaits(q) && q.hasEntries == p.hasEntries && OwnerOf(q) == KeyOwnerAt(key, i)
  {
    hide Continue, CharsOk, Grammar.Quoted, AllWhitespace, Occurs;
    q := p;
    if key.Key? {
      var t, x := job.t, Grammar.Quoted(key.chars);
      var c := i + |x|;
      var d := c + |key.before|;
      OccursConcat(t, i, x, key.before + ([COLON] + key.after));
      OccursConcat(t, c, key.before, [COLON] + key.after);
      OccursConcat(t, d, [COLON], key.after);
      OccursByte(t, d, COLON);
      var named := NameRest(job, p, key, i);
      KeyNotSpace();
      SpaceTo(job, named, c, key.before);
      GoRest(job, named, d, named.(phase := FindValueBegin));
      q := Noted(named.(phase := FindValueBegin), COLON, d);
      SpaceTo(job, q, d + 1, key.after);
    }
  }

  /** A byte that ends a member. */
  predicate EndsMember(kind: Kind, c: int) {
    c == COMMA || (if kind.Object? then c == RBRACE else c == -1)
  }

  lemma EndFollows(job: Job, kind: Kind, w: Text, i: nat)
    requires job.mode == ListMode(kind) && AllWhitespace(w) && Occurs(job.t, i, w) && EndsMember(kind, At(job.t, i + |w|))
    ensures Follows(job.mode, At(job.t, i)) && !IsWhitespace(At(job.t, i + |w|))
  {
    if w != [] {
      OccursAt(job.t, i, w, 0);
    }
  }

  lemma MemberRest(job: Job, p: Parser, m: Member, kind: Kind, i: nat) returns (q: Parser)
    requires AtMember(job, p, kind) && MemberOk(m, kind) && Occurs(job.t, i, PrintMember(m, kind))
    requires EndsMember(kind, At(job.t, i + |PrintMember(m, kind)|))
    ensures Behind(job, p, q)
    ensures Continue(job, p, i) ==
      if Entered(m.value, job.depth + 1) then
        Prepend(MemberChild(m, kind, i), Continue(job, q, i + |PrintMember(m, kind)|))
      else Rejected
  {
    hide Continue, PrintKey, PrintValue, ValueOk, AllWhitespace, Occurs, Entered, ChildAt, KeyOwnerAt;
    var t, k, x := job.t, PrintKey(m.key, kind), PrintValue(m.value);
    OccursConcat(t, i, k, x + m.ws);
    OccursConcat(t, i + |k|, x, m.ws);
    ValueStart(t, i + |k|, m.value);
    EndFollows(job, kind, m.ws, i + |k| + |x|);
    var keyed := MemberKeyRest(job, p, m.key, kind, i);
    q := ValueRest(job, keyed, i + |k|, m.value);
    SpaceTo(job, q, i + |k| + |x|, m.ws);
  }

  /** The text behind the last member. */
  predicate EndsMembers(t: Text, n: nat, kind: Kind) {
    if kind.Object? then At(t, n) == RBRACE else n == |t|
  }

  function AllChildren(levels: bool, ms: Members, kind: Kind, t: Text, i: nat): Outcome
    requires MembersOk(ms, kind)
  {
    var n := i + |PrintMembers(ms, kind)|;
    if !levels || (kind.Object? && n < |t| && !AllWhitespace(t[n + 1..])) then Rejected else Accepted(ChildrenAt(ms, kind, i))
  }

  predicate AllEntered(ms: Members, kind: Kind, depth: nat)
    requires MembersOk(ms, kind)
  {
    MemberEntered(ms.member, kind, depth) && (ms.More? ==> AllEntered(ms.rest, kind, depth))
  }

  predicate MemberEntered(m: Member, kind: Kind, depth: nat)
    requires MemberOk(m, kind)
  {
    Entered(m.value, depth)
  }

  lemma EndRest(job: Job, q: Parser, n: nat, kind: Kind)
    requires InList(job) && job.mode == ListMode(kind) && q.phase == FindParamSeparator && EndsMembers(job.t, n, kind)
    ensures Continue(job, q, n) ==
      if kind.Object? && !AllWhitespace(job.t[n + 1..]) then Rejected else Accepted([])
  {
    hide AllWhitespace;
    if kind.Object? {
      GoRest(job, q, n, q.(phase := Complete));
    }
  }

  /** The members of a list up to its end. */
  lemma {:induction false} MembersRest(job: Job, p: Parser, ms: Members, kind: Kind, i: nat)
    requires AtMember(job, p, kind) && MembersOk(ms, kind) && Occurs(job.t, i, PrintMembers(ms, kind))
    requires EndsMembers(job.t, i + |PrintMembers(ms, kind)|, kind)
    ensures Continue(job, p, i) == AllChildren(AllEntered(ms, kind, job.depth + 1), ms, kind, job.t, i)
    decreases ms
  {
    hide Continue, PrintMember, MemberOk, AllWhitespace, Occurs, Entered, MemberChild, SkipWs;
    var t, m := job.t, ms.member;
    if ms.Last? {
      var q := MemberRest(job, p, m, kind, i);
      EndRest(job, q, i + |PrintMembers(ms, kind)|, kind);
    } else {
      var x, rest := PrintMember(m, kind), PrintMembers(ms.rest, kind);
      var n := i + |x|;
      var k := n + 1 + |ms.gap|;
      MoreOccurs(t, i, x, ms.gap, rest);
      var q := MemberRest(job, p, m, kind, i);
      var after := q.(phase := if kind.Object? then FindKeyBegin else FindValueBegin);
      GoRest(job, q, n, after);
      var noted := Noted(after, COMMA, n);
      MembersStart(t, k, ms.rest, kind);
      SpaceTo(job, noted, n + 1, ms.gap);
      MembersRest(job, noted, ms.rest, kind, k);
    }
  }

  lemma MembersStart(t: Text, i: nat, ms: Members, kind: Kind)
    requires MembersOk(ms, kind) && Occurs(t, i, PrintMembers(ms, kind))
    ensures i < |t| && !IsWhitespace(t[i]) && (kind.Object? ==> t[i] == QUOTE)
  {
    hide Occurs, PrintMembers, PrintValue, ValueOk, AllWhitespace, PrintChars, CharsOk;
    var m := ms.member;
    var k, x := PrintKey(m.key, kind), PrintValue(m.value);
    assert PrintMembers(ms, kind) == PrintMember(m, kind) + (if ms.More? then [COMMA] + (ms.gap + PrintMembers(ms.rest, kind)) else []) by {
      PrintMembersUnfold(ms, kind);
    }
    OccursConcat(t, i, PrintMember(m, kind), if ms.More? then [COMMA] + (ms.gap + PrintMembers(ms.rest, kind)) else []);
    OccursConcat(t, i, k, x + m.ws);
    OccursConcat(t, i + |k|, x, m.ws);
    if m.key.NoKey? {
      ValueStart(t, i, m.value);
    } else {
      OccursConcat(t, i, Grammar.Quoted(m.key.chars), m.key.before + ([COLON] + m.key.after));
      OccursConcat(t, i, [QUOTE], PrintChars(m.key.chars) + [QUOTE]);
      OccursByte(t, i, QUOTE);
    }
  }

  lemma PrintMembersUnfold(ms: Members, kind: Kind)
    requires MembersOk(ms, kind)
    ensures PrintMembers(ms, kind) == PrintMember(ms.member, kind) + (if ms.More? then [COMMA] + (ms.gap + PrintMembers(ms.rest, kind)) else [])
  {
    hide PrintMember, MemberOk;
    if ms.Last? {
      assert PrintMember(ms.member, kind) + [] == PrintMember(ms.member, kind);
    }
  }

  // -------------------------------------------------- whole objects and arrays

  function ObjectChildren(v: Value, i: nat): seq<Child>
    requires ValueOk(v)
  {
    if v.Filled? then ChildrenAt(v.members, v.kind, i + 1 + |v.ws|) else []
  }

  lemma ObjectBegins(t: Text, before: Text, depth: nat) returns (p: Parser, job: Job)
    requires depth <= MAX_NESTING && Occurs(t, 0, before) && AllWhitespace(before) && At(t, |before|) == LBRACE
    ensures job == Job(t, ObjectMode, false, depth) && AtMember(job, p, Object) && !p.hasEntries
    ensures ParseText(t, AutoMode, depth) == Continue(job, p, |before| + 1)
  {
    hide Continue;
    SkipWsTo(t, 0, before);
    job := Job(t, ObjectMode, false, depth);
    var begin := Begin(ObjectMode, |before|);
    GoRest(job, begin, |before|, begin.(phase := FindKeyBegin));
    p := Noted(begin.(phase := FindKeyBegin), LBRACE, |before|);
  }

  lemma DepthRefused(t: Text, mode: Mode, depth: nat)
    requires depth > MAX_NESTING
    ensures ParseText(t, mode, depth) == Rejected
  {
  }

  predicate IsObject(v: Value) {
    IsContainer(v) && v.kind.Object?
  }

  /** Where the parts of an object lie. */
  lemma ObjectParts(t: Text, i: nat, v: Value)
    requires ValueOk(v) && IsObject(v) && Occurs(t, i, PrintValue(v))
    ensures At(t, i) == LBRACE && AllWhitespace(v.ws) && Occurs(t, i + 1, v.ws)
    ensures v.Filled? ==> MembersOk(v.members, Object) && Occurs(t, i + 1 + |v.ws|, PrintMembers(v.members, Object))
    ensures At(t, i + |PrintValue(v)| - 1) == RBRACE
    ensures |PrintValue(v)| == 2 + |v.ws| + if v.Filled? then |PrintMembers(v.members, Object)| else 0
  {
    hide Occurs, PrintMembers, MembersOk, AllWhitespace, PrintValue, ValueOk;
    var x := MembersText(v);
    ContainerText(v);
    OccursConcat(t, i, [LBRACE], v.ws + (x + [RBRACE]));
    OccursConcat(t, i + 1, v.ws, x + [RBRACE]);
    OccursConcat(t, i + 1 + |v.ws|, x, [RBRACE]);
    OccursByte(t, i, LBRACE);
    OccursByte(t, i + 1 + |v.ws| + |x|, RBRACE);
  }

  /** An object with white space around it, at depth `depth`. */
  lemma {:induction false} ObjectText(t: Text, before: Text, v: Value, depth: nat)
    requires ValueOk(v) && IsObject(v) && AllWhitespace(before)
    requires Occurs(t, 0, before) && Occurs(t, |before|, PrintValue(v))
    ensures ParseText(t, AutoMode, depth) ==
      if WithinLimit(depth, Enters(v)) && AllWhitespace(t[|before| + |PrintValue(v)|..]) then
        Accepted(ObjectChildren(v, |before|))
      else Rejected
    decreases MAX_NESTING + 1 - depth, 1
  {
    hide Continue, ParseText, ValueOk, PrintValue, PrintMembers, MembersOk, AllWhitespace, Occurs, AllEntered, ChildrenAt;
    var i := |before|;
    var k := i + 1 + |v.ws|;
    var end := i + |PrintValue(v)|;
    ObjectParts(t, i, v);
    if depth > MAX_NESTING {
      DepthRefused(t, AutoMode, depth);
    } else {
      var p, job := ObjectBegins(t, before, depth);
      KeyNotSpace();
      if v.Empty? {
        SpaceTo(job, p, i + 1, v.ws);
        GoRest(job, p, k, p.(phase := Complete));
        EndComplete(job, Noted(p.(phase := Complete), RBRACE, k), end);
      } else {
        MembersStart(t, k, v.members, Object);
        SpaceTo(job, p, i + 1, v.ws);
        MembersRest(job, p, v.members, Object, k);
        AllEnteredIff(v.members, Object, depth + 1);
      }
    }
  }

  lemma EndComplete(job: Job, p: Parser, n: nat)
    requires job.depth <= MAX_NESTING && n <= |job.t| && p.phase == Complete
    ensures Continue(job, p, n) == if AllWhitespace(job.t[n..]) then Accepted([]) else Rejected
  {
  }

  /** The text between the brackets of an array, without the white space behind it. */
  lemma {:induction false} ArrayText(ws: Text, ms: Members, depth: nat)
    requires AllWhitespace(ws) && MembersOk(ms, Array)
    ensures ParseText(ws + PrintMembers(ms, Array), ArrayMode, depth) ==
      if WithinLimit(depth, 1 + MembersEnter(ms)) then Accepted(ChildrenAt(ms, Array, |ws|)) else Rejected
    decreases MAX_NESTING + 1 - depth, 1
  {
    hide Continue, PrintMembers, MembersOk, AllWhitespace, Occurs, AllEntered, ChildrenAt, ParseText;
    var t := ws + PrintMembers(ms, Array);
    if depth > MAX_NESTING {
      DepthRefused(t, ArrayMode, depth);
    } else {
      var job, p := Job(t, ArrayMode, false, depth), Begin(ArrayMode, 0);
      ArrayBegins(t, depth);
      OccursWhole(t, t);
      OccursConcat(t, 0, ws, PrintMembers(ms, Array));
      MembersStart(t, |ws|, ms, Array);
      SpaceTo(job, p, 0, ws);
      MembersRest(job, p, ms, Array, |ws|);
      AllEnteredIff(ms, Array, depth + 1);
    }
  }

  lemma ArrayBegins(t: Text, depth: nat)
    requires depth <= MAX_NESTING
    ensures ParseText(t, ArrayMode, depth) == Continue(Job(t, ArrayMode, false, depth), Begin(ArrayMode, 0), 0)
  {
  }

  lemma {:induction false} EnteredIff(v: Value, depth: nat)
    requires ValueOk(v) && depth <= MAX_NESTING + 1
    ensures Entered(v, depth) <==> WithinLimit(depth, Enters(v))
    decreases MAX_NESTING + 1 - depth, 2
  {
    hide ParseText, ValueOk, PrintValue, PrintMembers, MembersOk, AllWhitespace, Occurs, ChildrenAt, Content;
    if IsObject(v) {
      var t := PrintValue(v);
      NoSpaceAllWhitespace();
      OccursWhole(t, t);
      OccursNothing(t, 0);
      ObjectText(t, [], v, depth);
      assert t[|t|..] == [];
    } else if v.Filled? {
      OccursWhole(PrintValue(v), PrintValue(v));
      FilledParts(PrintValue(v), 0, v);
      FilledSpace(v);
      ArrayText(v.ws, WithLastWs(v.members, []), depth);
      LastWsPrints(v.members, Array, []) by {
        NoSpaceAllWhitespace();
      }
    }
  }

  lemma FilledSpace(v: Value)
    requires ValueOk(v) && v.Filled?
    ensures AllWhitespace(v.ws)
  {
  }

  lemma {:induction false} AllEnteredIff(ms: Members, kind: Kind, depth: nat)
    requires MembersOk(ms, kind) && depth <= MAX_NESTING + 1
    ensures AllEntered(ms, kind, depth) <==> WithinLimit(depth, MembersEnter(ms))
    decreases MAX_NESTING + 1 - depth, 3, ms
  {
    hide Entered, Enters, ValueOk, KeyOk;
    EnteredIff(ms.member.value, depth);
    if ms.More? {
      AllEnteredIff(ms.rest, kind, depth);
    }
  }
}
