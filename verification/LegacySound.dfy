/** Whatever kason_parse_internal accepts as an object or as the contents of an
    array is well formed. */
module LegacySound {
  import opened Bytes
  import opened JsonString
  import opened Number
  import opened Grammar
  import opened Modes
  import opened LegacySpec
  import opened LegacyTokens
  import opened LegacyBrackets
  import opened LegacyTrees
  import opened LegacyComplete

  /** The text was cut out of an array: with its bracket put back, the counters
      close at the end and not before. Without this, a stray bracket would pass
      for a delimiter. */
  predicate Balanced(t: Text, i: nat, b: Brackets) {
    Within(Array, b) && AtLevelOne(b) &&
    FindClose(t + [RBRACKET], i, Array, Outside, b).ClosedAt? &&
    FindClose(t + [RBRACKET], i, Array, Outside, b).at == |t|
  }

  lemma OccursLonger(t: Text, i: nat, x: Text, c: Byte)
    requires Occurs(t, i, x)
    ensures Occurs(t + [c], i, x)
  {
    assert (t + [c])[i..i + |x|] == t[i..i + |x|];
  }

  lemma BalancedNext(t: Text, i: nat, b: Brackets, v: Value)
    requires Balanced(t, i, b) && ValueOk(v) && Occurs(t, i, PrintValue(v))
    ensures Balanced(t, i + |PrintValue(v)|, b)
  {
    hide FindClose, Within, Occurs, ValueOk, PrintValue;
    OccursLonger(t, i, PrintValue(v), RBRACKET);
    ValueScans(t + [RBRACKET], i, Array, b, v);
  }

  lemma BalancedSpace(t: Text, i: nat, b: Brackets, w: Text)
    requires Balanced(t, i, b) && AllWhitespace(w) && Occurs(t, i, w)
    ensures Balanced(t, i + |w|, b)
  {
    hide FindClose, Within, Occurs, AllWhitespace;
    OccursLonger(t, i, w, RBRACKET);
    SpaceScans(t + [RBRACKET], i, Array, b, w);
  }

  lemma BalancedComma(t: Text, i: nat, b: Brackets)
    requires Balanced(t, i, b) && At(t, i) == COMMA
    ensures Balanced(t, i + 1, Separated(b, 1))
  {
    hide FindClose;
    assert At(t + [RBRACKET], i) == COMMA;
    CommaScans(t + [RBRACKET], i, Array, b);
  }

  lemma BalancedNoBracket(t: Text, i: nat, b: Brackets)
    requires Balanced(t, i, b)
    ensures At(t, i) != RBRACKET
  {
    hide FindClose;
    if At(t, i) == RBRACKET {
      assert At(t + [RBRACKET], i) == RBRACKET;
      CloseFound(t + [RBRACKET], i, Array, b);
    }
  }

  // ------------------------------------------------------------- one value

  lemma ParamFollows(job: Job, q: Parser, n: nat)
    requires InList(job) && n <= |job.t| && q.phase == FindParamSeparator && Continue(job, q, n).Accepted?
    ensures Follows(job.mode, At(job.t, n))
  {
    if n < |job.t| {
      assert Step(q, job.t, n, job.mode) == StepParamSeparator(q, job.t[n], job.mode);
    }
  }

  lemma {:induction false} StopDelimits(t: Text, i: nat, mode: Mode)
    requires i <= |t| && TokenStop(t, i, mode) < |t|
    ensures Delimits(mode, t[TokenStop(t, i, mode)])
    decreases |t| - i
  {
    if i < |t| && !Delimits(mode, t[i]) && TokenStop(t, i, mode) != i {
      StopDelimits(t, i + 1, mode);
    }
  }

  lemma TokenSound(job: Job, p: Parser, i: nat, b: Brackets) returns (v: Value)
    requires InList(job) && Awaits(p) && i < |job.t| && StartsToken(job.t[i]) && Continue(job, p, i).Accepted?
    requires job.mode == ArrayMode ==> Balanced(job.t, i, b)
    ensures ValueOk(v) && Occurs(job.t, i, PrintValue(v)) && Follows(job.mode, At(job.t, i + |PrintValue(v)|))
  {
    hide Continue, ValueOk, PrintValue, TokenOk, TokenStop, Balanced, Delimits, NumberBegin;
    var t, n := job.t, TokenEnd(job, i);
    var q := TokenRest(job, p, i);
    var x := t[i..n];
    v := ValueOfToken(x);
    OccursSlice(t, i, n);
    if n < |t| {
      StopDelimits(t, i + 1, job.mode);
      if job.mode == ArrayMode {
        BalancedNext(t, i, b, v);
        BalancedNoBracket(t, n, b);
      }
      DelimitsFollows(job.mode, t[n]);
    }
  }

  lemma DelimitsFollows(mode: Mode, c: Byte)
    requires Delimits(mode, c) && (mode == ObjectMode || (mode == ArrayMode && c != RBRACKET))
    ensures Follows(mode, c)
  {
  }

  lemma StringSound(job: Job, p: Parser, i: nat) returns (v: Value)
    requires InList(job) && Awaits(p) && At(job.t, i) == QUOTE && Continue(job, p, i).Accepted?
    ensures ValueOk(v) && Occurs(job.t, i, PrintValue(v)) && Follows(job.mode, At(job.t, i + |PrintValue(v)|))
  {
    hide Continue, ReadBody, CharsOk, PrintChars, Follows;
    var t := job.t;
    var begun := p.(phase := FindStringEnd, quoting := InString, valueBegin := i + 1, unclean := false);
    GoRest(job, p, i, begun);
    var q0 := StringRest(job, Noted(begun, QUOTE, i), i + 1);
    v := Str(ReadBody(t, i + 1).chars);
    var stop := ReadBody(t, i + 1).close;
    ReadQuotedSound(t, i);
    ParamFollows(job, Noted(Committed(job, q0, QUOTE), QUOTE, stop), stop + 1);
  }

  /** From the commit of a container. */
  lemma CommitAccepted(job: Job, p: Parser, stop: int, at: nat)
    requires at < |job.t| && InList(job) && AtCommit(job, p, stop, at).Accepted?
    ensures Checked(job, p, stop)
    ensures Continue(job, Noted(Committed(job, p, job.t[at]), job.t[at], at), at + 1).Accepted?
  {
    hide Checked, Continue, Committed, ChildOf;
  }

  lemma ContainerFollows(job: Job, p: Parser, stop: int, at: nat)
    requires at < |job.t| && InList(job) && AtCommit(job, p, stop, at).Accepted?
    requires (p.phase == FindObjectEnd && job.t[at] == RBRACE) || (p.phase == FindArrayEnd && job.t[at] == RBRACKET)
    ensures Follows(job.mode, At(job.t, at + 1))
  {
    hide Checked, Continue, Follows, AtCommit;
    CommitAccepted(job, p, stop, at);
    ParamFollows(job, Noted(Committed(job, p, job.t[at]), job.t[at], at), at + 1);
  }

  lemma ObjectValueSound(job: Job, p: Parser, i: nat) returns (v: Value)
    requires InList(job) && Awaits(p) && At(job.t, i) == LBRACE && Continue(job, p, i).Accepted?
    ensures ValueOk(v) && Occurs(job.t, i, PrintValue(v)) && Follows(job.mode, At(job.t, i + |PrintValue(v)|))
    decreases MAX_NESTING + 1 - job.depth, 0
  {
    hide Continue, AtCommit, ValueOk, PrintValue, FindClose, ParseText, LastSolid, Occurs, Follows, SkipWs, AllWhitespace;
    var t := job.t;
    var begun := p.(phase := FindObjectEnd, valueBegin := i, brackets := Brackets(0, 1, 0));
    GoRest(job, p, i, begun);
    var noted := Noted(begun, LBRACE, i);
    ContainerRest(job, noted, i + 1, Object);
    var r := FindClose(t, i + 1, Object, Outside, Brackets(0, 1, 0));
    var q0, c := Closed(noted, t, i + 1, r), r.at;
    CommitAccepted(job, q0, c + 1, c);
    ContainerFollows(job, q0, c + 1, c);
    var x := t[i..c + 1];
    assert Slice(t, i, c + 1) == x && x[0] == LBRACE && x[|x| - 1] == RBRACE;
    var before, after;
    StartsAtOnce(x);
    before, v, after := ObjectSound(x, job.depth + 1);
    NoSpaceAround(x, before, PrintValue(v), after);
    OccursSlice(t, i, c + 1);
  }

  lemma StartsAtOnce(x: Text)
    requires x != [] && !IsWhitespace(x[0])
    ensures SkipWs(x, 0) == 0
  {
  }

  lemma SpaceFirst(w: Text, x: Text)
    requires w != [] && AllWhitespace(w)
    ensures IsWhitespace((w + x)[0])
  {
  }

  lemma SpaceLast(x: Text, y: Text, w: Text)
    requires w != [] && AllWhitespace(w)
    ensures var all := x + (y + w); IsWhitespace(all[|all| - 1])
  {
  }

  lemma NoSpaceAround(x: Text, before: Text, y: Text, after: Text)
    requires x == before + (y + after) && x != [] && AllWhitespace(before) && AllWhitespace(after)
    requires !IsWhitespace(x[0]) && !IsWhitespace(x[|x| - 1])
    ensures x == y
  {
    if before != [] {
      SpaceFirst(before, y + after);
    }
    if after != [] {
      SpaceLast(before, y, after);
    }
    assert [] + (y + []) == y;
  }

  // --------------------------------------------------- the slice of an array

  lemma {:induction false} LastSolidGives(t: Text, i: nat, c: nat, last: int)
    requires i <= c <= |t| && last < i
    ensures var k := LastSolid(t, i, c, last);
      if k < i then k == last && AllWhitespace(t[i..c])
      else k < c && !IsWhitespace(t[k]) && AllWhitespace(t[k + 1..c])
    decreases c - i
  {
    if i < c {
      if IsWhitespace(t[i]) {
        LastSolidFrom(t, i + 1, c, last);
        var k := LastSolid(t, i + 1, c, last);
        if k <= i {
          assert t[i..c] == [t[i]] + t[i + 1..c];
        }
      } else {
        LastSolidFrom(t, i + 1, c, i);
      }
    }
  }

  lemma {:induction false} LastSolidFrom(t: Text, i: nat, c: nat, last: int)
    requires i <= c <= |t| && last < i
    ensures var k := LastSolid(t, i, c, last);
      (k == last && AllWhitespace(t[i..c])) || (i <= k < c && !IsWhitespace(t[k]) && AllWhitespace(t[k + 1..c]))
    decreases c - i
  {
    if i < c {
      LastSolidFrom(t, i + 1, c, if IsWhitespace(t[i]) then last else i);
      assert t[i..c] == [t[i]] + t[i + 1..c];
    }
  }

  /** White space, then the closing bracket: the counters were ready to close. */
  lemma {:induction false} SpaceThenClose(t: Text, k: nat, c: nat, q: Quoting, b: Brackets)
    requires k <= c < |t| && AllWhitespace(t[k..c]) && FindClose(t, k, Array, q, b).ClosedAt?
    requires FindClose(t, k, Array, q, b).at == c
    ensures q == Outside && !Negative(Counted(b, RBRACKET)) && Closes(Array, Counted(b, RBRACKET), RBRACKET)
    decreases c - k
  {
    if k < c {
      assert IsWhitespace(t[k..c][0]);
      assert t[k + 1..c] == t[k..c][1..];
      if q != Outside {
        match QuotedStep(q, t[k])
        case StillQuoted(q') => SpaceThenClose(t, k + 1, c, q', b);
        case _ =>
      } else {
        SpaceThenClose(t, k + 1, c, q, b);
      }
    }
  }

  /** Cutting off the white space before the closing bracket does not change where the counters close. */
  lemma {:induction false} CutCloses(t: Text, i: nat, k: nat, c: nat, j: nat, q: Quoting, b: Brackets)
    requires i <= j <= k <= c < |t| && AllWhitespace(t[k..c])
    requires FindClose(t, j, Array, q, b).ClosedAt? && FindClose(t, j, Array, q, b).at == c
    ensures var r := FindClose(t[i..k] + [RBRACKET], j - i, Array, q, b);
      r.ClosedAt? && r.at == k - i
    decreases k - j
  {
    hide QuotedStep, Counted, Negative, Closes;
    var y := t[i..k] + [RBRACKET];
    if j == k {
      SpaceThenClose(t, k, c, q, b);
    } else {
      assert y[j - i] == t[j];
      if q != Outside {
        match QuotedStep(q, t[j])
        case StillQuoted(q') => CutCloses(t, i, k, c, j + 1, q', b);
        case QuoteCloses => CutCloses(t, i, k, c, j + 1, Outside, b);
        case _ =>
      } else if t[j] == QUOTE {
        CutCloses(t, i, k, c, j + 1, InString, b);
      } else {
        CutCloses(t, i, k, c, j + 1, Outside, Counted(b, t[j]));
      }
    }
  }

  lemma ArrayBegun(job: Job, p: Parser, i: nat) returns (q: Parser)
    requires job.depth <= MAX_NESTING && Awaits(p) && At(job.t, i) == LBRACKET
    ensures q == p.(phase := FindArrayEnd, valueBegin := i + 1, brackets := Brackets(1, 0, 0), lastSolid := i)
    ensures Continue(job, p, i) == Continue(job, q, i + 1)
  {
    hide Continue;
    var begun := p.(phase := FindArrayEnd, valueBegin := i + 1, brackets := Brackets(1, 0, 0));
    GoRest(job, p, i, begun);
    q := begun.(lastSolid := i);
  }

  lemma ArrayValueSound(job: Job, p: Parser, i: nat) returns (v: Value)
    requires InList(job) && Awaits(p) && At(job.t, i) == LBRACKET && Continue(job, p, i).Accepted?
    ensures ValueOk(v) && Occurs(job.t, i, PrintValue(v)) && Follows(job.mode, At(job.t, i + |PrintValue(v)|))
    decreases MAX_NESTING + 1 - job.depth, 0
  {
    hide Continue, AtCommit, FindClose, ParseText, LastSolid, Occurs, Follows, AllWhitespace, IsWhitespace, Step, ValueOk, PrintValue;
    var t := job.t;
    var noted := ArrayBegun(job, p, i);
    ContainerRest(job, noted, i + 1, Array);
    var r := FindClose(t, i + 1, Array, Outside, Brackets(1, 0, 0));
    var q0, c := Closed(noted, t, i + 1, r), r.at;
    var last := LastSolid(t, i + 1, c, i);
    CommitAccepted(job, q0, last + 1, c);
    ContainerFollows(job, q0, last + 1, c);
    v := SliceSound(t, i, c, job.depth + 1);
  }

  /** Brackets at `i` and `c`; the slice between them is accepted, or there is none. */
  lemma SliceSound(t: Text, i: nat, c: nat, depth: nat) returns (v: Value)
    requires At(t, i) == LBRACKET && At(t, c) == RBRACKET && i < c
    requires FindClose(t, i + 1, Array, Outside, Brackets(1, 0, 0)).ClosedAt?
    requires FindClose(t, i + 1, Array, Outside, Brackets(1, 0, 0)).at == c
    requires var last := LastSolid(t, i + 1, c, i);
      i + 1 >= last + 1 || ParseText(Slice(t, i + 1, last + 1), ArrayMode, depth).Accepted?
    ensures ValueOk(v) && Occurs(t, i, PrintValue(v)) && i + |PrintValue(v)| == c + 1
    decreases MAX_NESTING + 1 - depth, 5
  {
    hide FindClose, ParseText, LastSolid, Occurs, AllWhitespace, IsWhitespace, MembersOk, PrintMembers;
    var last := LastSolid(t, i + 1, c, i);
    LastSolidGives(t, i + 1, c, i);
    OccursByte(t, i, LBRACKET);
    OccursByte(t, c, RBRACKET);
    if last <= i {
      var ws := t[i + 1..c];
      v := Empty(Array, ws);
      OccursSlice(t, i + 1, c);
      OccursConcat(t, i + 1, ws, [RBRACKET]);
      OccursConcat(t, i, [LBRACKET], ws + [RBRACKET]);
    } else {
      var y, w := t[i + 1..last + 1], t[last + 1..c];
      CutCloses(t, i + 1, last + 1, c, i + 1, Outside, Brackets(1, 0, 0));
      var ws, ms := ElementsSound(y, depth);
      v := ArrayOf(ws, ms, w);
      OccursSlice(t, i + 1, last + 1);
      OccursSlice(t, last + 1, c);
      OccursConcat(t, last + 1, w, [RBRACKET]);
      OccursConcat(t, i + 1, y, w + [RBRACKET]);
      OccursConcat(t, i, [LBRACKET], y + (w + [RBRACKET]));
    }
  }

  /** The array with these contents and `w` in front of its closing bracket. */
  lemma ArrayOf(ws: Text, ms: Members, w: Text) returns (v: Value)
    requires AllWhitespace(ws) && MembersOk(ms, Array) && AllWhitespace(w)
    ensures ValueOk(v) && IsContainer(v) && v.kind.Array?
    ensures PrintValue(v) == [LBRACKET] + ((ws + PrintMembers(ms, Array)) + (w + [RBRACKET]))
  {
    hide AllWhitespace, MembersOk, PrintMembers;
    LastWsOk(ms, Array);
    LastWsPrints(ms, Array, LastWs(ms));
    var full := LastWs(ms) + w;
    SpaceConcat(LastWs(ms), w);
    LastWsPrints(ms, Array, full);
    v := Filled(Array, ws, WithLastWs(ms, full));
    var x := PrintMembers(WithLastWs(ms, []), Array);
    assert x + full == x + LastWs(ms) + w;
    var y := PrintMembers(ms, Array);
    assert ws + ((y + w) + [RBRACKET]) == (ws + y) + (w + [RBRACKET]);
  }

  lemma SpaceConcat(a: Text, b: Text)
    requires AllWhitespace(a) && AllWhitespace(b)
    ensures AllWhitespace(a + b)
  {
  }

  lemma ValueSound(job: Job, p: Parser, i: nat, b: Brackets) returns (v: Value)
    requires InList(job) && Awaits(p) && i <= |job.t| && !IsWhitespace(At(job.t, i)) && Continue(job, p, i).Accepted?
    requires job.mode == ArrayMode ==> Balanced(job.t, i, b)
    ensures ValueOk(v) && Occurs(job.t, i, PrintValue(v)) && Follows(job.mode, At(job.t, i + |PrintValue(v)|))
    decreases MAX_NESTING + 1 - job.depth, 1
  {
    hide Continue, ValueOk, PrintValue, Occurs, Follows, Balanced;
    if i == |job.t| {
      HaltRest(job, p, i);
    } else if job.t[i] == QUOTE {
      v := StringSound(job, p, i);
    } else if job.t[i] == LBRACE {
      v := ObjectValueSound(job, p, i);
    } else if job.t[i] == LBRACKET {
      v := ArrayValueSound(job, p, i);
    } else {
      v := TokenSound(job, p, i, b);
    }
  }

  // ----------------------------------------------------------------- lists

  lemma SkipTo(job: Job, p: Parser, i: nat) returns (k: nat, w: Text)
    requires job.depth <= MAX_NESTING && SkipsSpace(p.phase) && i <= |job.t|
    ensures k == i + |w| && k <= |job.t| && AllWhitespace(w) && Occurs(job.t, i, w) && !IsWhitespace(At(job.t, k))
    ensures Continue(job, p, i) == Continue(job, p, k)
  {
    hide Continue;
    SpaceRest(job, p, i);
    k := SkipWs(job.t, i);
    w := job.t[i..k];
    SkippedIsWs(job.t, i);
  }

  lemma NameSound(job: Job, p: Parser, i: nat) returns (cs: seq<Char>, q: Parser)
    requires AtMember(job, p, Object) && i <= |job.t| && !IsWhitespace(At(job.t, i)) && Continue(job, p, i).Accepted?
    requires p.hasEntries || At(job.t, i) != RBRACE
    ensures CharsOk(cs) && Occurs(job.t, i, Grammar.Quoted(cs))
    ensures q.phase == FindValueSeparator && q.quoting == Outside && q.hasEntries == p.hasEntries
    ensures Continue(job, q, i + |Grammar.Quoted(cs)|).Accepted?
  {
    hide Continue, CharsOk, Grammar.Quoted, ReadBody;
    cs, q := [], p;
    if At(job.t, i) != QUOTE {
      HaltRest(job, p, i);
    } else {
      var begun := p.(phase := FindKeyEnd, quoting := InString, keyBegin := i + 1, unclean := false);
      GoRest(job, p, i, begun);
      q := KeyRest(job, Noted(begun, QUOTE, i), i + 1);
      ReadQuotedSound(job.t, i);
      cs := ReadBody(job.t, i + 1).chars;
    }
  }

  lemma KeySound(job: Job, p: Parser, kind: Kind, i: nat) returns (key: Key, q: Parser)
    requires AtMember(job, p, kind) && i <= |job.t| && !IsWhitespace(At(job.t, i)) && Continue(job, p, i).Accepted?
    requires kind.Array? || p.hasEntries || At(job.t, i) != RBRACE
    ensures KeyOk(key, kind) && Occurs(job.t, i, PrintKey(key, kind)) && Awaits(q) && q.hasEntries == p.hasEntries
    ensures var k := i + |PrintKey(key, kind)|;
      k <= |job.t| && !IsWhitespace(At(job.t, k)) && Continue(job, q, k).Accepted?
  {
    hide Continue, CharsOk, Grammar.Quoted, AllWhitespace, Occurs;
    key, q := NoKey, p;
    if kind.Array? {
      OccursNothing(job.t, i);
    } else {
      var t := job.t;
      var cs, named := NameSound(job, p, i);
      var c := i + |Grammar.Quoted(cs)|;
      OccursFits(t, i, Grammar.Quoted(cs));
      var d, before := SkipTo(job, named, c);
      if At(t, d) != COLON {
        HaltRest(job, named, d);
      } else {
        GoRest(job, named, d, named.(phase := FindValueBegin));
        q := Noted(named.(phase := FindValueBegin), COLON, d);
        var e, after := SkipTo(job, q, d + 1);
        key := Key(cs, before, after);
        OccursByte(t, d, COLON);
        OccursConcat(t, d, [COLON], after);
        OccursConcat(t, c, before, [COLON] + after);
        OccursConcat(t, i, Grammar.Quoted(cs), before + ([COLON] + after));
      }
    }
  }

  lemma OccursFits(t: Text, i: nat, x: Text)
    requires Occurs(t, i, x)
    ensures i + |x| <= |t|
  {
  }

  lemma MemberSound(job: Job, p: Parser, kind: Kind, i: nat, b: Brackets) returns (m: Member, q: Parser)
    requires AtMember(job, p, kind) && i <= |job.t| && !IsWhitespace(At(job.t, i)) && Continue(job, p, i).Accepted?
    requires kind.Array? || p.hasEntries || At(job.t, i) != RBRACE
    requires kind.Array? ==> Balanced(job.t, i, b)
    ensures MemberOk(m, kind) && Occurs(job.t, i, PrintMember(m, kind)) && Behind(job, p, q)
    ensures var n := i + |PrintMember(m, kind)|;
      n <= |job.t| && !IsWhitespace(At(job.t, n)) && Continue(job, q, n).Accepted? && n > i &&
      (kind.Array? ==> Balanced(job.t, n, b))
    decreases MAX_NESTING + 1 - job.depth, 2
  {
    hide Continue, ValueOk, KeyOk, PrintKey, PrintValue, Occurs, Follows, Balanced, AllWhitespace, Entered, ChildAt;
    var t := job.t;
    var key, keyed := KeySound(job, p, kind, i);
    var k := i + |PrintKey(key, kind)|;
    KeyNothing(key, kind);
    var v := ValueSound(job, keyed, k, b);
    var x := PrintValue(v);
    OccursFits(t, k, x);
    q := ValueRest(job, keyed, k, v);
    var n, w := SkipTo(job, q, k + |x|);
    m := Member(key, v, w);
    OccursConcat(t, k, x, w);
    OccursConcat(t, i, PrintKey(key, kind), x + w);
    if kind.Array? {
      BalancedNext(t, k, b, v);
      BalancedSpace(t, k + |x|, b, w);
    }
  }

  lemma KeyNothing(key: Key, kind: Kind)
    requires KeyOk(key, kind)
    ensures kind.Array? ==> PrintKey(key, kind) == []
  {
  }

  lemma {:induction false} MembersSound(job: Job, p: Parser, kind: Kind, i: nat, b: Brackets) returns (ms: Members)
    requires AtMember(job, p, kind) && i <= |job.t| && !IsWhitespace(At(job.t, i)) && Continue(job, p, i).Accepted?
    requires kind.Array? || p.hasEntries || At(job.t, i) != RBRACE
    requires kind.Array? ==> Balanced(job.t, i, b)
    ensures MembersOk(ms, kind) && Occurs(job.t, i, PrintMembers(ms, kind))
    ensures EndsMembers(job.t, i + |PrintMembers(ms, kind)|, kind)
    decreases MAX_NESTING + 1 - job.depth, 3, |job.t| - i
  {
    hide Continue, MemberOk, PrintMember, Occurs, Balanced, AllWhitespace, InList, IsWhitespace;
    var t := job.t;
    var m, q := MemberSound(job, p, kind, i, b);
    var n := i + |PrintMember(m, kind)|;
    ms := Last(m);
    if At(t, n) == COMMA {
      var after := q.(phase := if kind.Object? then FindKeyBegin else FindValueBegin);
      ListDepth(job);
      GoRest(job, q, n, after);
      CommaNoted(after, n);
      var noted := after.(lastSolid := n);
      var k, gap := SkipTo(job, noted, n + 1);
      if kind.Array? {
        BalancedComma(t, n, b);
        BalancedSpace(t, n + 1, Separated(b, 1), gap);
      }
      var rest := MembersSound(job, noted, kind, k, Separated(b, 1));
      ms := More(m, gap, rest);
      MoreOccurs(t, i, PrintMember(m, kind), gap, PrintMembers(rest, kind));
    } else {
      EndSound(job, q, n, kind);
    }
  }

  lemma ListDepth(job: Job)
    requires InList(job)
    ensures job.depth <= MAX_NESTING
  {
  }

  lemma CommaNoted(p: Parser, i: nat)
    ensures Noted(p, COMMA, i) == p.(lastSolid := i)
  {
  }

  lemma EndSound(job: Job, q: Parser, n: nat, kind: Kind)
    requires InList(job) && job.mode == ListMode(kind) && n <= |job.t| && q.phase == FindParamSeparator
    requires !IsWhitespace(At(job.t, n)) && At(job.t, n) != COMMA && Continue(job, q, n).Accepted?
    ensures EndsMembers(job.t, n, kind)
  {
    if n < |job.t| {
      assert Step(q, job.t, n, job.mode) == StepParamSeparator(q, job.t[n], job.mode);
    }
  }

  /** The contents of an array. */
  lemma ElementsSound(t: Text, depth: nat) returns (ws: Text, ms: Members)
    requires ParseText(t, ArrayMode, depth).Accepted? && Balanced(t, 0, Brackets(1, 0, 0))
    ensures AllWhitespace(ws) && MembersOk(ms, Array) && t == ws + PrintMembers(ms, Array)
    decreases MAX_NESTING + 1 - depth, 4
  {
    hide Continue, MembersOk, PrintMembers, Occurs, Balanced, AllWhitespace, ParseText;
    if depth > MAX_NESTING {
      DepthRefused(t, ArrayMode, depth);
    }
    ArrayBegins(t, depth);
    var job, p, b := Job(t, ArrayMode, false, depth), Begin(ArrayMode, 0), Brackets(1, 0, 0);
    var k;
    k, ws := SkipTo(job, p, 0);
    BalancedSpace(t, 0, b, ws);
    ms := MembersSound(job, p, Array, k, b);
    OccursConcat(t, 0, ws, PrintMembers(ms, Array));
    OccursWhole(t, ws + PrintMembers(ms, Array));
  }

  /** An object with white space around it. */
  lemma ObjectSound(t: Text, depth: nat) returns (before: Text, v: Value, after: Text)
    requires ParseText(t, AutoMode, depth).Accepted? && At(t, SkipWs(t, 0)) == LBRACE
    ensures AllWhitespace(before) && AllWhitespace(after) && ValueOk(v) && IsObject(v)
    ensures t == before + (PrintValue(v) + after)
    decreases MAX_NESTING + 1 - depth, 4
  {
    hide Continue, MembersOk, PrintMembers, Occurs, AllWhitespace, ParseText, SkipWs, IsWhitespace;
    if depth > MAX_NESTING {
      DepthRefused(t, AutoMode, depth);
    }
    var i := SkipWs(t, 0);
    before := t[..i];
    SpaceBefore(t);
    var p, job := ObjectBegins(t, before, depth);
    var k, ws := SkipTo(job, p, i + 1);
    var n := k;
    if At(t, k) == RBRACE {
      v := Empty(Object, ws);
      OccursNothing(t, k);
    } else {
      var ms := MembersSound(job, p, Object, k, Brackets(0, 0, 0));
      v := Filled(Object, ws, ms);
      OccursFits(t, k, PrintMembers(ms, Object));
      n := k + |PrintMembers(ms, Object)|;
    }
    after := t[n + 1..];
    ObjectOccurs(t, i, v);
    ObjectText(t, before, v, depth);
    WholeText(t, before, PrintValue(v));
  }

  /** The parts of an object make the object. */
  lemma ObjectOccurs(t: Text, i: nat, v: Value)
    requires ValueOk(v) && IsObject(v) && At(t, i) == LBRACE && Occurs(t, i + 1, v.ws)
    requires Occurs(t, i + 1 + |v.ws|, MembersText(v))
    requires At(t, i + 1 + |v.ws| + |MembersText(v)|) == RBRACE
    ensures Occurs(t, i, PrintValue(v)) && |PrintValue(v)| == 2 + |v.ws| + |MembersText(v)|
  {
    hide Occurs, PrintValue, ValueOk, MembersText;
    var x := MembersText(v);
    ContainerText(v);
    OccursByte(t, i, LBRACE);
    OccursByte(t, i + 1 + |v.ws| + |x|, RBRACE);
    OccursConcat(t, i + 1 + |v.ws|, x, [RBRACE]);
    OccursConcat(t, i + 1, v.ws, x + [RBRACE]);
    OccursConcat(t, i, [LBRACE], v.ws + (x + [RBRACE]));
  }

  lemma SpaceBefore(t: Text)
    ensures SkipWs(t, 0) <= |t|
    ensures var w := t[..SkipWs(t, 0)]; AllWhitespace(w) && Occurs(t, 0, w)
  {
    SkippedIsWs(t, 0);
    assert t[0..SkipWs(t, 0)] == t[..SkipWs(t, 0)];
  }

  lemma WholeText(t: Text, before: Text, x: Text)
    requires Occurs(t, 0, before) && Occurs(t, |before|, x)
    ensures t == before + (x + t[|before| + |x|..])
  {
    var n := |before| + |x|;
    assert t == t[0..|before|] + (t[|before|..n] + t[n..]);
  }
}
