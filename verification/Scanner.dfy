/** The recursive-descent scanner of kason.c with its ENTER / CAPTURE / SKIP /
    BREAK protocol. */
module Scanner {
  import opened Bytes
  import opened JsonString
  import opened Number
  import opened Grammar
  import opened StringScan
  import opened Events

  datatype Result = Success | Error

  function StatusOf(stopped: bool, ok: bool): Status {
    if stopped then Stopped else if ok then Going else Refused
  }

  /** The trace of the value the reader finds at `i`. */
  ghost function TraceAt(s: Text, policy: Policy, i: nat, depth: nat, key: Owner, emit: bool, before: seq<Event>): Trace
    requires i <= |s|
  {
    var r := ReadValue(s, i, depth);
    if r.Read? && ValueOk(r.value) then ValueTrace(r.value, i, key, emit, policy, before) else Trace(before, Going)
  }

  ghost function MembersTraceAt(s: Text, policy: Policy, i: nat, depth: nat, kind: Kind, emit: bool, before: seq<Event>): Trace
    requires i <= |s|
  {
    var r := ReadMembers(s, i, depth, kind);
    if r.Read? && MembersOk(r.value, kind) then MembersTrace(r.value, kind, i, emit, policy, before)
    else Trace(before, Going)
  }

  ghost function MemberTraceAt(s: Text, policy: Policy, i: nat, depth: nat, kind: Kind, emit: bool, before: seq<Event>): Trace
    requires i <= |s|
  {
    var r := ReadMember(s, i, depth, kind);
    if r.Read? && MemberOk(r.value, kind) then MemberTrace(r.value, kind, i, emit, policy, before)
    else Trace(before, Going)
  }

  /** A member is its name followed by its value. */
  lemma MemberUnfold(s: Text, policy: Policy, i: nat, depth: nat, kind: Kind, emit: bool, before: seq<Event>)
    requires i <= |s| && ReadKey(s, i, kind).Read?
    requires ReadValue(s, ReadKey(s, i, kind).next, depth + 1).Read?
    ensures
      var key := ReadKey(s, i, kind);
      var m := ReadMember(s, i, depth, kind);
      m.Read? && m.next == SkipWs(s, ReadValue(s, key.next, depth + 1).next) && MemberOk(m.value, kind) &&
      MemberTraceAt(s, policy, i, depth, kind, emit, before) ==
        TraceAt(s, policy, key.next, depth + 1, KeyOwnerOf(key.value, i), emit, before)
  {
    hide ReadKey, PrintKey, KeyOk, ReadValue, PrintValue, ValueOk, ValueTrace, AllWhitespace, SkipWs, Occurs, KeyOwnerAt, KeyOwnerOf, PrintMember;
    var key := ReadKey(s, i, kind);
    ReadKeySound(s, i, kind);
    ReadValueSound(s, key.next, depth + 1);
    ReadMemberSound(s, i, depth, kind);
    KeyOwnerDefined(key.value, kind, i);
  }

  lemma LastUnfold(s: Text, policy: Policy, i: nat, depth: nat, kind: Kind, emit: bool, before: seq<Event>)
    requires i <= |s| && ReadMember(s, i, depth, kind).Read?
    requires At(s, ReadMember(s, i, depth, kind).next) == CloseOf(kind)
    ensures
      var all := ReadMembers(s, i, depth, kind);
      all.Read? && all.next == ReadMember(s, i, depth, kind).next && Count(all.value) == 1 &&
      MembersTraceAt(s, policy, i, depth, kind, emit, before) == MemberTraceAt(s, policy, i, depth, kind, emit, before)
  {
    hide ReadMember, MemberOk, MemberTrace, PrintMember, Occurs;
    ReadMemberSound(s, i, depth, kind);
  }

  /** A member, a comma and the other members. */
  lemma MoreTrace(m: Member, gap: Text, rest: Members, kind: Kind, i: nat, emit: bool, policy: Policy, before: seq<Event>)
    requires MemberOk(m, kind) && AllWhitespace(gap) && MembersOk(rest, kind)
    ensures var ms := More(m, gap, rest);
      MembersOk(ms, kind) && Count(ms) == 1 + Count(rest) &&
      var first := MemberTrace(m, kind, i, emit, policy, before);
      MembersTrace(ms, kind, i, emit, policy, before) ==
        if first.status != Going then first
        else MembersTrace(rest, kind, i + |PrintMember(m, kind)| + 1 + |gap|, emit, policy, first.log)
  {
    hide MemberOk, MemberTrace, PrintMember, AllWhitespace;
  }

  lemma MoreUnfold(s: Text, policy: Policy, i: nat, depth: nat, kind: Kind, emit: bool, before: seq<Event>)
    requires i <= |s| && ReadMember(s, i, depth, kind).Read?
    requires At(s, ReadMember(s, i, depth, kind).next) == COMMA
    ensures
      var all := ReadMembers(s, i, depth, kind);
      var q := SkipWs(s, ReadMember(s, i, depth, kind).next + 1);
      var rest := ReadMembers(s, q, depth, kind);
      var first := MemberTraceAt(s, policy, i, depth, kind, emit, before);
      (all.Read? <==> rest.Read?) &&
      (all.Read? ==>
        all.next == rest.next && Count(all.value) == 1 + Count(rest.value) &&
        MembersTraceAt(s, policy, i, depth, kind, emit, before) ==
          if first.status == Going then MembersTraceAt(s, policy, q, depth, kind, emit, first.log) else first)
  {
    hide ReadMember, MemberOk, MemberTrace, MembersOk, MembersTrace, Count, PrintMember, PrintMembers, MembersHeight, Occurs, AllWhitespace, SkipWs,
      IsWhitespace, Height, ReadMembers;
    ReadMemberSound(s, i, depth, kind);
    var m := ReadMember(s, i, depth, kind);
    ReadMembersOf(s, i, depth, kind, m.value, m.next);
    var q := SkipWs(s, m.next + 1);
    SkippedIsWs(s, m.next + 1);
    var rest := ReadMembers(s, q, depth, kind);
    if rest.Read? {
      ReadMembersSound(s, q, depth, kind);
      MoreTrace(m.value, s[m.next + 1..q], rest.value, kind, i, emit, policy, before);
    }
  }

  /** The two cases in which members are readable. */
  lemma MembersUnfold(s: Text, policy: Policy, i: nat, depth: nat, kind: Kind, before: seq<Event>)
    requires i <= |s|
    ensures
      var m := ReadMember(s, i, depth, kind);
      var all := ReadMembers(s, i, depth, kind);
      var first := MemberTraceAt(s, policy, i, depth, kind, true, before);
      var trace := MembersTraceAt(s, policy, i, depth, kind, true, before);
      if m.Read? && At(s, m.next) == CloseOf(kind) then
        all.Read? && all.next == m.next && Count(all.value) == 1 && trace == first
      else if m.Read? && At(s, m.next) == COMMA then
        var q := SkipWs(s, m.next + 1);
        var rest := ReadMembers(s, q, depth, kind);
        (all.Read? <==> rest.Read?) &&
        (all.Read? ==>
          all.next == rest.next && Count(all.value) == 1 + Count(rest.value) &&
          trace == if first.status == Going then MembersTraceAt(s, policy, q, depth, kind, true, first.log) else first)
      else all.NoRead?
  {
    hide ReadMember, MemberTraceAt, MembersTraceAt, SkipWs;
    var m := ReadMember(s, i, depth, kind);
    if m.Read? && At(s, m.next) == CloseOf(kind) {
      LastUnfold(s, policy, i, depth, kind, true, before);
    } else if m.Read? && At(s, m.next) == COMMA {
      MoreUnfold(s, policy, i, depth, kind, true, before);
    }
  }

  lemma SilentMember(s: Text, policy: Policy, i: nat, depth: nat, kind: Kind, before: seq<Event>)
    requires i <= |s|
    ensures MemberTraceAt(s, policy, i, depth, kind, false, before) == Trace(before, Going)
  {
    hide ReadMember, PrintKey, PrintValue, KeyOwnerAt, MemberOk, ValueTrace;
    var r := ReadMember(s, i, depth, kind);
    if r.Read? && MemberOk(r.value, kind) {
      MemberParts(r.value, kind);
      SilentValue(r.value.value, i + |PrintKey(r.value.key, kind)|, KeyOwnerAt(r.value.key, i), policy, before);
    }
  }

  lemma MemberParts(m: Member, kind: Kind)
    requires MemberOk(m, kind)
    ensures KeyOk(m.key, kind) && ValueOk(m.value) && (m.key.Key? ==> CharsOk(m.key.chars))
  {
  }

  lemma SilentValue(v: Value, p: nat, key: Owner, policy: Policy, log: seq<Event>)
    requires ValueOk(v)
    ensures ValueTrace(v, p, key, false, policy, log) == Trace(log, Going)
  {
  }

  /** The loop invariant of kason_scan_container: the members from `k` on, begun
      with the log `begun`, are the `count` members before `i` and those from `i` on. */
  ghost predicate Joined(s: Text, policy: Policy, k: nat, depth: nat, kind: Kind, enter: bool, begun: seq<Event>,
                         i: nat, log: seq<Event>, count: nat)
  {
    k <= i <= |s| && (!enter ==> log == begun) &&
    var all, rest := ReadMembers(s, k, depth, kind), ReadMembers(s, i, depth, kind);
    (all.Read? <==> rest.Read?) &&
    (all.Read? ==>
      all.next == rest.next && Count(all.value) == count + Count(rest.value) &&
      (enter ==>
        MembersTraceAt(s, policy, k, depth, kind, true, begun) == MembersTraceAt(s, policy, i, depth, kind, true, log)))
  }

  /** After the member at `i` has been traced completely. */
  lemma JoinedStep(s: Text, policy: Policy, k: nat, depth: nat, kind: Kind, enter: bool, begun: seq<Event>,
                   i: nat, log: seq<Event>, count: nat, log': seq<Event>)
    requires Joined(s, policy, k, depth, kind, enter, begun, i, log, count)
    requires ReadMember(s, i, depth, kind).Read?
    requires MemberTraceAt(s, policy, i, depth, kind, enter, log) == Trace(log', Going)
    ensures
      var all := ReadMembers(s, k, depth, kind);
      var p := ReadMember(s, i, depth, kind).next;
      if At(s, p) == CloseOf(kind) then
        all.Read? && all.next == p && Count(all.value) == count + 1 &&
        (enter ==> MembersTraceAt(s, policy, k, depth, kind, true, begun) == Trace(log', Going)) &&
        (!enter ==> log' == begun)
      else if At(s, p) == COMMA then
        Joined(s, policy, k, depth, kind, enter, begun, SkipWs(s, p + 1), log', count + 1)
      else all.NoRead?
  {
    hide ReadMember, ReadMembers, MemberTraceAt, MembersTraceAt, SkipWs;
    MembersUnfold(s, policy, i, depth, kind, log);
    SilentMember(s, policy, i, depth, kind, log);
  }

  lemma JoinedStart(s: Text, policy: Policy, k: nat, depth: nat, kind: Kind, enter: bool, begun: seq<Event>)
    requires k <= |s|
    ensures Joined(s, policy, k, depth, kind, enter, begun, k, begun, 0)
    ensures k == |s| ==> ReadMembers(s, k, depth, kind).NoRead?
  {
    hide ReadMembers, MembersTraceAt;
    if k == |s| {
      NothingAtClose(s, k, depth, kind);
    }
  }

  lemma JoinedNothing(s: Text, policy: Policy, k: nat, depth: nat, kind: Kind, enter: bool, begun: seq<Event>,
                      i: nat, log: seq<Event>, count: nat)
    requires Joined(s, policy, k, depth, kind, enter, begun, i, log, count)
    requires At(s, i) == CloseOf(kind) || i == |s|
    ensures ReadMembers(s, k, depth, kind).NoRead?
  {
    hide ReadMembers, MembersTraceAt;
    NothingAtClose(s, i, depth, kind);
  }

  /** When the member at `i` cannot be read, or its trace ends the scan. */
  lemma JoinedEnd(s: Text, policy: Policy, k: nat, depth: nat, kind: Kind, enter: bool, begun: seq<Event>,
                  i: nat, log: seq<Event>, count: nat)
    requires Joined(s, policy, k, depth, kind, enter, begun, i, log, count)
    requires ReadMember(s, i, depth, kind).Read? ==>
      MemberTraceAt(s, policy, i, depth, kind, enter, log).status != Going
    ensures ReadMembers(s, k, depth, kind).Read? ==>
      enter && ReadMember(s, i, depth, kind).Read? &&
      MembersTraceAt(s, policy, k, depth, kind, true, begun) == MemberTraceAt(s, policy, i, depth, kind, true, log)
  {
    hide ReadMember, ReadMembers, MemberTraceAt, MembersTraceAt, SkipWs;
    MembersUnfold(s, policy, i, depth, kind, log);
    SilentMember(s, policy, i, depth, kind, log);
  }

  lemma DepthLimit(s: Text, i: nat, depth: nat)
    ensures i <= |s| && depth > MAX_NESTING ==> ReadValue(s, i, depth).NoRead?
  {
  }

  lemma NothingAtClose(s: Text, i: nat, depth: nat, kind: Kind)
    requires i <= |s| && (At(s, i) == CloseOf(kind) || i == |s|)
    ensures ReadMembers(s, i, depth, kind).NoRead?
  {
    hide ReadMembers, ReadValue, ReadKey;
    NoValueAtClose(s, i, depth + 1);
    KeyAtClose(s, i, kind);
    if kind.Array? {
      NoValueNoMember(s, i, depth, kind);
    }
    assert ReadMember(s, i, depth, kind).NoRead?;
    NoMemberNoMembers(s, i, depth, kind);
  }

  lemma NoValueAtClose(s: Text, i: nat, depth: int)
    requires i <= |s| && (At(s, i) == RBRACE || At(s, i) == RBRACKET || i == |s|)
    ensures ReadValue(s, i, depth).NoRead?
  {
    hide ReadNumber, ReadBody;
    assert ReadPrimitive(s, i).NoRead?;
  }

  lemma KeyAtClose(s: Text, i: nat, kind: Kind)
    requires i <= |s| && (At(s, i) == CloseOf(kind) || i == |s|)
    ensures ReadKey(s, i, kind) == if kind.Array? then Read(NoKey, i) else NoRead
  {
  }

  lemma NoValueNoMember(s: Text, i: nat, depth: nat, kind: Kind)
    requires i <= |s| && ReadKey(s, i, kind) == Read(NoKey, i) && ReadValue(s, i, depth + 1).NoRead?
    ensures ReadMember(s, i, depth, kind).NoRead?
  {
    hide ReadValue, ReadKey;
  }

  lemma NoMemberNoMembers(s: Text, i: nat, depth: nat, kind: Kind)
    requires i <= |s| && ReadMember(s, i, depth, kind).NoRead?
    ensures ReadMembers(s, i, depth, kind).NoRead?
  {
    hide ReadMember;
  }

  /** How a container is read and traced, in terms of its members. */
  lemma ContainerUnfold(s: Text, policy: Policy, i: nat, depth: nat, kind: Kind, key: Owner, before: seq<Event>)
    requires i < |s| && s[i] == OpenOf(kind) && depth <= MAX_NESTING
    ensures
      var k := SkipWs(s, i + 1);
      var r := ReadValue(s, i, depth);
      var begun := before + [BeginOf(kind, i, key)];
      if At(s, k) == CloseOf(kind) then
        r.Read? && r.next == k + 1 &&
        TraceAt(s, policy, i, depth, key, false, before) == Trace(before, Going) &&
        TraceAt(s, policy, i, depth, key, true, before) ==
          ContainerTrace(kind, Span(i, k), key, 0, policy, begun, Trace(begun, Going))
      else
        var all := ReadMembers(s, k, depth, kind);
        (r.Read? <==> all.Read?) &&
        (all.Read? ==>
          r.next == all.next + 1 &&
          TraceAt(s, policy, i, depth, key, false, before) == Trace(before, Going) &&
          TraceAt(s, policy, i, depth, key, true, before) ==
            ContainerTrace(kind, Span(i, all.next), key, Count(all.value), policy, begun,
              MembersTraceAt(s, policy, k, depth, kind, true, begun)))
  {
    hide ReadMembers, PrintMembers, MembersOk, MembersTrace, ContainerTrace, Occurs, AllWhitespace, SkipWs, ReadPrimitive;
    var k := SkipWs(s, i + 1);
    assert ReadValue(s, i, depth) == ReadContainer(s, i, depth, kind);
    if ReadValue(s, i, depth).Read? {
      ReadValueSound(s, i, depth);
      if At(s, k) != CloseOf(kind) {
        ReadMembersSound(s, k, depth, kind);
      }
    }
  }

  /** When the trace of a container does not reach its end event. */
  lemma ContainerEarly(kind: Kind, key: Owner, policy: Policy, begun: seq<Event>)
    ensures forall brackets, members, inner :: 
      var t := ContainerTrace(kind, brackets, key, members, policy, begun, inner);
      (policy(begun) == BREAK ==> t == Trace(begun, Stopped)) &&
      (policy(begun) != BREAK && policy(begun) != SKIP && policy(begun) != CAPTURE && policy(begun) != ENTER ==>
        t == Trace(begun, Refused)) &&
      (policy(begun) == ENTER && inner.status != Going ==> t == inner)
  {
  }

  function KeyOwnerOf(key: Key, p: nat): Owner {
    if key.Key? && CharsOk(key.chars) then KeyOwnerAt(key, p) else NoKeyOwner
  }

  lemma KeyOwnerDefined(key: Key, kind: Kind, p: nat)
    requires KeyOk(key, kind)
    ensures (key.Key? ==> CharsOk(key.chars)) && KeyOwnerOf(key, p) == KeyOwnerAt(key, p)
  {
  }

  /** kason_scan_context: `log` is everything the callback was shown. */
  class Scan {
    const s: Text
    const policy: Policy
    var log: seq<Event>
    var stopped: bool

    constructor (s: Text, policy: Policy)
      ensures this.s == s && this.policy == policy
      ensures log == [] && !stopped
    {
      this.s := s;
      this.policy := policy;
      log := [];
      stopped := false;
    }

    /** kason_scan_emit. */
    method Emit(e: Event) returns (action: int)
      requires !stopped
      modifies this
      ensures log == old(log) + [e] && action == policy(log)
      ensures stopped <==> action == BREAK
    {
      log := log + [e];
      action := policy(log);
      if action == BREAK {
        stopped := true;
      }
    }

    /** kason_scan_whitespace. */
    method ScanWhitespace(cursor: nat) returns (next: nat)
      ensures next == SkipWs(s, cursor)
    {
      next := cursor;
      while next < |s| && IsWhitespace(s[next])
        invariant cursor <= next
        invariant SkipWs(s, next) == SkipWs(s, cursor)
        decreases |s| - next
      {
        next := next + 1;
      }
    }

    /** kason_scan_literal. */
    method ScanLiteral(cursor: nat, literal: Text) returns (ok: bool)
      requires cursor < |s| && literal != [] && s[cursor] == literal[0]
      ensures ok <==> Occurs(s, cursor, literal)
    {
      if |s| - cursor < |literal| {
        return false;
      }
      for k := 1 to |literal|
        invariant s[cursor..cursor + k] == literal[..k]
      {
        if s[cursor + k] != literal[k] {
          assert s[cursor..cursor + |literal|][k] != literal[k];
          return false;
        }
        assert s[cursor..cursor + k + 1] == s[cursor..cursor + k] + [s[cursor + k]];
      }
      assert literal[..|literal|] == literal;
      return true;
    }

    /** The primitive at `cursor` (the part of kason_scan_primitive before the event).
        Where no primitive starts the source collects a token and compares it with
        the three literals, which can no longer succeed. */
    method ScanToken(cursor: nat) returns (ok: bool, valueType: Type, span: Span, next: nat)
      requires cursor < |s|
      ensures ok <==> ReadPrimitive(s, cursor).Read?
      ensures ok ==>
        var r := ReadPrimitive(s, cursor);
        next == r.next && ValueOk(r.value) && valueType == TypeOf(r.value) && span == PrimitiveSpan(r.value, cursor)
    {
      hide ReadNumber, PrintNumber, NumberOk, ReadBody;
      valueType, span, next := NullType, Span(cursor, cursor), cursor;
      if ReadPrimitive(s, cursor).Read? {
        ReadPrimitiveSound(s, cursor);
      }
      var c := s[cursor];
      if c == QUOTE {
        var close;
        ok, close := ScanString(s, cursor);
        valueType, span, next := StringType, Span(cursor + 1, close), close + 1;
        if ok {
          assert ReadPrimitive(s, cursor).value.Str?;
        }
      } else if c == MINUS || IsDigit(c) {
        ok, next := ScanNumber(s, cursor);
        valueType, span := NumberType, Span(cursor, next);
        if ok {
          assert ReadPrimitive(s, cursor).value.Num?;
        }
      } else if c == TRUE[0] {
        ok := ScanLiteral(cursor, TRUE);
        valueType, span, next := TrueType, Span(cursor, cursor + 4), cursor + 4;
      } else if c == FALSE[0] {
        ok := ScanLiteral(cursor, FALSE);
        valueType, span, next := FalseType, Span(cursor, cursor + 5), cursor + 5;
      } else if c == NULL[0] {
        ok := ScanLiteral(cursor, NULL);
        valueType, span, next := NullType, Span(cursor, cursor + 4), cursor + 4;
      } else {
        next := TokenEnd(cursor);
        var token := s[cursor..next];
        ok := token == NULL || token == TRUE || token == FALSE;
        assert next > cursor ==> token[0] == s[cursor];
      }
    }

    /** The end of a run without white space, commas and closing brackets. */
    method TokenEnd(begin: nat) returns (end: nat)
      requires begin <= |s|
      ensures begin <= end <= |s|
    {
      end := begin;
      while end < |s| && !IsWhitespace(s[end]) && s[end] != COMMA && s[end] != RBRACE && s[end] != RBRACKET
        invariant begin <= end <= |s|
      {
        end := end + 1;
      }
    }

    /** What scanning the value at `i` does, given what the reader finds there and
        the log before: for a readable value the trace decides everything, and an
        unreadable one is an error unless the callback stopped the scan first. */
    ghost predicate Scanned<T>(r: Read<T>, t: Trace, ok: bool, next: nat)
      reads this
    {
      if r.Read? then
        log == t.log && stopped == t.status.Stopped? && ok == !t.status.Refused? &&
        (t.status.Going? ==> next == r.next)
      else stopped || !ok
    }

    /** kason_scan_primitive. */
    method ScanPrimitive(cursor: nat, key: Owner, emit: bool) returns (ok: bool, next: nat)
      requires !stopped && cursor <= |s|
      requires At(s, cursor) != LBRACE && At(s, cursor) != LBRACKET
      modifies this
      ensures stopped ==> ok && log != [] && policy(log) == BREAK
      ensures !emit ==> log == old(log) && !stopped
      ensures forall depth: nat | depth <= MAX_NESTING ::
        Scanned(ReadValue(s, cursor, depth), TraceAt(s, policy, cursor, depth, key, emit, old(log)), ok, next)
    {
      next := cursor;
      if cursor >= |s| {
        return false, cursor;
      }
      if ReadPrimitive(s, cursor).Read? {
        ReadPrimitiveSound(s, cursor);
        PrimitiveIsNoContainer(s, cursor);
      }
      hide ReadPrimitive, PrimitiveSpan, TypeOf;
      var valueType, span;
      ok, valueType, span, next := ScanToken(cursor);
      if ok && emit {
        var action := Emit(Event(ValueEvent, valueType, key, span, 1));
        ok := action == ENTER || action == BREAK;
      }
    }

    /** The name of an object member up to its value; nothing for array elements. */
    method ScanKey(cursor: nat, kind: Kind) returns (ok: bool, key: Owner, next: nat)
      requires cursor < |s|
      ensures ok <==> ReadKey(s, cursor, kind).Read?
      ensures ok ==>
        next == ReadKey(s, cursor, kind).next && key == KeyOwnerOf(ReadKey(s, cursor, kind).value, cursor)
    {
      hide ReadBody, Quoted, CharsOk, PrintChars, Occurs;
      key, next := NoKeyOwner, cursor;
      if kind.Array? {
        return true, key, cursor;
      }
      if s[cursor] != QUOTE {
        return false, key, cursor;
      }
      var close;
      ok, close := ScanString(s, cursor);
      if !ok {
        return;
      }
      ReadBodySound(s, cursor + 1);
      key := KeyOwner(Span(cursor + 1, close));
      next := ScanWhitespace(close + 1);
      if next >= |s| || s[next] != COLON {
        return false, key, next;
      }
      next := ScanWhitespace(next + 1);
    }

    /** Reports the end of a container, unless it is silent or was skipped. The
        log so far is `begun` and, if the container was entered, its members' events. */
    method EmitEnd(kind: Kind, opening: nat, closing: nat, key: Owner, emit: bool, action: int, members: nat,
                   ghost begun: seq<Event>, ghost inner: Trace)
      returns (ok: bool)
      requires !stopped && (emit ==> action == policy(begun))
      requires action == ENTER || action == CAPTURE || action == SKIP
      requires emit ==> if action == ENTER then inner == Trace(log, Going) else log == begun
      modifies this
      ensures !emit ==> ok && log == old(log) && !stopped
      ensures emit ==>
        ContainerTrace(kind, Span(opening, closing), key, members, policy, begun, inner) ==
          Trace(log, StatusOf(stopped, ok))
      ensures stopped ==> ok && log != [] && policy(log) == BREAK
    {
      ok := true;
      if emit && action != SKIP {
        var lo := if action == CAPTURE then opening else closing;
        var answer := Emit(EndOf(kind, lo, closing, key, members));
        ok := answer == ENTER || answer == BREAK;
      }
    }

    /** One round of the loop of kason_scan_container: a member, the white space
        behind it included. */
    method ScanMember(cursor: nat, kind: Kind, enter: bool, depth: nat) returns (ok: bool, next: nat)
      requires !stopped && cursor < |s| && depth <= MAX_NESTING
      modifies this
      ensures stopped ==> ok && log != [] && policy(log) == BREAK
      ensures !enter ==> log == old(log) && !stopped
      ensures Scanned(ReadMember(s, cursor, depth, kind), MemberTraceAt(s, policy, cursor, depth, kind, enter, old(log)), ok, next)
      decreases |s| - cursor, 2
    {
      hide ReadValue, ReadKey, SkipWs, KeyOwnerOf, TraceAt, MemberTraceAt;
      if ReadMember(s, cursor, depth, kind).Read? {
        MemberUnfold(s, policy, cursor, depth, kind, enter, log);
      }
      var key;
      ok, key, next := ScanKey(cursor, kind);
      if !ok || depth + 1 > MAX_NESTING {
        DepthLimit(s, next, depth + 1);
        return false, next;
      }
      if At(s, next) == LBRACE || At(s, next) == LBRACKET {
        ok, next := ScanValue(next, key, enter, depth + 1);
      } else {
        ok, next := ScanPrimitive(next, key, enter);
      }
      if ok && !stopped {
        next := ScanWhitespace(next);
      }
    }

    /** The loop of kason_scan_container, from the first member at `k`. */
    method ScanMembers(opening: nat, k: nat, key: Owner, emit: bool, action: int, depth: nat, kind: Kind) returns (ok: bool, next: nat)
      requires !stopped && k <= |s| && depth <= MAX_NESTING && (emit ==> action == policy(log))
      requires action == ENTER || action == CAPTURE || action == SKIP
      modifies this
      ensures stopped ==> ok && log != [] && policy(log) == BREAK
      ensures !emit ==> log == old(log) && !stopped
      ensures
        var all := ReadMembers(s, k, depth, kind);
        if all.Read? then
          (ok && !stopped ==> next == all.next + 1) &&
          (!emit ==> ok) &&
          (emit ==>
            Trace(log, StatusOf(stopped, ok)) ==
              ContainerTrace(kind, Span(opening, all.next), key, Count(all.value), policy, old(log),
                MembersTraceAt(s, policy, k, depth, kind, true, old(log))))
        else stopped || !ok
      decreases |s| - k, 3
    {
      hide ReadMember, ReadMembers, SkipWs, MemberTraceAt, MembersTraceAt, Joined, ContainerTrace;
      next := k;
      var enter := emit && action == ENTER;
      ghost var begun := log;
      var count := 0;
      JoinedStart(s, policy, k, depth, kind, enter, begun);
      while next < |s|
        invariant k <= next <= |s| && !stopped && (!enter ==> log == begun)
        invariant Joined(s, policy, k, depth, kind, enter, begun, next, log, count)
        invariant next == |s| ==> ReadMembers(s, k, depth, kind).NoRead?
        decreases |s| - next
      {
        ghost var at, before := next, log;
        var childOk;
        childOk, next := ScanMember(next, kind, enter, depth);
        if !childOk || stopped {
          JoinedEnd(s, policy, k, depth, kind, enter, begun, at, before, count);
          ContainerEarly(kind, key, policy, begun);
          return childOk, next;
        }
        JoinedStep(s, policy, k, depth, kind, enter, begun, at, before, count, log);
        count := count + 1;
        if next >= |s| {
          return false, next;
        }
        if s[next] == CloseOf(kind) {
          var closing := next;
          next := next + 1;
          ok := EmitEnd(kind, opening, closing, key, emit, action, count, begun,
            MembersTraceAt(s, policy, k, depth, kind, true, begun));
          return;
        }
        if s[next] != COMMA {
          return false, next;
        }
        next := ScanWhitespace(next + 1);
        if next >= |s| || s[next] == CloseOf(kind) {
          JoinedNothing(s, policy, k, depth, kind, enter, begun, next, log, count);
          return false, next;
        }
      }
      return false, next;
    }

    /** kason_scan_container. */
    method ScanContainer(cursor: nat, key: Owner, emit: bool, depth: nat, kind: Kind) returns (ok: bool, next: nat)
      requires !stopped && cursor < |s| && s[cursor] == OpenOf(kind) && depth <= MAX_NESTING
      modifies this
      ensures stopped ==> ok && log != [] && policy(log) == BREAK
      ensures !emit ==> log == old(log) && !stopped
      ensures Scanned(ReadValue(s, cursor, depth), TraceAt(s, policy, cursor, depth, key, emit, old(log)), ok, next)
      decreases |s| - cursor, 0
    {
      hide ReadValue, ReadMembers, SkipWs, TraceAt, MembersTraceAt, ContainerTrace;
      ContainerUnfold(s, policy, cursor, depth, kind, key, log);
      ContainerEarly(kind, key, policy, log + [BeginOf(kind, cursor, key)]);
      var action := SKIP;
      if emit {
        action := Emit(BeginOf(kind, cursor, key));
      }
      if stopped {
        return true, cursor;
      }
      if action != ENTER && action != CAPTURE && action != SKIP {
        return false, cursor;
      }
      next := ScanWhitespace(cursor + 1);
      if next < |s| && s[next] == CloseOf(kind) {
        var closing := next;
        next := next + 1;
        ok := EmitEnd(kind, cursor, closing, key, emit, action, 0, log, Trace(log, Going));
      } else {
        ok, next := ScanMembers(cursor, next, key, emit, action, depth, kind);
      }
    }

    /** kason_scan_value. */
    method ScanValue(cursor: nat, key: Owner, emit: bool, depth: nat) returns (ok: bool, next: nat)
      requires !stopped && cursor <= |s|
      modifies this
      ensures stopped ==> ok && log != [] && policy(log) == BREAK
      ensures !emit ==> log == old(log) && !stopped
      ensures var i := SkipWs(s, cursor);
        Scanned(ReadValue(s, i, depth), TraceAt(s, policy, i, depth, key, emit, old(log)), ok, next)
      decreases |s| - cursor, 1
    {
      if depth > MAX_NESTING {
        return false, cursor;
      }
      next := ScanWhitespace(cursor);
      if next >= |s| {
        return false, next;
      }
      if s[next] == LBRACE {
        ok, next := ScanContainer(next, key, emit, depth, Object);
      } else if s[next] == LBRACKET {
        ok, next := ScanContainer(next, key, emit, depth, Array);
      } else {
        ok, next := ScanPrimitive(next, key, emit);
      }
    }

    /** kason_scan_parse from a fresh context. A JSON text gives its trace; any
        other input is an error unless the callback stopped the scan before. */
    method Parse() returns (result: Result)
      requires log == [] && !stopped
      modifies this
      ensures forall d | DocumentOk(d) && Height(d.value) <= MAX_NESTING && PrintDocument(d) == s ::
        var t := DocumentTrace(d, policy);
        log == t.log && stopped == t.status.Stopped? && (result.Success? <==> !t.status.Refused?)
      ensures !IsJsonText(s) ==> (result.Success? <==> stopped)
      ensures stopped ==> log != [] && policy(log) == BREAK
    {
      hide ReadValue, SkipWs, TraceAt, ValueTrace, PrintDocument, DocumentTrace, DocumentOk;
      ReadDocumentIffJsonText(s);
      forall d | DocumentOk(d) && Height(d.value) <= MAX_NESTING && PrintDocument(d) == s
        ensures ReadDocument(s) == Read(d, |s|)
        ensures TraceAt(s, policy, SkipWs(s, 0), 0, NoKeyOwner, true, []) == DocumentTrace(d, policy)
      {
        ReadDocumentComplete(d);
        ReadDocumentTrace(s, policy);
      }
      var ok, cursor := ScanValue(0, NoKeyOwner, true, 0);
      if !ok || stopped {
        return if ok then Success else Error;
      }
      cursor := ScanWhitespace(cursor);
      return if cursor < |s| then Error else Success;
    }
  }

  lemma ReadDocumentTrace(s: Text, policy: Policy)
    requires ReadDocument(s).Read?
    ensures DocumentOk(ReadDocument(s).value)
    ensures TraceAt(s, policy, SkipWs(s, 0), 0, NoKeyOwner, true, []) == DocumentTrace(ReadDocument(s).value, policy)
  {
    hide ReadValue, ValueTrace, ValueOk, PrintValue, AllWhitespace;
    ReadDocumentSound(s);
  }

  lemma PrimitiveIsNoContainer(s: Text, i: nat)
    requires ReadPrimitive(s, i).Read?
    ensures !ReadPrimitive(s, i).value.Empty? && !ReadPrimitive(s, i).value.Filled?
  {
  }
}