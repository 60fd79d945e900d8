/** The callback's actions do not change what is accepted, and what they change
    in the log: every log is the log of a callback that enters everything, with
    the insides of skipped and captured containers cut out. */
module Actions {
  import opened Bytes
  import opened Grammar
  import opened Events
  import opened Scanner

  /** A callback that answers legally and never breaks. */
  ghost predicate Legal(policy: Policy) {
    forall log: seq<Event>, e: Event ::
      LegalAnswer(e.kind, policy(log + [e]))
  }

  predicate LegalAnswer(kind: EventKind, answer: int) {
    if kind.BeginEvent? then answer == ENTER || answer == CAPTURE || answer == SKIP else answer == ENTER
  }

  function EnterAll(): Policy {
    (log: seq<Event>) => ENTER
  }

  /** The events of `v` when every container is entered. */
  ghost function Full(v: Value, p: nat, key: Owner): (es: seq<Event>)
    requires ValueOk(v)
    decreases v, 1
  {
    if v.Empty? || v.Filled? then
      var closing := p + |PrintValue(v)| - 1;
      [BeginOf(v.kind, p, key)] +
      (if v.Filled? then FullMembers(v.members, v.kind, p + 1 + |v.ws|) else []) +
      [EndOf(v.kind, closing, closing, key, MemberCount(v))]
    else [Event(ValueEvent, TypeOf(v), key, PrimitiveSpan(v, p), 1)]
  }

  ghost function FullMember(m: Member, kind: Kind, p: nat): (es: seq<Event>)
    requires MemberOk(m, kind)
    decreases m, 2
  {
    Full(m.value, p + |PrintKey(m.key, kind)|, KeyOwnerAt(m.key, p))
  }

  ghost function FullMembers(ms: Members, kind: Kind, p: nat): (es: seq<Event>)
    requires MembersOk(ms, kind)
    decreases ms, 3
  {
    var first := FullMember(ms.member, kind, p);
    if ms.Last? then first
    else first + FullMembers(ms.rest, kind, p + |PrintMember(ms.member, kind)| + 1 + |ms.gap|)
  }

  /** Index of the end event that closes the outermost of `open` containers. */
  function CloseIndex(es: seq<Event>, open: nat): (c: nat)
    ensures c <= |es|
  {
    if es == [] then 0
    else
      match es[0].kind
      case BeginEvent => 1 + CloseIndex(es[1..], open + 1)
      case ValueEvent => 1 + CloseIndex(es[1..], open)
      case EndEvent => if open <= 1 then 0 else 1 + CloseIndex(es[1..], open - 1)
  }

  /** Cuts a full log down to what `policy` is shown after `log`. */
  ghost function Prune(es: seq<Event>, policy: Policy, log: seq<Event>): seq<Event>
    decreases |es|
  {
    if es == [] then log
    else
      var e, rest := es[0], es[1..];
      var log' := log + [e];
      var answer := policy(log');
      var c := CloseIndex(rest, 1);
      if !e.kind.BeginEvent? || answer == ENTER || c >= |rest| then Prune(rest, policy, log')
      else if answer == CAPTURE then
        Prune(rest[c + 1..], policy, log' + [rest[c].(span := Span(e.span.lo, rest[c].span.hi))])
      else Prune(rest[c + 1..], policy, log')
  }

  // ------------------------------------------ entering everything: Full

  lemma {:induction false} FullIsTrace(v: Value, p: nat, key: Owner, log: seq<Event>)
    requires ValueOk(v)
    ensures ValueTrace(v, p, key, true, EnterAll(), log) == Trace(log + Full(v, p, key), Going)
    decreases v, 1
  {
    hide PrintValue, PrimitiveSpan, ValueOk, MembersOk, FullMembers, MembersTrace, MemberCount;
    if v.Filled? {
      var begun := log + [BeginOf(v.kind, p, key)];
      FilledOk(v);
      FullMembersIsTrace(v.members, v.kind, p + 1 + |v.ws|, begun);
      assert log + Full(v, p, key) ==
        begun + FullMembers(v.members, v.kind, p + 1 + |v.ws|) +
        [EndOf(v.kind, p + |PrintValue(v)| - 1, p + |PrintValue(v)| - 1, key, MemberCount(v))];
    } else if v.Empty? {
      var begun := log + [BeginOf(v.kind, p, key)];
      assert log + Full(v, p, key) ==
        begun + [EndOf(v.kind, p + |PrintValue(v)| - 1, p + |PrintValue(v)| - 1, key, MemberCount(v))];
    }
  }

  lemma FilledOk(v: Value)
    requires v.Filled? && ValueOk(v)
    ensures MembersOk(v.members, v.kind)
  {
  }

  lemma {:induction false} FullMembersIsTrace(ms: Members, kind: Kind, p: nat, log: seq<Event>)
    requires MembersOk(ms, kind)
    ensures MembersTrace(ms, kind, p, true, EnterAll(), log) == Trace(log + FullMembers(ms, kind, p), Going)
    decreases ms, 3
  {
    hide PrintKey, PrintMember, KeyOwnerAt, ValueTrace, Full;
    var m := ms.member;
    var q, key := p + |PrintKey(m.key, kind)|, KeyOwnerAt(m.key, p);
    FullIsTrace(m.value, q, key, log);
    var log' := log + Full(m.value, q, key);
    assert MemberTrace(m, kind, p, true, EnterAll(), log) == Trace(log', Going);
    if ms.More? {
      var r := p + |PrintMember(m, kind)| + 1 + |ms.gap|;
      FullMembersIsTrace(ms.rest, kind, r, log');
      assert log + FullMembers(ms, kind, p) == log' + FullMembers(ms.rest, kind, r);
    }
  }

  // ------------------------------------------------- brackets in a full log

  lemma {:induction false} CloseIndexSkips(v: Value, p: nat, key: Owner, tail: seq<Event>, open: nat)
    requires ValueOk(v) && open >= 1
    ensures CloseIndex(Full(v, p, key) + tail, open) == |Full(v, p, key)| + CloseIndex(tail, open)
    decreases v, 1
  {
    hide PrintValue, PrimitiveSpan, ValueOk, MembersOk;
    var es := Full(v, p, key);
    if v.Filled? || v.Empty? {
      var end := [EndOf(v.kind, p + |PrintValue(v)| - 1, p + |PrintValue(v)| - 1, key, MemberCount(v))];
      if v.Filled? {
        FilledOk(v);
        var inner := FullMembers(v.members, v.kind, p + 1 + |v.ws|);
        assert (es + tail)[1..] == inner + (end + tail);
        CloseIndexSkipsMembers(v.members, v.kind, p + 1 + |v.ws|, end + tail, open + 1);
      } else {
        assert (es + tail)[1..] == end + tail;
      }
      assert (end + tail)[1..] == tail;
    } else {
      assert (es + tail)[1..] == tail;
    }
  }

  lemma {:induction false} CloseIndexSkipsMembers(ms: Members, kind: Kind, p: nat, tail: seq<Event>, open: nat)
    requires MembersOk(ms, kind) && open >= 1
    ensures CloseIndex(FullMembers(ms, kind, p) + tail, open) == |FullMembers(ms, kind, p)| + CloseIndex(tail, open)
    decreases ms, 3
  {
    hide PrintKey, PrintMember, KeyOwnerAt, Full, CloseIndex;
    var m := ms.member;
    var first := Full(m.value, p + |PrintKey(m.key, kind)|, KeyOwnerAt(m.key, p));
    if ms.More? {
      var r := p + |PrintMember(m, kind)| + 1 + |ms.gap|;
      var rest := FullMembers(ms.rest, kind, r);
      assert first + rest + tail == first + (rest + tail);
      CloseIndexSkips(m.value, p + |PrintKey(m.key, kind)|, KeyOwnerAt(m.key, p), rest + tail, open);
      CloseIndexSkipsMembers(ms.rest, kind, r, tail, open);
    } else {
      CloseIndexSkips(m.value, p + |PrintKey(m.key, kind)|, KeyOwnerAt(m.key, p), tail, open);
    }
  }

  // ------------------------------------------------------------- pruning

  lemma PruneBegin(e: Event, inner: seq<Event>, end: Event, tail: seq<Event>, policy: Policy, log: seq<Event>)
    requires e.kind.BeginEvent? && CloseIndex(inner + ([end] + tail), 1) == |inner|
    ensures
      var all := Prune([e] + (inner + ([end] + tail)), policy, log);
      var log' := log + [e];
      all ==
        if policy(log') == ENTER then Prune(inner + ([end] + tail), policy, log')
        else if policy(log') == CAPTURE then
          Prune(tail, policy, log' + [end.(span := Span(e.span.lo, end.span.hi))])
        else Prune(tail, policy, log')
  {
    hide CloseIndex;
    var rest := inner + ([end] + tail);
    assert ([e] + rest)[1..] == rest;
    assert rest[|inner|] == end && rest[|inner| + 1..] == tail;
  }

  lemma PruneOther(e: Event, tail: seq<Event>, policy: Policy, log: seq<Event>)
    requires !e.kind.BeginEvent?
    ensures Prune([e] + tail, policy, log) == Prune(tail, policy, log + [e])
  {
    assert ([e] + tail)[1..] == tail;
  }

  lemma LegalDeliver(log: seq<Event>, e: Event, policy: Policy)
    requires Legal(policy) && !e.kind.BeginEvent?
    ensures Deliver(log, e, policy) == Trace(log + [e], Going)
  {
    assert LegalAnswer(e.kind, policy(log + [e]));
  }

  lemma LegalBegin(log: seq<Event>, e: Event, policy: Policy)
    requires Legal(policy) && e.kind.BeginEvent?
    ensures var a := policy(log + [e]); a == ENTER || a == CAPTURE || a == SKIP
  {
    assert LegalAnswer(e.kind, policy(log + [e]));
  }

  /** One value: its trace under `policy` is its full log, pruned. */
  lemma {:induction false} PruneValue(v: Value, p: nat, key: Owner, policy: Policy, log: seq<Event>, tail: seq<Event>)
    requires ValueOk(v) && Legal(policy)
    ensures ValueTrace(v, p, key, true, policy, log).status == Going
    ensures Prune(Full(v, p, key) + tail, policy, log) ==
      Prune(tail, policy, ValueTrace(v, p, key, true, policy, log).log)
    decreases v, 1
  {
    hide PrintValue, PrimitiveSpan, ValueOk, MembersOk, CloseIndex, Prune, Legal, Deliver, FullMembers, MembersTrace;
    if v.Filled? || v.Empty? {
      var closing := p + |PrintValue(v)| - 1;
      var begin, end := BeginOf(v.kind, p, key), EndOf(v.kind, closing, closing, key, MemberCount(v));
      var inner := InnerEvents(v, p);
      var begun := log + [begin];
      assert Full(v, p, key) + tail == [begin] + (inner + ([end] + tail)) by {
        if v.Filled? {
          FilledOk(v);
        }
      }
      CloseOfContainer(v, p, end, tail);
      LegalBegin(log, begin, policy);
      PruneBegin(begin, inner, end, tail, policy, log);
      if policy(begun) == ENTER {
        var t := Trace(begun, Going);
        if v.Filled? {
          FilledOk(v);
          PruneMembers(v.members, v.kind, p + 1 + |v.ws|, policy, begun, [end] + tail);
          t := MembersTrace(v.members, v.kind, p + 1 + |v.ws|, true, policy, begun);
        } else {
          assert inner + ([end] + tail) == [end] + tail;
        }
        LegalDeliver(t.log, end, policy);
        PruneOther(end, tail, policy, t.log);
      } else {
        LegalDeliver(begun, EndOf(v.kind, p, closing, key, MemberCount(v)), policy);
      }
    } else {
      var e := Event(ValueEvent, TypeOf(v), key, PrimitiveSpan(v, p), 1);
      LegalDeliver(log, e, policy);
      PruneOther(e, tail, policy, log);
    }
  }

  ghost function InnerEvents(v: Value, p: nat): seq<Event>
    requires ValueOk(v)
  {
    if v.Filled? then FullMembers(v.members, v.kind, p + 1 + |v.ws|) else []
  }

  lemma CloseOfContainer(v: Value, p: nat, end: Event, tail: seq<Event>)
    requires ValueOk(v) && (v.Filled? || v.Empty?) && end.kind.EndEvent?
    ensures CloseIndex(InnerEvents(v, p) + ([end] + tail), 1) == |InnerEvents(v, p)|
  {
    hide FullMembers;
    if v.Filled? {
      CloseIndexSkipsMembers(v.members, v.kind, p + 1 + |v.ws|, [end] + tail, 1);
    } else {
      assert [] + ([end] + tail) == [end] + tail;
    }
  }

  lemma {:induction false} PruneMembers(ms: Members, kind: Kind, p: nat, policy: Policy, log: seq<Event>, tail: seq<Event>)
    requires MembersOk(ms, kind) && Legal(policy)
    ensures MembersTrace(ms, kind, p, true, policy, log).status == Going
    ensures Prune(FullMembers(ms, kind, p) + tail, policy, log) ==
      Prune(tail, policy, MembersTrace(ms, kind, p, true, policy, log).log)
    decreases ms, 3
  {
    hide PrintKey, PrintMember, KeyOwnerAt, Full, ValueTrace, Prune, Legal;
    var m := ms.member;
    var q, key := p + |PrintKey(m.key, kind)|, KeyOwnerAt(m.key, p);
    var first := Full(m.value, q, key);
    assert MemberTrace(m, kind, p, true, policy, log) == ValueTrace(m.value, q, key, true, policy, log);
    if ms.More? {
      var r := p + |PrintMember(m, kind)| + 1 + |ms.gap|;
      var rest := FullMembers(ms.rest, kind, r);
      assert first + rest + tail == first + (rest + tail);
      PruneValue(m.value, q, key, policy, log, rest + tail);
      PruneMembers(ms.rest, kind, r, policy, ValueTrace(m.value, q, key, true, policy, log).log, tail);
    } else {
      PruneValue(m.value, q, key, policy, log, tail);
    }
  }

  /** For every JSON text and every legal callback that does not break: the trace
      is complete, and it is the pruned log of the callback that enters everything. */
  lemma TraceIsPruned(d: Document, policy: Policy)
    requires DocumentOk(d) && Legal(policy)
    ensures DocumentTrace(d, EnterAll()).status == Going && DocumentTrace(d, policy).status == Going
    ensures DocumentTrace(d, policy).log == Prune(DocumentTrace(d, EnterAll()).log, policy, [])
  {
    hide ValueTrace, Full, Legal;
    var p := |d.before|;
    FullIsTrace(d.value, p, NoKeyOwner, []);
    PruneValue(d.value, p, NoKeyOwner, policy, [], []);
    assert [] + Full(d.value, p, NoKeyOwner) == Full(d.value, p, NoKeyOwner);
    assert Full(d.value, p, NoKeyOwner) + [] == Full(d.value, p, NoKeyOwner);
  }

  /** The scanner accepts exactly the JSON texts, whatever the legal callback
      answers, and shows it the pruned log. */
  method ParseLegally(s: Text, policy: Policy) returns (result: Result, log: seq<Event>)
    requires Legal(policy)
    ensures result.Success? <==> IsJsonText(s)
    ensures forall d | DocumentOk(d) && Height(d.value) <= MAX_NESTING && PrintDocument(d) == s ::
      log == Prune(DocumentTrace(d, EnterAll()).log, policy, [])
  {
    hide DocumentTrace, Prune, PrintDocument, DocumentOk;
    var scan := new Scan(s, policy);
    forall d | DocumentOk(d) && Height(d.value) <= MAX_NESTING && PrintDocument(d) == s
      ensures DocumentTrace(d, policy).status == Going
      ensures DocumentTrace(d, policy).log == Prune(DocumentTrace(d, EnterAll()).log, policy, [])
    {
      TraceIsPruned(d, policy);
    }
    result := scan.Parse();
    log := scan.log;
    if log != [] {
      LegalNeverBreaks(policy, log);
    }
  }

  lemma LegalNeverBreaks(policy: Policy, log: seq<Event>)
    requires Legal(policy) && log != []
    ensures policy(log) != BREAK
  {
    var last := log[|log| - 1];
    assert log == log[..|log| - 1] + [last];
    assert LegalAnswer(last.kind, policy(log));
  }
}
