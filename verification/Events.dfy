/** What the action parser reports: events, callback policies and the trace a
    parsed value produces under a policy. */
module Events {
  import opened JsonString
  import opened Grammar

  datatype Type = UnknownType | NullType | TrueType | FalseType | StringType | NumberType | ArrayType | ObjectType

  datatype EventKind = ValueEvent | BeginEvent | EndEvent

  /** Half-open range of input positions. */
  datatype Span = Span(lo: nat, hi: nat)

  datatype Owner = NoKeyOwner | KeyOwner(span: Span)

  /** One callback: `span` is the reported slice (empty at a container's begin,
      where the source passes no end pointer). */
  datatype Event = Event(kind: EventKind, valueType: Type, key: Owner, span: Span, count: nat)

  const ENTER := 0
  const BREAK := 1
  const CAPTURE := 2
  const SKIP := 3

  /** A callback answers each event from the whole history of events, the one
      it answers being the last. */
  type Policy = seq<Event> -> int

  datatype Status = Going | Stopped | Refused

  datatype Trace = Trace(log: seq<Event>, status: Status)

  function KindType(kind: Kind): Type {
    if kind.Object? then ObjectType else ArrayType
  }

  function TypeOf(v: Value): Type {
    match v
    case Null => NullType
    case True => TrueType
    case False => FalseType
    case Num(_) => NumberType
    case Str(_) => StringType
    case Empty(kind, _) => KindType(kind)
    case Filled(kind, _, _) => KindType(kind)
  }

  /** A value or container-end event: only CONTINUE and BREAK are answers. */
  function Deliver(log: seq<Event>, e: Event, policy: Policy): Trace {
    var log' := log + [e];
    var answer := policy(log');
    Trace(log', if answer == ENTER then Going else if answer == BREAK then Stopped else Refused)
  }

  function PrimitiveSpan(v: Value, p: nat): Span
    requires ValueOk(v)
  {
    if v.Str? then Span(p + 1, p + |PrintValue(v)| - 1) else Span(p, p + |PrintValue(v)|)
  }

  function BeginOf(kind: Kind, p: nat, key: Owner): Event {
    Event(BeginEvent, KindType(kind), key, Span(p, p), 0)
  }

  function EndOf(kind: Kind, lo: nat, closing: nat, key: Owner, members: nat): Event {
    Event(EndEvent, KindType(kind), key, Span(lo, closing + 1), if kind.Array? then members else 1)
  }

  function MemberCount(v: Value): nat {
    if v.Filled? then Count(v.members) else 0
  }

  /** The events of a container with brackets at `brackets.lo` and `brackets.hi`:
      `begun` ends with its begin event, and `inner` is what its members produce
      after that when they are entered. */
  ghost function ContainerTrace(kind: Kind, brackets: Span, key: Owner, members: nat, policy: Policy, begun: seq<Event>, inner: Trace): Trace {
    var action := policy(begun);
    if action == BREAK then Trace(begun, Stopped)
    else if action == SKIP then Trace(begun, Going)
    else if action == CAPTURE then
      Deliver(begun, EndOf(kind, brackets.lo, brackets.hi, key, members), policy)
    else if action == ENTER then
      if inner.status != Going then inner
      else Deliver(inner.log, EndOf(kind, brackets.hi, brackets.hi, key, members), policy)
    else Trace(begun, Refused)
  }

  /** The events of the value `v` printed at position `p`, after `log`. */
  ghost function ValueTrace(v: Value, p: nat, key: Owner, emit: bool, policy: Policy, log: seq<Event>): Trace
    requires ValueOk(v)
    decreases v, 1
  {
    if !emit then Trace(log, Going)
    else if v.Empty? || v.Filled? then
      var begun := log + [BeginOf(v.kind, p, key)];
      var inner :=
        if v.Filled? then MembersTrace(v.members, v.kind, p + 1 + |v.ws|, true, policy, begun)
        else Trace(begun, Going);
      ContainerTrace(v.kind, Span(p, p + |PrintValue(v)| - 1), key, MemberCount(v), policy, begun, inner)
    else Deliver(log, Event(ValueEvent, TypeOf(v), key, PrimitiveSpan(v, p), 1), policy)
  }

  function KeyOwnerAt(key: Key, p: nat): Owner
    requires key.Key? ==> CharsOk(key.chars)
  {
    if key.Key? then KeyOwner(Span(p + 1, p + 1 + |PrintChars(key.chars)|)) else NoKeyOwner
  }

  ghost function MemberTrace(m: Member, kind: Kind, p: nat, emit: bool, policy: Policy, log: seq<Event>): Trace
    requires MemberOk(m, kind)
    decreases m, 2
  {
    ValueTrace(m.value, p + |PrintKey(m.key, kind)|, KeyOwnerAt(m.key, p), emit, policy, log)
  }

  ghost function MembersTrace(ms: Members, kind: Kind, p: nat, emit: bool, policy: Policy, log: seq<Event>): Trace
    requires MembersOk(ms, kind)
    decreases ms, 3
  {
    var first := MemberTrace(ms.member, kind, p, emit, policy, log);
    if first.status != Going || ms.Last? then first
    else
      MembersTrace(ms.rest, kind, p + |PrintMember(ms.member, kind)| + 1 + |ms.gap|, emit, policy, first.log)
  }

  /** The events of a whole document. */
  ghost function DocumentTrace(d: Document, policy: Policy): Trace
    requires DocumentOk(d)
  {
    ValueTrace(d.value, |d.before|, NoKeyOwner, true, policy, [])
  }
}
