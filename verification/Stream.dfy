/** kason_stream: the chunked parser with its scratch buffer. */
module Stream {
  import opened Bytes
  import opened JsonString
  import opened Number
  import opened Grammar
  import opened Events
  import opened Modes
  import opened StringAutomaton
  import opened StreamSpec

  datatype FeedResult = Success | Incomplete | Error | BufferFull

  /** A stream callback answers CONTINUE (false) or BREAK (true) from all it was shown. */
  type StreamPolicy = seq<StreamEvent> -> bool

  /** A fragment of a container counts as the bytes it carries. */
  function FlatEvent(e: StreamEvent): seq<StreamEvent> {
    if e.kind == StreamPart then seq(|e.text|, k requires 0 <= k < |e.text| => e.(text := [e.text[k]]))
    else [e]
  }

  /** A log with every fragment cut into single bytes: what is left of a log when
      the boundaries between consecutive fragments are forgotten. */
  function Flat(log: seq<StreamEvent>): seq<StreamEvent> {
    if log == [] then [] else Flat(log[..|log| - 1]) + FlatEvent(log[|log| - 1])
  }

  lemma FlatSnoc(log: seq<StreamEvent>, e: StreamEvent)
    ensures Flat(log + [e]) == Flat(log) + FlatEvent(e)
  {
    assert (log + [e])[..|log|] == log;
  }

  /** The machine goes from `before` to `after` over `t`, and the log grows by its events. */
  ghost predicate Fed(before: State, t: Text, after: State, log: seq<StreamEvent>, log': seq<StreamEvent>) {
    RunText(before, t).Run? && RunText(before, t).state == after &&
    Flat(log') == Flat(log) + RunText(before, t).events
  }

  /** From `log0` to `log`, no event but the last made the callback break. */
  ghost predicate Unbroken(policy: StreamPolicy, broken: bool, log0: seq<StreamEvent>, log: seq<StreamEvent>) {
    log0 <= log && (forall k | |log0| < k < |log| :: !policy(log[..k])) && (broken || log == log0 || !policy(log))
  }

  lemma OneShown(policy: StreamPolicy, broken: bool, log0: seq<StreamEvent>, log: seq<StreamEvent>)
    requires log0 <= log && |log| <= |log0| + 1 && (|log| > |log0| ==> broken == policy(log))
    ensures Unbroken(policy, broken, log0, log)
  {
  }

  lemma LogSoFar(policy: StreamPolicy, log0: seq<StreamEvent>, log: seq<StreamEvent>)
    requires Unbroken(policy, false, log0, log)
    ensures log0 <= log && forall k | |log0| < k <= |log| :: !policy(log[..k])
  {
    assert log[..|log|] == log;
  }

  lemma UnbrokenSince(policy: StreamPolicy, broken: bool, log0: seq<StreamEvent>, log1: seq<StreamEvent>, log: seq<StreamEvent>)
    requires log0 <= log1 && (forall k | |log0| < k <= |log1| :: !policy(log1[..k])) && Unbroken(policy, broken, log1, log)
    ensures Unbroken(policy, broken, log0, log)
  {
    assert log1[..|log1|] == log1;
    forall k | |log0| < k <= |log1| ensures log[..k] == log1[..k] {
    }
  }

  lemma RunOneAt(st: State, chunk: Text, i: nat)
    requires i < |chunk|
    ensures RunText(st, chunk[i..i + 1]) == Step(st, chunk[i])
  {
    hide Step;
    RunOne(st, chunk[i]);
    assert chunk[i..i + 1] == [chunk[i]];
  }

  lemma FlatValue(log: seq<StreamEvent>, e: StreamEvent)
    requires e.kind != StreamPart
    ensures Flat(log + [e]) == Flat(log) + [e]
  {
    FlatSnoc(log, e);
  }

  lemma FinishCases(st: State, log: seq<StreamEvent>)
    ensures Finish(Run(st, [])) ==
      if st.phase == Complete then Run(st, [])
      else if st.phase == FindGenericEnd && st.mode == GenericMode then CommitGeneric(st, 0)
      else Fail([])
    ensures Flat(log) + [] == Flat(log)
  {
    hide CommitGeneric;
    var es := CommitGeneric(st, 0).events;
    assert [] + es == es;
  }

  /** A silent step. */
  lemma FedSilently(before: State, t: Text, after: State, log: seq<StreamEvent>)
    requires RunText(before, t) == Run(after, [])
    ensures Fed(before, t, after, log, log)
  {
    assert Flat(log) + [] == Flat(log);
  }

  lemma SliceBehind(t: Text, c: Byte, stop: int)
    requires 1 <= stop <= |t|
    ensures (t + [c])[1..stop] == t[1..stop] && (t + [c])[stop..] == t[stop..] + [c]
  {
  }

  lemma ArraySlice(a: array<Byte>, i: int, j: int, n: int)
    requires 0 <= i <= j <= n <= a.Length
    ensures a[..n][i..j] == a[i..j] && (j == n ==> a[..n][i..] == a[i..n])
  {
  }

  lemma FlatPart(log: seq<StreamEvent>, containerType: Type, t: Text)
    ensures Flat(log + [StreamEvent(StreamPart, containerType, NoName, t)]) == Flat(log) + Parts(containerType, t)
  {
    var e := StreamEvent(StreamPart, containerType, NoName, t);
    FlatSnoc(log, e);
    assert FlatEvent(e) == Parts(containerType, t);
  }

  lemma PartsSnoc(containerType: Type, chunk: Text, i: nat, j: nat)
    requires i <= j < |chunk|
    ensures Parts(containerType, chunk[i..j + 1]) ==
      Parts(containerType, chunk[i..j]) + [StreamEvent(StreamPart, containerType, NoName, [chunk[j]])]
  {
    assert chunk[i..j + 1] == chunk[i..j] + [chunk[j]];
  }

  lemma RunNothing(st: State, chunk: Text, i: nat)
    requires i <= |chunk|
    ensures RunText(st, chunk[i..i]) == Run(st, [])
    ensures forall containerType :: Parts(containerType, chunk[i..i]) == []
  {
    assert chunk[i..i] == [];
  }

  lemma RunFurther(st: State, chunk: Text, i: nat, j: nat)
    requires i <= j < |chunk|
    ensures RunText(st, chunk[i..j + 1]) == Then(RunText(st, chunk[i..j]), chunk[j])
  {
    hide Then;
    SliceOn(chunk, i, j);
  }

  lemma SliceOn(chunk: Text, i: nat, j: nat)
    requires i <= j < |chunk|
    ensures var t := chunk[i..j + 1]; |t| == j + 1 - i && t[..|t| - 1] == chunk[i..j] && t[|t| - 1] == chunk[j]
  {
  }

  lemma ContainerStep(st: State, c: Byte)
    requires st.phase == InContainer
    ensures Step(st, c) == StepContainer(st, c)
  {
  }

  lemma PrefixOfEvents(log: seq<StreamEvent>, o: Outcome)
    ensures Flat(log) <= Flat(log) + o.events
  {
  }

  lemma FedParts(st: State, chunk: Text, i: nat, j: nat, after: State, log: seq<StreamEvent>)
    requires i <= j <= |chunk|
    requires RunText(st, chunk[i..j]) == Run(after, Parts(st.containerType, chunk[i..j]))
    ensures Fed(st, chunk[i..j], after, log, log + [StreamEvent(StreamPart, st.containerType, NoName, chunk[i..j])])
  {
    hide RunText;
    FlatPart(log, st.containerType, chunk[i..j]);
  }

  /** The events at the end of a container: an optional last fragment, then the end. */
  lemma EndEvents(st: State, now: State, chunk: Text, i: nat, j: nat, log: seq<StreamEvent>)
    requires i <= j < |chunk| && now.containerType == st.containerType && now.phase == InContainer
    requires RunText(st, chunk[i..j]) == Run(now, Parts(st.containerType, chunk[i..j]))
    requires StepContainer(now, chunk[j]).Run? && StepContainer(now, chunk[j]).events == [StreamEvent(StreamEnd, st.containerType, NoName, [chunk[j]])]
    ensures var part, end := StreamEvent(StreamPart, st.containerType, NoName, chunk[i..j]),
        StreamEvent(StreamEnd, st.containerType, NoName, chunk[j..j + 1]);
      var o := RunText(st, chunk[i..j + 1]);
      var all := (if j > i then log + [part] else log) + [end];
      Fed(st, chunk[i..j + 1], StepContainer(now, chunk[j]).state, log, all) &&
      Flat(log + [part]) <= Flat(log) + o.events && Flat(all) <= Flat(log) + o.events
  {
    hide RunText, StepContainer;
    RunFurther(st, chunk, i, j);
    ContainerStep(now, chunk[j]);
    var end := StreamEvent(StreamEnd, st.containerType, NoName, chunk[j..j + 1]);
    assert chunk[j..j + 1] == [chunk[j]];
    FlatPart(log, st.containerType, chunk[i..j]);
    FlatSnoc(if j > i then log + [StreamEvent(StreamPart, st.containerType, NoName, chunk[i..j])] else log, end);
    if j == i {
      assert Parts(st.containerType, chunk[i..j]) == [];
    }
  }

  class Stream {
    const scratch: array<Byte>
    const policy: StreamPolicy
    var log: seq<StreamEvent>
    var scratchLength: nat
    var mode: Mode
    var phase: Phase
    var complete: bool
    var callbackBreak: bool
    var endToken: Byte
    var keyBegin: int
    var keyEnd: int
    var valueBegin: int
    var valueEnd: int
    var directKeyBegin: int      // -1 is the null pointer
    var directKeyEnd: int
    var directValueBegin: int
    var directValueEnd: int
    var hasKey: bool
    var hasEntries: bool
    var escapeHexLeft: nat
    var containerType: Type
    var containerString: bool
    var str: StringState         // the remaining container_* fields

    // ------------------------------------------------------ abstraction

    ghost predicate KeyLive()
      reads this
    {
      phase == FindKeyEnd || phase == KeyEscape || hasKey
    }

    ghost predicate ValueLive()
      reads this
    {
      phase == FindStringEnd || phase == StringEscape || phase == FindGenericEnd
    }

    /** End of the key in scratch; a key that is still being read reaches to the end. */
    ghost function KeyStop(): int
      reads this
    {
      if !KeyLive() || directKeyBegin != -1 then 1
      else if phase == FindKeyEnd || phase == KeyEscape then scratchLength
      else keyEnd + 1
    }

    /** Where in the chunk, read up to `i`, direct pointers point. */
    ghost predicate DirectOk(chunk: Text, i: nat)
      reads this
    {
      i <= |chunk| &&
      (directKeyBegin != -1 ==>
        KeyLive() && phase != KeyEscape && 0 <= directKeyBegin <= directKeyEnd + 1 <= i &&
        (phase == FindKeyEnd ==> directKeyEnd + 1 == i)) &&
      (directValueBegin != -1 ==>
        ValueLive() && phase != StringEscape && 0 <= directValueBegin <= directValueEnd + 1 == i)
    }

    /** Scratch holds exactly the pending key, then the pending token; or, inside a
        container, the stack of unmatched open brackets. */
    ghost predicate ScratchOk()
      reads this
    {
      1 < scratch.Length && 1 <= scratchLength <= scratch.Length &&
      (phase == InContainer ==> scratchLength >= 2) &&
      (hasKey ==> phase == FindValueSep || phase == FindValueBegin || ValueLive()) &&
      1 <= KeyStop() <= scratchLength &&
      (KeyLive() && directKeyBegin == -1 ==>
        keyBegin == 1 && (phase == FindKeyEnd ==> keyEnd + 1 == scratchLength)) &&
      (phase != InContainer ==>
        if ValueLive() && directValueBegin == -1 then
          directKeyBegin == -1 && valueBegin == KeyStop() &&
          (phase != StringEscape ==> valueEnd + 1 == scratchLength)
        else scratchLength == KeyStop())
    }

    /** Keys occur in a root object only. */
    ghost predicate ModeOk()
      reads this
    {
      (hasKey || phase == FindKeyBegin || phase == FindKeyEnd || phase == KeyEscape || phase == FindValueSep) ==>
        mode == ObjectMode
    }

    ghost predicate Inv(chunk: Text, i: nat)
      reads this
    {
      !callbackBreak && 1 < scratch.Length && endToken == EndToken(mode) && (complete <==> phase == Complete) && ModeOk() &&
      DirectOk(chunk, i) && ScratchOk()
    }

    ghost function KeyText(chunk: Text, i: nat): Text
      reads this, scratch
      requires Inv(chunk, i)
    {
      if !KeyLive() then []
      else if directKeyBegin != -1 then chunk[directKeyBegin..directKeyEnd + 1]
      else scratch[1..KeyStop()]
    }

    ghost function ValueText(chunk: Text, i: nat): Text
      reads this, scratch
      requires Inv(chunk, i)
    {
      if !ValueLive() then []
      else if directValueBegin != -1 then chunk[directValueBegin..directValueEnd + 1]
      else scratch[KeyStop()..scratchLength]
    }

    ghost function StackText(): Text
      reads this, scratch
      requires ScratchOk()
    {
      if phase == InContainer then scratch[1..scratchLength] else []
    }

    /** The state of the machine after the bytes before `i` of the chunk. */
    ghost function Abs(chunk: Text, i: nat): State
      reads this, scratch
      requires Inv(chunk, i)
    {
      State(mode, phase, hasEntries, hasKey, KeyText(chunk, i), ValueText(chunk, i), escapeHexLeft,
        StackText(), containerType, containerString, str)
    }

    /** The fields that the machine has too. */
    ghost predicate Exposed(st: State)
      reads this
    {
      mode == st.mode && phase == st.phase && hasEntries == st.hasEntries && hasKey == st.hasKey &&
      escapeHexLeft == st.hexLeft && !callbackBreak && endToken == EndToken(mode) && ModeOk()
    }

    lemma StepAt(chunk: Text, i: nat)
      requires i < |chunk| && Inv(chunk, i)
      ensures var st := Abs(chunk, i); Exposed(st) && RunText(st, chunk[i..i + 1]) == Step(st, chunk[i])
      ensures hasKey ==> phase == FindValueSep || phase == FindValueBegin || ValueLive()
      ensures phase == KeyEscape ==> directKeyBegin == -1
      ensures phase == StringEscape ==> directValueBegin == -1
    {
      RunOneAt(Abs(chunk, i), chunk, i);
    }

    /** Between two feeds: no pointer into a chunk is left. */
    ghost predicate Valid()
      reads this
    {
      Inv([], 0) && directKeyBegin == -1 && directValueBegin == -1
    }

    // ---------------------------------------------------------- helpers

    /** kason_stream_clear_scratch. */
    method ClearScratch()
      modifies this
      ensures unchanged(`log, `mode, `phase, `complete, `callbackBreak, `endToken, `hasEntries, `containerType,
        `containerString, `str)
      ensures scratchLength == 1 && !hasKey && escapeHexLeft == 0 && directKeyBegin == -1 && directValueBegin == -1
    {
      scratchLength := 1;
      keyBegin, keyEnd, valueBegin, valueEnd := 0, 0, 0, 0;
      directKeyBegin, directKeyEnd, directValueBegin, directValueEnd := -1, -1, -1, -1;
      hasKey := false;
      escapeHexLeft := 0;
    }

    /** kason_stream_append_scratch. */
    method AppendScratch(c: Byte) returns (ok: bool)
      requires 1 <= scratchLength <= scratch.Length
      modifies this`scratchLength, scratch
      ensures ok <==> old(scratchLength) < scratch.Length
      ensures ok ==> scratchLength == old(scratchLength) + 1 && scratch[old(scratchLength)] == c
      ensures !ok ==> scratchLength == old(scratchLength)
      ensures scratch[..old(scratchLength)] == old(scratch[..scratchLength])
    {
      if scratchLength >= scratch.Length {
        return false;
      }
      scratch[scratchLength] := c;
      scratchLength := scratchLength + 1;
      return true;
    }

    /** The loop of kason_stream_copy_direct. */
    method CopyToScratch(t: Text) returns (ok: bool)
      requires 1 <= scratchLength <= scratch.Length
      modifies this`scratchLength, scratch
      ensures ok <==> old(scratchLength) + |t| <= scratch.Length
      ensures ok ==>
        scratchLength == old(scratchLength) + |t| &&
        scratch[..scratchLength] == old(scratch[..scratchLength]) + t
    {
      ghost var start := scratchLength;
      for k := 0 to |t|
        invariant scratchLength == start + k <= scratch.Length
        invariant scratch[..scratchLength] == old(scratch[..scratchLength]) + t[..k]
      {
        var more := AppendScratch(t[k]);
        if !more {
          return false;
        }
        assert scratch[..scratchLength] == scratch[..start + k] + [t[k]];
        assert t[..k + 1] == t[..k] + [t[k]];
      }
      assert t[..|t|] == t;
      return true;
    }

    /** kason_stream_copy_direct on the key. */
    method PreserveKey(chunk: Text, ghost i: nat) returns (ok: bool)
      requires Inv(chunk, i)
      modifies this, scratch
      ensures log == old(log) && phase == old(phase)
      ensures ok ==> Inv(chunk, i) && directKeyBegin == -1 && Abs(chunk, i) == old(Abs(chunk, i))
      ensures !callbackBreak
      ensures !ok ==> Need(old(Abs(chunk, i))) > scratch.Length - 1
    {
      hide DirectOk, ScratchOk, ModeOk, KeyText, ValueText, StackText, Need;
      if directKeyBegin == -1 {
        return true;
      }
      ok := CopyKey(chunk, i);
    }

    method CopyKey(chunk: Text, ghost i: nat) returns (ok: bool)
      requires Inv(chunk, i) && directKeyBegin != -1
      modifies this`keyBegin, this`keyEnd, this`directKeyBegin, this`directKeyEnd, this`scratchLength, scratch
      ensures ok ==> Inv(chunk, i) && directKeyBegin == -1 && Abs(chunk, i) == old(Abs(chunk, i))
      ensures !ok ==> Need(old(Abs(chunk, i))) > scratch.Length - 1
    {
      DirectKeyIs(chunk, i);
      hide Need;
      ghost var key := chunk[directKeyBegin..directKeyEnd + 1];
      ghost var value := ValueText(chunk, i);
      keyBegin := 1;
      ok := CopyToScratch(chunk[directKeyBegin..directKeyEnd + 1]);
      if !ok {
        return;
      }
      keyEnd := scratchLength - 1;
      assert scratch[1..scratchLength] == key by {
        assert scratch[1..scratchLength] == scratch[..scratchLength][1..];
      }
      directKeyBegin, directKeyEnd := -1, -1;
      assert Inv(chunk, i);
      assert ValueText(chunk, i) == value;
    }

    /** A direct key leaves scratch empty. */
    lemma DirectKeyIs(chunk: Text, i: nat)
      requires Inv(chunk, i) && directKeyBegin != -1
      ensures scratchLength == 1 && KeyText(chunk, i) == chunk[directKeyBegin..directKeyEnd + 1] && phase != InContainer
      ensures Need(Abs(chunk, i)) >= directKeyEnd + 1 - directKeyBegin
    {
    }

    /** A direct value, with the key in scratch before it. */
    lemma DirectValueIs(chunk: Text, i: nat)
      requires Inv(chunk, i) && directKeyBegin == -1 && directValueBegin != -1
      ensures var st := Abs(chunk, i);
        Exposed(st) && complete == (phase == Complete) && ValueLive() && phase != StringEscape && phase != InContainer &&
        1 <= scratchLength == KeyStop() <= scratch.Length && 0 <= directValueBegin <= directValueEnd + 1 <= |chunk| &&
        st.value == chunk[directValueBegin..directValueEnd + 1] && st.stack == [] &&
        (KeyLive() <==> hasKey) && (hasKey ==> keyBegin == 1) && st.key == (if hasKey then scratch[1..scratchLength] else []) &&
        containerType == st.containerType && containerString == st.inString && str == st.str && i <= |chunk| &&
        Need(st) == scratchLength - 1 + |st.value|
    {
    }

    /** Key and value in scratch. */
    lemma ValueInScratch(chunk: Text, i: nat, st: State, stop: int)
      requires i <= |chunk| && Exposed(st) && complete == (phase == Complete) && ValueLive() && phase != InContainer
      requires directKeyBegin == -1 && directValueBegin == -1 && 1 < scratch.Length
      requires 1 <= stop == KeyStop() <= scratchLength <= scratch.Length && valueBegin == stop && valueEnd + 1 == scratchLength
      requires (KeyLive() <==> hasKey) && (hasKey ==> keyBegin == 1) && st.stack == []
      requires st.key == (if hasKey then scratch[1..stop] else []) && st.value == scratch[stop..scratchLength]
      requires containerType == st.containerType && containerString == st.inString && str == st.str
      ensures Inv(chunk, i) && Abs(chunk, i) == st
    {
    }

    /** kason_stream_copy_direct on the value. */
    method PreserveValue(chunk: Text, ghost i: nat) returns (ok: bool)
      requires Inv(chunk, i) && directKeyBegin == -1
      modifies this, scratch
      ensures log == old(log) && phase == old(phase)
      ensures ok ==>
        Inv(chunk, i) && directKeyBegin == -1 && directValueBegin == -1 && Abs(chunk, i) == old(Abs(chunk, i))
      ensures !callbackBreak
      ensures !ok ==> Need(old(Abs(chunk, i))) > scratch.Length - 1
    {
      assert !callbackBreak;
      hide Abs, KeyText, ValueText, StackText, ScratchOk, DirectOk, Need, Inv;
      ok := true;
      if directValueBegin != -1 {
        ghost var stop, st := scratchLength, Abs(chunk, i);
        DirectValueIs(chunk, i);
        valueBegin := scratchLength;
        ok := CopyBehind(chunk[directValueBegin..directValueEnd + 1]);
        if !ok {
          return;
        }
        valueEnd := scratchLength - 1;
        directValueBegin, directValueEnd := -1, -1;
        ValueInScratch(chunk, i, st, stop);
      }
    }

    method CopyBehind(t: Text) returns (ok: bool)
      requires 1 <= scratchLength <= scratch.Length
      modifies this`scratchLength, scratch
      ensures ok <==> old(scratchLength) + |t| <= scratch.Length
      ensures ok ==>
        scratchLength == old(scratchLength) + |t| && scratch[old(scratchLength)..scratchLength] == t &&
        scratch[1..old(scratchLength)] == old(scratch[1..scratchLength])
    {
      ghost var stop, whole := scratchLength, scratch[..scratchLength];
      ArraySlice(scratch, 1, stop, stop);
      ok := CopyToScratch(t);
      if ok {
        ghost var longer := scratch[..scratchLength];
        ArraySlice(scratch, stop, scratchLength, scratchLength);
        ArraySlice(scratch, 1, stop, scratchLength);
        assert longer[stop..] == t && longer[1..stop] == whole[1..];
      }
    }

    /** kason_stream_preserve_direct: moves what direct pointers show into scratch. */
    method PreserveDirect(chunk: Text, ghost i: nat) returns (ok: bool)
      requires Inv(chunk, i)
      modifies this, scratch
      ensures log == old(log) && phase == old(phase)
      ensures ok ==>
        Inv(chunk, i) && directKeyBegin == -1 && directValueBegin == -1 && Abs(chunk, i) == old(Abs(chunk, i))
      ensures !callbackBreak
      ensures !ok ==> Need(old(Abs(chunk, i))) > scratch.Length - 1
    {
      ok := PreserveKey(chunk, i);
      if ok {
        ok := PreserveValue(chunk, i);
      }
    }

    /** What handling the bytes from `i` up to `j` of the chunk amounts to. */
    ghost predicate Moved(chunk: Text, i: nat, j: nat, before: State, log0: seq<StreamEvent>, r: FeedResult)
      reads this, scratch
      requires i <= j <= |chunk|
    {
      var o := RunText(before, chunk[i..j]);
      Unbroken(policy, callbackBreak, log0, log) &&
      match r
      case Success =>
        if callbackBreak then log != [] && policy(log) && Flat(log) <= Flat(log0) + o.events
        else Inv(chunk, j) && Fed(before, chunk[i..j], Abs(chunk, j), log0, log)
      case Error => o.Fail? && !callbackBreak && Flat(log) <= Flat(log0) + o.events
      case BufferFull =>
        o.Run? && !callbackBreak && Need(o.state) > scratch.Length - 1 && Flat(log) <= Flat(log0) + o.events
      case Incomplete => false
    }

    /** A byte that shows nothing. */
    lemma SilentMove(chunk: Text, i: nat, before: State)
      requires i < |chunk| && Inv(chunk, i + 1) && RunText(before, chunk[i..i + 1]) == Run(Abs(chunk, i + 1), [])
      ensures Moved(chunk, i, i + 1, before, log, Success)
    {
      hide RunText, KeyText, ValueText, StackText, ScratchOk, DirectOk, Abs;
      FedSilently(before, chunk[i..i + 1], Abs(chunk, i + 1), log);
    }

    /** A byte that the machine rejects. */
    lemma RejectingMove(chunk: Text, i: nat, before: State)
      requires i < |chunk| && !callbackBreak && RunText(before, chunk[i..i + 1]).Fail?
      ensures Moved(chunk, i, i + 1, before, log, Error)
    {
      hide RunText, Abs, Inv, Flat;
      PrefixOfEvents(log, RunText(before, chunk[i..i + 1]));
    }

    /** A byte that shows one event. */
    lemma ShowingMove(chunk: Text, i: nat, before: State, e: StreamEvent, log0: seq<StreamEvent>)
      requires i < |chunk| && log == log0 + [e] && callbackBreak == policy(log) && e.kind != StreamPart
      requires RunText(before, chunk[i..i + 1]).Run? && RunText(before, chunk[i..i + 1]).events == [e]
      requires !callbackBreak ==> Inv(chunk, i + 1) && RunText(before, chunk[i..i + 1]).state == Abs(chunk, i + 1)
      ensures Moved(chunk, i, i + 1, before, log0, Success)
    {
      hide RunText, Abs, Inv, Flat, FlatEvent;
      FlatValue(log0, e);
    }

    /** kason_stream_emit. */
    method EmitEvent(e: StreamEvent)
      requires !callbackBreak
      modifies this
      ensures unchanged(this) || log == old(log) + [e]
      ensures log == old(log) + [e] && callbackBreak == policy(log)
      ensures !callbackBreak ==> complete == old(complete) && phase == old(phase)
      ensures unchanged(`scratchLength, `mode, `endToken, `keyBegin, `keyEnd, `valueBegin, `valueEnd, `directKeyBegin,
        `directKeyEnd, `directValueBegin, `directValueEnd, `hasKey, `hasEntries, `escapeHexLeft, `containerType,
        `containerString, `str)
    {
      log := log + [e];
      if policy(log) {
        callbackBreak := true;
        complete := true;
        phase := Complete;
      }
    }

    /** The key of the event to come (kason_stream_make_key). */
    method MakeKey(chunk: Text, ghost i: nat) returns (key: Name)
      requires Inv(chunk, i)
      ensures key == NameOf(Abs(chunk, i))
    {
      if !hasKey {
        return NoName;
      }
      return Name(if directKeyBegin != -1 then chunk[directKeyBegin..directKeyEnd + 1] else scratch[keyBegin..keyEnd + 1]);
    }

    // -------------------------------------------- small changes of state

    /** Phases in which nothing is being read. */
    static predicate Between(p: Phase) {
      p == FindRoot || p == FindKeyBegin || p == FindValueSep || p == FindValueBegin || p == FindParamSep || p == Complete
    }

    /** Nothing but the phase changes with the byte at `i`. */
    method GoTo(chunk: Text, ghost i: nat, p: Phase)
      requires i < |chunk| && Inv(chunk, i) && Between(phase) && Between(p)
      requires hasKey ==> p == FindValueSep || p == FindValueBegin
      requires p == FindKeyBegin || p == FindValueSep ==> mode == ObjectMode
      modifies this`phase, this`complete
      ensures Inv(chunk, i + 1) && Abs(chunk, i + 1) == old(Abs(chunk, i)).(phase := p)
    {
      ghost var stop := KeyStop();
      assert (KeyLive() <==> hasKey) && !ValueLive() && phase != InContainer;
      assert stop == if hasKey && directKeyBegin == -1 then keyEnd + 1 else 1;
      phase := p;
      complete := p == Complete;
      assert (KeyLive() <==> hasKey) && !ValueLive() && phase != InContainer;
      assert KeyStop() == stop;
      assert ScratchOk();
      assert DirectOk(chunk, i + 1);
    }

    method SetMode(chunk: Text, ghost i: nat, m: Mode)
      requires Inv(chunk, i) && phase == FindRoot
      modifies this`mode, this`endToken
      ensures mode == m && Inv(chunk, i) && Abs(chunk, i) == old(Abs(chunk, i)).(mode := m)
    {
      mode := m;
      endToken := EndToken(m);
    }

    /** A string (`begin` behind its quote) or a bare token (`begin` at its first
        byte) starts; a direct pointer shows it. */
    method StartToken(chunk: Text, i: nat, begin: nat, p: Phase)
      requires i < |chunk| && Inv(chunk, i) && (phase == FindRoot || phase == FindValueBegin)
      requires (begin == i + 1 && p == FindStringEnd) || (begin == i && p == FindGenericEnd)
      modifies this`phase, this`directValueBegin, this`directValueEnd
      ensures Inv(chunk, i + 1)
      ensures Abs(chunk, i + 1) == old(Abs(chunk, i)).(value := chunk[begin..i + 1], phase := p)
    {
      directValueBegin, directValueEnd := begin, i;
      phase := p;
    }

    /** A key starts behind the quote at `i`. */
    method StartKey(chunk: Text, i: nat)
      requires i < |chunk| && Inv(chunk, i) && phase == FindKeyBegin
      modifies this
      ensures log == old(log)
      ensures Inv(chunk, i + 1) && Abs(chunk, i + 1) == Cleared(old(Abs(chunk, i))).(phase := FindKeyEnd)
    {
      ClearScratch();
      directKeyBegin, directKeyEnd := i + 1, i;
      phase := FindKeyEnd;
    }

    /** Nothing is pending. */
    lemma NothingPending(chunk: Text, j: nat)
      requires j <= |chunk| && !callbackBreak && endToken == EndToken(mode) && 1 < scratch.Length && (complete <==> phase == Complete)
      requires Between(phase) && (phase == FindKeyBegin ==> mode == ObjectMode) && phase != FindValueSep
      requires scratchLength == 1 && !hasKey && directKeyBegin == -1 && directValueBegin == -1
      ensures Inv(chunk, j)
      ensures Abs(chunk, j) == State(mode, phase, hasEntries, false, [], [], escapeHexLeft, [], containerType, containerString, str)
    {
      assert !KeyLive() && !ValueLive() && KeyStop() == 1;
    }

    /** The pending key and token, or the stack, are forgotten; `entry` notes that a
        member is complete. `st` is the state before, as far as it lives on. */
    method ClearAndGo(chunk: Text, ghost j: nat, entry: bool, p: Phase, ghost st: State)
      requires j <= |chunk| && !callbackBreak && endToken == EndToken(mode) && 1 < scratch.Length && Between(p)
      requires p == FindKeyBegin ==> mode == ObjectMode
      requires p != FindValueSep
      requires st.mode == mode && st.hasEntries == hasEntries && st.containerType == containerType
      requires st.inString == containerString && st.str == str
      modifies this
      ensures log == old(log)
      ensures Inv(chunk, j)
      ensures Abs(chunk, j) == Cleared(st).(hasEntries := st.hasEntries || entry, phase := p)
    {
      hide Inv, Abs;
      hasEntries := hasEntries || entry;
      phase := p;
      complete := p == Complete;
      ClearScratch();
      NothingPending(chunk, j);
    }

    /** A key is being read, and it lies in scratch. */
    ghost predicate KeyInScratch(chunk: Text, i: nat)
      reads this
    {
      i <= |chunk| && !callbackBreak && endToken == EndToken(mode) && !complete && mode == ObjectMode &&
      (phase == FindKeyEnd || phase == KeyEscape) && directKeyBegin == -1 && directValueBegin == -1 && !hasKey &&
      keyBegin == 1 && (phase == FindKeyEnd ==> keyEnd + 1 == scratchLength) &&
      1 < scratch.Length && 1 <= scratchLength <= scratch.Length
    }

    lemma KeyPending(chunk: Text, i: nat)
      requires (phase == FindKeyEnd || phase == KeyEscape) && directKeyBegin == -1
      requires Inv(chunk, i) || KeyInScratch(chunk, i)
      ensures Inv(chunk, i) && KeyInScratch(chunk, i)
      ensures Abs(chunk, i) ==
        State(mode, phase, hasEntries, false, scratch[1..scratchLength], [], escapeHexLeft, [], containerType, containerString, str)
    {
    }

    /** One more byte of a key in scratch. */
    method ExtendKey(chunk: Text, i: nat, p: Phase, hex: nat) returns (ok: bool)
      requires i < |chunk| && Inv(chunk, i) && (phase == FindKeyEnd || phase == KeyEscape) && directKeyBegin == -1
      requires p == FindKeyEnd || p == KeyEscape
      modifies this, scratch
      ensures log == old(log) && !callbackBreak
      ensures ok ==> Inv(chunk, i + 1)
      ensures ok ==>
        Abs(chunk, i + 1) ==
          old(Abs(chunk, i)).(key := old(Abs(chunk, i)).key + [chunk[i]], phase := p, hexLeft := hex)
      ensures !ok ==> |old(Abs(chunk, i)).key| + 1 > scratch.Length - 1
    {
      KeyPending(chunk, i);
      hide Inv, Abs;
      ghost var key := scratch[1..scratchLength];
      ok := AppendScratch(chunk[i]);
      if ok {
        assert scratch[1..scratchLength] == scratch[..scratchLength - 1][1..] + [chunk[i]];
        keyEnd := scratchLength - 1;
        phase := p;
        escapeHexLeft := hex;
        assert scratch[1..scratchLength] == key + [chunk[i]];
        KeyPending(chunk, i + 1);
      }
    }

    /** One more byte of a token in scratch. */
    method ExtendValue(chunk: Text, i: nat, p: Phase, hex: nat, ghost st: State) returns (ok: bool)
      requires i < |chunk| && Inv(chunk, i) && st == Abs(chunk, i) && ValueLive() && directValueBegin == -1
      requires p == FindStringEnd || p == StringEscape || p == FindGenericEnd
      modifies this, scratch
      ensures log == old(log) && !callbackBreak
      ensures ok ==> Inv(chunk, i + 1)
      ensures ok ==> Abs(chunk, i + 1) == st.(value := st.value + [chunk[i]], phase := p, hexLeft := hex)
      ensures !ok ==> |st.key| + |st.value| + 1 > scratch.Length - 1
    {
      ghost var stop := KeyStop();
      assert stop == (if hasKey then keyEnd + 1 else 1) && directKeyBegin == -1 && (KeyLive() <==> hasKey);
      ok := AppendBehind(chunk[i], stop);
      if ok {
        NoteAppended(chunk, i, p, hex, st.(value := st.value + [chunk[i]]));
      }
    }

    /** The bookkeeping after a byte has been appended to a token in scratch. */
    method NoteAppended(chunk: Text, ghost i: nat, p: Phase, hex: nat, ghost st: State)
      requires i < |chunk| && !callbackBreak && endToken == EndToken(mode) && !complete && 1 < scratchLength <= scratch.Length
      requires ValueLive() && directKeyBegin == -1 && directValueBegin == -1 && ModeOk()
      requires p == FindStringEnd || p == StringEscape || p == FindGenericEnd
      requires hasKey ==> keyBegin == 1 && 1 <= keyEnd + 1 < scratchLength
      requires valueBegin == if hasKey then keyEnd + 1 else 1
      requires st == State(mode, phase, hasEntries, hasKey, if hasKey then scratch[1..keyEnd + 1] else [],
        scratch[valueBegin..scratchLength], escapeHexLeft, [], containerType, containerString, str)
      modifies this`valueEnd, this`phase, this`escapeHexLeft
      ensures Inv(chunk, i + 1) && Abs(chunk, i + 1) == st.(phase := p, hexLeft := hex)
    {
      valueEnd := scratchLength - 1;
      phase := p;
      escapeHexLeft := hex;
    }

    /** kason_stream_append_scratch behind a token that starts at `stop`. */
    method AppendBehind(c: Byte, ghost stop: int) returns (ok: bool)
      requires 1 <= stop <= scratchLength <= scratch.Length
      modifies this`scratchLength, scratch
      ensures ok <==> old(scratchLength) < scratch.Length
      ensures ok ==> scratchLength == old(scratchLength) + 1 && scratch[1..stop] == old(scratch[1..stop])
      ensures ok ==> scratch[stop..scratchLength] == old(scratch[stop..scratchLength]) + [c]
    {
      ghost var before := scratch[..scratchLength];
      ArraySlice(scratch, 1, stop, scratchLength);
      ArraySlice(scratch, stop, scratchLength, scratchLength);
      ok := AppendScratch(c);
      if ok {
        ghost var longer := scratch[..scratchLength];
        assert longer == before + [c];
        SliceBehind(before, c, stop);
        ArraySlice(scratch, 1, stop, scratchLength);
        ArraySlice(scratch, stop, scratchLength, scratchLength);
      }
    }

    // ------------------------------------------------------- the phases

    method OnRoot(chunk: Text, i: nat) returns (r: FeedResult)
      requires i < |chunk| && Inv(chunk, i) && phase == FindRoot
      modifies this
      ensures Moved(chunk, i, i + 1, old(Abs(chunk, i)), old(log), r)
    {
      hide RunText, Moved, Inv, Abs, KeyText, ValueText, StackText, ScratchOk, DirectOk;
      ghost var st := Abs(chunk, i);
      StepAt(chunk, i);
      assert Step(st, chunk[i]) == StepRoot(st, chunk[i]);
      hide Step;
      var c := chunk[i];
      if IsWhitespace(c) {
        GoTo(chunk, i, FindRoot);
      } else if c == LBRACE {
        SetMode(chunk, i, ObjectMode);
        GoTo(chunk, i, FindKeyBegin);
      } else if c == LBRACKET {
        SetMode(chunk, i, ArrayMode);
        GoTo(chunk, i, FindValueBegin);
      } else if c == QUOTE {
        SetMode(chunk, i, StringMode);
        StartToken(chunk, i, i + 1, FindStringEnd);
      } else {
        SetMode(chunk, i, GenericMode);
        StartToken(chunk, i, i, FindGenericEnd);
      }
      r := Success;
      SilentMove(chunk, i, st);
    }

    method OnKeyBegin(chunk: Text, i: nat) returns (r: FeedResult)
      requires i < |chunk| && Inv(chunk, i) && phase == FindKeyBegin
      modifies this
      ensures Moved(chunk, i, i + 1, old(Abs(chunk, i)), old(log), r)
    {
      hide RunText, Fed, Inv, Abs, KeyText, ValueText, StackText, ScratchOk, DirectOk;
      ghost var st := Abs(chunk, i);
      StepAt(chunk, i);
      assert Step(st, chunk[i]) == StepKeyBegin(st, chunk[i]);
      hide Step;
      var c := chunk[i];
      if IsWhitespace(c) {
        GoTo(chunk, i, FindKeyBegin);
      } else if c == RBRACE && !hasEntries {
        GoTo(chunk, i, Complete);
      } else if c == QUOTE {
        StartKey(chunk, i);
      } else {
        return Error;
      }
      r := Success;
      FedSilently(st, chunk[i..i + 1], Abs(chunk, i + 1), log);
    }

    method OnKeyEnd(chunk: Text, i: nat) returns (r: FeedResult, j: nat)
      requires i < |chunk| && Inv(chunk, i) && phase == FindKeyEnd
      modifies this, scratch
      ensures i < j <= |chunk|
      ensures Moved(chunk, i, j, old(Abs(chunk, i)), old(log), r)
    {
      hide RunText, Fed, Inv, Abs, KeyText, ValueText, StackText, ScratchOk, DirectOk, ValidBody;
      ghost var st := Abs(chunk, i);
      StepAt(chunk, i);
      assert Step(st, chunk[i]) == StepKeyEnd(st, chunk[i]);
      hide Step;
      var c := chunk[i];
      j := i + 1;
      r := Success;
      if c == BACKSLASH {
        var ok := PreserveDirect(chunk, i);
        if ok {
          ok := ExtendKey(chunk, i, KeyEscape, 0);
        }
        if !ok {
          return BufferFull, j;
        }
      } else if c == QUOTE {
        var valid := FinishKey(chunk, i);
        if !valid {
          return Error, j;
        }
      } else if IsControl(c) {
        return Error, j;
      } else if directKeyBegin != -1 {
        j := ExtendDirectKey(chunk, i, st);
      } else {
        var ok := ExtendKey(chunk, i, FindKeyEnd, escapeHexLeft);
        if !ok {
          return BufferFull, j;
        }
      }
      FedSilently(st, chunk[i..j], Abs(chunk, j), log);
    }

    /** Where a key lies that has been read up to its quote. */
    ghost predicate KeyWhole(chunk: Text, i: nat)
      reads this
    {
      i <= |chunk| && !callbackBreak && endToken == EndToken(mode) && !complete && mode == ObjectMode && directValueBegin == -1 &&
      1 < scratch.Length &&
      if directKeyBegin == -1 then keyBegin == 1 && 1 <= keyEnd + 1 == scratchLength <= scratch.Length
      else scratchLength == 1 && 0 <= directKeyBegin <= directKeyEnd + 1 <= i
    }

    ghost function WholeKey(chunk: Text, i: nat): Text
      reads this, scratch
      requires KeyWhole(chunk, i)
    {
      if directKeyBegin != -1 then chunk[directKeyBegin..directKeyEnd + 1] else scratch[keyBegin..keyEnd + 1]
    }

    lemma KeyRead(chunk: Text, i: nat)
      requires Inv(chunk, i) && phase == FindKeyEnd
      ensures !hasKey && (directKeyBegin != -1 ==> directKeyEnd + 1 == i)
      ensures KeyWhole(chunk, i) && Abs(chunk, i) ==
        State(mode, phase, hasEntries, false, WholeKey(chunk, i), [], escapeHexLeft, [], containerType, containerString, str)
    {
    }

    lemma KeyGoesOn(chunk: Text, i: nat)
      requires KeyWhole(chunk, i) && !hasKey && phase == FindKeyEnd && directKeyBegin != -1 && directKeyEnd + 1 == i
      ensures Inv(chunk, i) && Abs(chunk, i) ==
        State(mode, phase, hasEntries, false, WholeKey(chunk, i), [], escapeHexLeft, [], containerType, containerString, str)
    {
    }

    lemma KeyHeld(chunk: Text, i: nat)
      requires KeyWhole(chunk, i) && hasKey && phase == FindValueSep
      ensures Inv(chunk, i) && Abs(chunk, i) ==
        State(mode, phase, hasEntries, true, WholeKey(chunk, i), [], escapeHexLeft, [], containerType, containerString, str)
    {
    }

    /** The key ends at the quote at `i` and is validated as a whole. */
    method FinishKey(chunk: Text, ghost i: nat) returns (valid: bool)
      requires i < |chunk| && Inv(chunk, i) && phase == FindKeyEnd
      modifies this`phase, this`hasKey
      ensures valid <==> ValidBody(old(Abs(chunk, i)).key)
      ensures valid ==>
        Inv(chunk, i + 1) && Abs(chunk, i + 1) == old(Abs(chunk, i)).(hasKey := true, phase := FindValueSep)
    {
      KeyRead(chunk, i);
      hide Inv, Abs, ValidBody;
      valid := StringIsValid(
        if directKeyBegin != -1 then chunk[directKeyBegin..directKeyEnd + 1] else scratch[keyBegin..keyEnd + 1]);
      if valid {
        hasKey := true;
        phase := FindValueSep;
        KeyHeld(chunk, i + 1);
      }
    }

    /** The run of plain bytes from `i` on (a loop inside the key and string cases). */
    method PlainEnd(chunk: Text, i: nat) returns (j: nat)
      requires i < |chunk| && IsPlainByte(chunk[i])
      ensures i < j <= |chunk|
      ensures forall k | i <= k < j :: IsPlainByte(chunk[k])
    {
      j := i + 1;
      while j < |chunk| && chunk[j] >= 0x20 && chunk[j] != QUOTE && chunk[j] != BACKSLASH
        invariant i < j <= |chunk|
        invariant forall k | i <= k < j :: IsPlainByte(chunk[k])
      {
        j := j + 1;
      }
    }

    /** A direct key takes in the run of plain bytes from `i` on. */
    method ExtendDirectKey(chunk: Text, i: nat, ghost st: State) returns (j: nat)
      requires i < |chunk| && Inv(chunk, i) && st == Abs(chunk, i)
      requires phase == FindKeyEnd && directKeyBegin != -1 && IsPlainByte(chunk[i])
      modifies this`directKeyEnd
      ensures i < j <= |chunk| && Inv(chunk, j)
      ensures RunText(st, chunk[i..j]) == Run(Abs(chunk, j), [])
    {
      hide RunText, KeyText, ValueText, StackText, ScratchOk, DirectOk;
      j := PlainEnd(chunk, i);
      PlainKeyRun(st, chunk[i..j]);
      MoveDirectKey(chunk, i, j, st);
    }

    method MoveDirectKey(chunk: Text, ghost i: nat, j: nat, ghost st: State)
      requires i < j <= |chunk| && Inv(chunk, i) && st == Abs(chunk, i) && phase == FindKeyEnd && directKeyBegin != -1
      modifies this`directKeyEnd
      ensures Inv(chunk, j) && Abs(chunk, j) == st.(key := st.key + chunk[i..j])
    {
      KeyRead(chunk, i);
      hide Inv, Abs;
      DirectGrows(chunk, directKeyBegin, i, j);
      directKeyEnd := j - 1;
      KeyGoesOn(chunk, j);
    }

    method OnKeyEscape(chunk: Text, i: nat) returns (r: FeedResult)
      requires i < |chunk| && Inv(chunk, i) && phase == KeyEscape
      modifies this, scratch
      ensures Moved(chunk, i, i + 1, old(Abs(chunk, i)), old(log), r)
    {
      hide RunText, Fed, Inv, Abs, KeyText, ValueText, StackText, ScratchOk, DirectOk;
      ghost var st := Abs(chunk, i);
      StepAt(chunk, i);
      assert Step(st, chunk[i]) == StepKeyEscape(st, chunk[i]);
      hide Step;
      var valid, p, hex := ProcessEscape(chunk[i], FindKeyEnd);
      if !valid {
        return Error;
      }
      var ok := ExtendKey(chunk, i, p, hex);
      if !ok {
        return BufferFull;
      }
      r := Success;
      FedSilently(st, chunk[i..i + 1], Abs(chunk, i + 1), log);
    }

    /** The decisions of kason_stream_process_escape: the phase and the number of
        hexadecimal digits still to come after `c`. */
    method ProcessEscape(c: Byte, restore: Phase) returns (valid: bool, p: Phase, hex: nat)
      ensures valid <==> if escapeHexLeft > 0 then IsHexDigit(c) else c == LOWER_U || IsSimpleEscape(c)
      ensures valid ==>
        if escapeHexLeft > 0 then
          hex == escapeHexLeft - 1 && p == if hex == 0 then restore else phase
        else if c == LOWER_U then hex == 4 && p == phase
        else hex == 0 && p == restore
    {
      valid, p, hex := true, phase, escapeHexLeft;
      if escapeHexLeft > 0 {
        if !IsHexDigit(c) {
          return false, p, hex;
        }
        hex := hex - 1;
        if hex == 0 {
          p := restore;
        }
      } else if c == LOWER_U {
        hex := 4;
      } else if IsSimpleEscape(c) {
        p := restore;
      } else {
        valid := false;
      }
    }

    method OnValueSep(chunk: Text, i: nat) returns (r: FeedResult)
      requires i < |chunk| && Inv(chunk, i) && phase == FindValueSep
      modifies this
      ensures Moved(chunk, i, i + 1, old(Abs(chunk, i)), old(log), r)
    {
      hide RunText, Fed, Inv, Abs, KeyText, ValueText, StackText, ScratchOk, DirectOk;
      ghost var st := Abs(chunk, i);
      StepAt(chunk, i);
      assert Step(st, chunk[i]) == StepValueSep(st, chunk[i]);
      hide Step;
      var c := chunk[i];
      if IsWhitespace(c) {
        GoTo(chunk, i, FindValueSep);
      } else if c == COLON {
        GoTo(chunk, i, FindValueBegin);
      } else {
        return Error;
      }
      r := Success;
      FedSilently(st, chunk[i..i + 1], Abs(chunk, i + 1), log);
    }

    method OnParamSep(chunk: Text, i: nat) returns (r: FeedResult)
      requires i < |chunk| && Inv(chunk, i) && phase == FindParamSep
      modifies this
      ensures Moved(chunk, i, i + 1, old(Abs(chunk, i)), old(log), r)
    {
      hide RunText, Fed, Inv, Abs, KeyText, ValueText, StackText, ScratchOk, DirectOk;
      ghost var st := Abs(chunk, i);
      StepAt(chunk, i);
      assert Step(st, chunk[i]) == StepParamSep(st, chunk[i]);
      hide Step;
      var c := chunk[i];
      if IsWhitespace(c) {
        GoTo(chunk, i, FindParamSep);
      } else if c == COMMA {
        GoTo(chunk, i, if mode == ObjectMode then FindKeyBegin else FindValueBegin);
      } else if c == endToken {
        GoTo(chunk, i, Complete);
      } else {
        return Error;
      }
      r := Success;
      FedSilently(st, chunk[i..i + 1], Abs(chunk, i + 1), log);
    }

    /** kason_stream_emit while the state stays as it is. */
    method Report(e: StreamEvent, ghost chunk: Text, ghost i: nat)
      requires Inv(chunk, i)
      modifies this
      ensures log == old(log) + [e] && callbackBreak == policy(log)
      ensures !callbackBreak ==> Inv(chunk, i) && Abs(chunk, i) == old(Abs(chunk, i))
    {
      EmitEvent(e);
    }

    /** The token behind direct or scratch pointers (kason_stream_value_begin/end). */
    method Token(chunk: Text, ghost i: nat) returns (t: Text)
      requires Inv(chunk, i) && ValueLive() && phase != StringEscape
      ensures t == Abs(chunk, i).value
    {
      return if directValueBegin != -1 then chunk[directValueBegin..directValueEnd + 1]
        else scratch[valueBegin..valueEnd + 1];
    }

    method OnValueBegin(chunk: Text, i: nat) returns (r: FeedResult)
      requires i < |chunk| && Inv(chunk, i) && phase == FindValueBegin
      modifies this, scratch
      ensures Moved(chunk, i, i + 1, old(Abs(chunk, i)), old(log), r)
    {
      hide RunText, Fed, Inv, Abs, KeyText, ValueText, StackText, ScratchOk, DirectOk, StartContainer;
      ghost var st := Abs(chunk, i);
      StepAt(chunk, i);
      assert Step(st, chunk[i]) == StepValueBegin(st, chunk[i]);
      hide Step;
      var c := chunk[i];
      if IsWhitespace(c) {
        GoTo(chunk, i, FindValueBegin);
      } else if c == endToken {
        if mode == ArrayMode && !hasEntries {
          GoTo(chunk, i, Complete);
        } else {
          return Error;
        }
      } else if c == COMMA {
        return Error;
      } else if c == QUOTE {
        StartToken(chunk, i, i + 1, FindStringEnd);
      } else if IsOpen(c) {
        OpenContainer(chunk, i, st);
        return Success;
      } else {
        StartToken(chunk, i, i, FindGenericEnd);
      }
      r := Success;
      FedSilently(st, chunk[i..i + 1], Abs(chunk, i + 1), log);
    }

    /** kason_stream_start_container. */
    method OpenContainer(chunk: Text, i: nat, ghost st: State)
      requires i < |chunk| && Inv(chunk, i) && st == Abs(chunk, i) && phase == FindValueBegin && IsOpen(chunk[i])
      requires RunText(st, chunk[i..i + 1]) == StreamSpec.StartContainer(st, chunk[i])
      modifies this, scratch
      ensures Moved(chunk, i, i + 1, st, old(log), Success)
    {
      hide RunText, Moved, NameOf, KeyText, ValueText, StackText, ScratchOk, DirectOk;
      var c := chunk[i];
      var key := MakeKey(chunk, i);
      containerType := OpenType(c);
      var e := StreamEvent(StreamBegin, containerType, key, [c]);
      EmitEvent(e);
      if callbackBreak {
        ShowingMove(chunk, i, st, e, old(log));
        return;
      }
      EnterContainer(chunk, i, st);
      ShowingMove(chunk, i, st, e, old(log));
    }

    /** The stack holds the open bracket. */
    method EnterContainer(chunk: Text, i: nat, ghost st: State)
      requires i < |chunk| && 1 < scratch.Length && !callbackBreak && endToken == EndToken(mode) && !complete
      requires mode == st.mode && hasEntries == st.hasEntries && containerType == OpenType(chunk[i])
      modifies this, scratch
      ensures log == old(log) && !callbackBreak
      ensures Inv(chunk, i + 1)
      ensures Abs(chunk, i + 1) == StreamSpec.StartContainer(st, chunk[i]).state
    {
      ClearScratch();
      var ok := AppendScratch(chunk[i]);
      containerString := false;
      str := FRESH;
      phase := InContainer;
      assert scratch[1..2] == [chunk[i]];
    }

    method OnStringEscape(chunk: Text, i: nat) returns (r: FeedResult)
      requires i < |chunk| && Inv(chunk, i) && phase == StringEscape
      modifies this, scratch
      ensures Moved(chunk, i, i + 1, old(Abs(chunk, i)), old(log), r)
    {
      hide RunText, Fed, Inv, Abs, KeyText, ValueText, StackText, ScratchOk, DirectOk;
      ghost var st := Abs(chunk, i);
      StepAt(chunk, i);
      assert Step(st, chunk[i]) == StepStringEscape(st, chunk[i]);
      hide Step;
      var valid, p, hex := ProcessEscape(chunk[i], FindStringEnd);
      if !valid {
        return Error;
      }
      var ok := ExtendValue(chunk, i, p, hex, st);
      if !ok {
        return BufferFull;
      }
      r := Success;
      FedSilently(st, chunk[i..i + 1], Abs(chunk, i + 1), log);
    }

    method OnStringEnd(chunk: Text, i: nat) returns (r: FeedResult, j: nat)
      requires i < |chunk| && Inv(chunk, i) && phase == FindStringEnd
      modifies this, scratch
      ensures i < j <= |chunk|
      ensures Moved(chunk, i, j, old(Abs(chunk, i)), old(log), r)
    {
      hide RunText, Fed, Inv, Abs, KeyText, ValueText, StackText, ScratchOk, DirectOk, CommitString, ValidBody;
      ghost var st := Abs(chunk, i);
      StepAt(chunk, i);
      assert Step(st, chunk[i]) == StepStringEnd(st, chunk[i]);
      hide Step;
      var c := chunk[i];
      j := i + 1;
      r := Success;
      if c == BACKSLASH {
        var ok := PreserveDirect(chunk, i);
        if ok {
          ok := ExtendValue(chunk, i, StringEscape, 0, st);
        }
        if !ok {
          return BufferFull, j;
        }
      } else if c == QUOTE {
        r := CloseString(chunk, i, st);
        return;
      } else if IsControl(c) {
        return Error, j;
      } else if directValueBegin != -1 {
        j := PlainEnd(chunk, i);
        PlainStringRun(st, chunk[i..j]);
        ExtendDirectValue(chunk, i, j, st);
      } else {
        var ok := ExtendValue(chunk, i, FindStringEnd, escapeHexLeft, st);
        if !ok {
          return BufferFull, j;
        }
      }
      FedSilently(st, chunk[i..j], Abs(chunk, j), log);
    }

    /** A token is being read in the chunk; its key may lie in scratch. */
    ghost predicate ValueInChunk(chunk: Text, i: nat)
      reads this
    {
      (phase == FindStringEnd || phase == FindGenericEnd) && directValueBegin != -1 &&
      0 <= directValueBegin <= directValueEnd + 1 == i <= |chunk| &&
      !callbackBreak && endToken == EndToken(mode) && !complete && (hasKey ==> mode == ObjectMode) && 1 < scratch.Length &&
      if hasKey && directKeyBegin == -1 then keyBegin == 1 && 1 <= keyEnd + 1 == scratchLength <= scratch.Length
      else scratchLength == 1 && if hasKey then 0 <= directKeyBegin <= directKeyEnd + 1 <= i else directKeyBegin == -1
    }

    ghost function KeyBefore(chunk: Text, i: nat): Text
      reads this, scratch
      requires ValueInChunk(chunk, i)
    {
      if !hasKey then [] else if directKeyBegin != -1 then chunk[directKeyBegin..directKeyEnd + 1] else scratch[keyBegin..keyEnd + 1]
    }

    lemma ValueRead(chunk: Text, i: nat)
      requires Inv(chunk, i) && (phase == FindStringEnd || phase == FindGenericEnd) && directValueBegin != -1
      ensures ValueInChunk(chunk, i) && Abs(chunk, i) ==
        State(mode, phase, hasEntries, hasKey, KeyBefore(chunk, i), chunk[directValueBegin..directValueEnd + 1], escapeHexLeft, [],
          containerType, containerString, str)
    {
    }

    lemma ValueGoesOn(chunk: Text, i: nat)
      requires ValueInChunk(chunk, i)
      ensures Inv(chunk, i) && Abs(chunk, i) ==
        State(mode, phase, hasEntries, hasKey, KeyBefore(chunk, i), chunk[directValueBegin..directValueEnd + 1], escapeHexLeft, [],
          containerType, containerString, str)
    {
    }

    /** A direct token takes in the bytes up to `j`. */
    method ExtendDirectValue(chunk: Text, ghost i: nat, j: nat, ghost st: State)
      requires i < j <= |chunk| && Inv(chunk, i) && st == Abs(chunk, i)
      requires (phase == FindStringEnd || phase == FindGenericEnd) && directValueBegin != -1
      modifies this`directValueEnd
      ensures Inv(chunk, j) && Abs(chunk, j) == st.(value := st.value + chunk[i..j])
    {
      ValueRead(chunk, i);
      hide Inv, Abs;
      ghost var key := KeyBefore(chunk, i);
      DirectGrows(chunk, directValueBegin, i, j);
      directValueEnd := j - 1;
      assert ValueInChunk(chunk, j) && KeyBefore(chunk, j) == key;
      hide ValueInChunk, KeyBefore;
      ValueGoesOn(chunk, j);
    }

    lemma DirectGrows(chunk: Text, begin: int, i: nat, j: nat)
      requires 0 <= begin <= i <= j <= |chunk|
      ensures chunk[begin..j] == chunk[begin..i] + chunk[i..j]
    {
    }

    /** The quote that ends a string value: validation and kason_stream_commit_string. */
    method CloseString(chunk: Text, ghost i: nat, ghost st: State) returns (r: FeedResult)
      requires i < |chunk| && Inv(chunk, i) && st == Abs(chunk, i) && phase == FindStringEnd
      requires RunText(st, chunk[i..i + 1]) == CommitString(st)
      modifies this
      ensures Moved(chunk, i, i + 1, st, old(log), r)
    {
      hide RunText, Moved, NameOf, KeyText, ValueText, StackText, ScratchOk, DirectOk, ValidBody;
      var value := Token(chunk, i);
      var valid := StringIsValid(value);
      if !valid {
        RejectingMove(chunk, i, st);
        return Error;
      }
      var key := MakeKey(chunk, i);
      var e := StreamEvent(StreamValue, StringType, key, value);
      Report(e, chunk, i);
      if callbackBreak {
        ShowingMove(chunk, i, st, e, old(log));
        return Success;
      }
      if InList(mode) {
        ClearAndGo(chunk, i + 1, true, FindParamSep, st);
      } else {
        ClearAndGo(chunk, i + 1, false, Complete, st);
      }
      ShowingMove(chunk, i, st, e, old(log));
      r := Success;
    }

    method OnGenericEnd(chunk: Text, i: nat) returns (r: FeedResult, j: nat)
      requires i < |chunk| && Inv(chunk, i) && phase == FindGenericEnd
      modifies this, scratch
      ensures i < j <= |chunk|
      ensures Moved(chunk, i, j, old(Abs(chunk, i)), old(log), r)
    {
      hide RunText, Fed, Inv, Abs, KeyText, ValueText, StackText, ScratchOk, DirectOk, CommitGeneric, GenericDelimiter;
      ghost var st := Abs(chunk, i);
      StepAt(chunk, i);
      assert Step(st, chunk[i]) == StepGenericEnd(st, chunk[i]);
      hide Step;
      var c := chunk[i];
      j := i + 1;
      r := Success;
      if GenericDelimiter(mode, c) {
        r := CloseGeneric(chunk, i, st);
        return;
      } else if directValueBegin != -1 {
        while j < |chunk| && !GenericDelimiter(mode, chunk[j])
          invariant i < j <= |chunk|
          invariant forall k | i <= k < j :: !GenericDelimiter(mode, chunk[k])
        {
          j := j + 1;
        }
        GenericRun(st, chunk[i..j]);
        ExtendDirectValue(chunk, i, j, st);
      } else {
        var ok := ExtendValue(chunk, i, FindGenericEnd, escapeHexLeft, st);
        if !ok {
          return BufferFull, j;
        }
      }
      FedSilently(st, chunk[i..j], Abs(chunk, j), log);
    }

    /** kason_stream_commit_generic at a delimiter. */
    method CloseGeneric(chunk: Text, i: nat, ghost st: State) returns (r: FeedResult)
      requires i < |chunk| && Inv(chunk, i) && st == Abs(chunk, i) && phase == FindGenericEnd
      requires RunText(st, chunk[i..i + 1]) == CommitGeneric(st, chunk[i])
      modifies this
      ensures Moved(chunk, i, i + 1, st, old(log), r)
    {
      hide RunText, Moved, NameOf, KeyText, ValueText, StackText, ScratchOk, DirectOk, GenericType;
      var delimiter := chunk[i];
      var value := Token(chunk, i);
      var valueType := ClassifyToken(value);
      if valueType.NoToken? {
        RejectingMove(chunk, i, st);
        return Error;
      }
      var key := MakeKey(chunk, i);
      var e := StreamEvent(StreamValue, valueType.valueType, key, value);
      Report(e, chunk, i);
      if callbackBreak {
        ShowingMove(chunk, i, st, e, old(log));
        return Success;
      }
      if mode == GenericMode {
        ClearAndGo(chunk, i + 1, false, Complete, st);
      } else if delimiter == COMMA {
        ClearAndGo(chunk, i + 1, true, if mode == ObjectMode then FindKeyBegin else FindValueBegin, st);
      } else if delimiter == endToken {
        ClearAndGo(chunk, i + 1, true, Complete, st);
      } else {
        ClearAndGo(chunk, i + 1, true, FindParamSep, st);
      }
      ShowingMove(chunk, i, st, e, old(log));
      r := Success;
    }

    /** One byte inside a child container; `closed` when it is the last bracket. */
    method ContainerByte(chunk: Text, k: nat, ghost st: State) returns (r: FeedResult, closed: bool)
      requires k < |chunk| && Inv(chunk, k) && st == Abs(chunk, k) && phase == InContainer
      modifies this, scratch
      ensures log == old(log) && !callbackBreak
      ensures r == Error ==> StepContainer(st, chunk[k]) == Reject()
      ensures r == BufferFull ==>
        StepContainer(st, chunk[k]) == Run(st.(stack := st.stack + [chunk[k]]), [Part(st, [chunk[k]])]) &&
        |st.stack| + 1 > scratch.Length - 1
      ensures r == Success && !closed ==>
        Inv(chunk, k + 1) && phase == InContainer && containerType == st.containerType &&
        StepContainer(st, chunk[k]) == Run(Abs(chunk, k + 1), [Part(st, [chunk[k]])])
      ensures r == Success && closed ==>
        StepContainer(st, chunk[k]) ==
          Run(Cleared(st).(hasEntries := true, phase := FindParamSep),
            [StreamEvent(StreamEnd, st.containerType, NoName, [chunk[k]])]) &&
        mode == st.mode && hasEntries == st.hasEntries && containerType == st.containerType &&
        containerString == st.inString && str == st.str && endToken == EndToken(mode)
      ensures r != Incomplete
    {
      InContainerIs(chunk, k);
      hide Inv, Abs, KeyText, ValueText, StackText, ScratchOk, DirectOk, StringStep, Cleared;
      var c := chunk[k];
      r, closed := Success, false;
      if containerString || c == QUOTE {
        r := StringByte(chunk, k, st);
      } else if IsOpen(c) {
        r := Push(chunk, k, st);
      } else if IsClose(c) {
        if scratchLength <= 1 || !Matches(scratch[scratchLength - 1], c) {
          r := Error;
        } else {
          closed := Pop(chunk, k, st);
        }
      }
    }

    /** Inside a container scratch is the stack, and another byte changes nothing by itself. */
    lemma InContainerIs(chunk: Text, k: nat)
      requires k < |chunk| && Inv(chunk, k) && phase == InContainer
      ensures var st := Abs(chunk, k);
        Exposed(st) && st.phase == InContainer && 2 <= scratchLength <= scratch.Length &&
        |st.stack| == scratchLength - 1 && st.stack[|st.stack| - 1] == scratch[scratchLength - 1] &&
        containerType == st.containerType && containerString == st.inString && str == st.str &&
        Inv(chunk, k + 1) && Abs(chunk, k + 1) == st
    {
    }

    /** One byte of a string in the container, or its opening quote. */
    method StringByte(chunk: Text, k: nat, ghost st: State) returns (r: FeedResult)
      requires k < |chunk| && Inv(chunk, k) && st == Abs(chunk, k) && phase == InContainer
      requires containerString || chunk[k] == QUOTE
      modifies this`containerString, this`str
      ensures r == Error ==> StepContainer(st, chunk[k]) == Reject()
      ensures r == Success ==>
        Inv(chunk, k + 1) && StepContainer(st, chunk[k]) == Run(Abs(chunk, k + 1), [Part(st, [chunk[k]])])
      ensures r == Success || r == Error
    {
      hide StringStep;
      r := Success;
      if containerString {
        var s := StringStep(str, chunk[k]);
        match s {
          case Failed => r := Error;
          case Closed => containerString := false;
          case Goes(a) => str := a;
        }
      } else {
        containerString := true;
        str := FRESH;
      }
    }

    /** kason_stream_container_push. */
    method Push(chunk: Text, k: nat, ghost st: State) returns (r: FeedResult)
      requires k < |chunk| && Inv(chunk, k) && st == Abs(chunk, k) && phase == InContainer
      modifies this, scratch
      ensures log == old(log) && !callbackBreak
      ensures r == BufferFull || r == Success
      ensures r == BufferFull ==> |st.stack| + 1 > scratch.Length - 1
      ensures r == Success ==> Inv(chunk, k + 1) && Abs(chunk, k + 1) == st.(stack := st.stack + [chunk[k]])
    {
      var ok := AppendBehind(chunk[k], 1);
      r := if ok then Success else BufferFull;
    }

    /** The top bracket is matched and removed; the container is closed when it was the last. */
    method Pop(chunk: Text, k: nat, ghost st: State) returns (closed: bool)
      requires k < |chunk| && Inv(chunk, k) && st == Abs(chunk, k) && phase == InContainer
      modifies this`scratchLength
      ensures closed <==> |st.stack| == 1
      ensures !closed ==>
        Inv(chunk, k + 1) && Abs(chunk, k + 1) == st.(stack := st.stack[..|st.stack| - 1])
    {
      scratchLength := scratchLength - 1;
      closed := scratchLength == 1;
      assert scratch[1..scratchLength] == st.stack[..|st.stack| - 1];
    }

    /** The fragment since `i`, if there is one, then the end event. */
    method EmitEnd(chunk: Text, i: nat, j: nat)
      requires i <= j < |chunk| && !callbackBreak
      modifies this
      ensures var part, end := StreamEvent(StreamPart, containerType, NoName, chunk[i..j]),
          StreamEvent(StreamEnd, containerType, NoName, chunk[j..j + 1]);
        var all := (if j > i then old(log) + [part] else old(log)) + [end];
        (log == all || (callbackBreak && log == old(log) + [part])) && (callbackBreak ==> policy(log)) && Unbroken(policy, callbackBreak, old(log), log) &&
        (!callbackBreak ==> complete == old(complete) && phase == old(phase))
      ensures unchanged(`scratchLength, `mode, `endToken, `keyBegin, `keyEnd, `valueBegin, `valueEnd, `directKeyBegin,
        `directKeyEnd, `directValueBegin, `directValueEnd, `hasKey, `hasEntries, `escapeHexLeft, `containerType,
        `containerString, `str)
    {
      if j > i {
        EmitEvent(StreamEvent(StreamPart, containerType, NoName, chunk[i..j]));
        if callbackBreak {
          return;
        }
      }
      EmitEvent(StreamEvent(StreamEnd, containerType, NoName, chunk[j..j + 1]));
    }

    /** The last bracket at `j`. */
    method CloseContainer(chunk: Text, i: nat, j: nat, ghost st: State, ghost now: State)
      requires i <= j < |chunk| && !callbackBreak && endToken == EndToken(mode) && 1 < scratch.Length
      requires now.containerType == st.containerType && now.phase == InContainer
      requires RunText(st, chunk[i..j]) == Run(now, Parts(st.containerType, chunk[i..j]))
      requires StepContainer(now, chunk[j]) ==
        Run(Cleared(now).(hasEntries := true, phase := FindParamSep),
          [StreamEvent(StreamEnd, st.containerType, NoName, [chunk[j]])])
      requires mode == now.mode && hasEntries == now.hasEntries && containerType == st.containerType
      requires containerString == now.inString && str == now.str
      modifies this
      ensures Moved(chunk, i, j + 1, st, old(log), Success)
    {
      hide RunText, StepContainer, KeyText, ValueText, StackText, ScratchOk, DirectOk, Fed, Flat, Parts;
      EndEvents(st, now, chunk, i, j, log);
      EmitEnd(chunk, i, j);
      if !callbackBreak {
        ClearAndGo(chunk, j + 1, true, FindParamSep, now);
      }
    }

    /** kason_stream_process_container. */
    method OnContainer(chunk: Text, i: nat) returns (r: FeedResult, j: nat)
      requires i < |chunk| && Inv(chunk, i) && phase == InContainer
      modifies this, scratch
      ensures i < j <= |chunk|
      ensures Moved(chunk, i, j, old(Abs(chunk, i)), old(log), r)
    {
      hide RunText, StepContainer, KeyText, ValueText, StackText, ScratchOk, DirectOk, ModeOk, Fed, Flat, Parts;
      ghost var st := Abs(chunk, i);
      j := i;
      r := Success;
      RunNothing(st, chunk, i);
      while j < |chunk|
        invariant i <= j <= |chunk| && Inv(chunk, j) && phase == InContainer && log == old(log) && r == Success
        invariant containerType == st.containerType
        invariant RunText(st, chunk[i..j]) == Run(Abs(chunk, j), Parts(st.containerType, chunk[i..j]))
        decreases |chunk| - j
      {
        ghost var now := Abs(chunk, j);
        RunFurther(st, chunk, i, j);
        ContainerStep(now, chunk[j]);
        var closed;
        r, closed := ContainerByte(chunk, j, now);
        if r != Success {
          PrefixOfEvents(log, RunText(st, chunk[i..j + 1]));
          j := j + 1;
          return;
        }
        if closed {
          CloseContainer(chunk, i, j, st, now);
          j := j + 1;
          return;
        }
        PartsSnoc(st.containerType, chunk, i, j);
        j := j + 1;
      }
      Report(StreamEvent(StreamPart, containerType, NoName, chunk[i..]), chunk, j);
      assert chunk[i..] == chunk[i..j];
      FlatPart(old(log), st.containerType, chunk[i..j]);
      if !callbackBreak {
        FedParts(st, chunk, i, j, Abs(chunk, j), old(log));
      }
    }

    // ----------------------------------------------------- the interface

    /** kason_stream_init and kason_stream_reset; a scratch of fewer than two bytes is refused. */
    static method Init(scratchSize: nat, policy: StreamPolicy) returns (stream: Stream?)
      ensures stream == null <==> scratchSize <= 1
      ensures stream != null ==>
        fresh(stream) && fresh(stream.scratch) && stream.scratch.Length == scratchSize && stream.policy == policy &&
        stream.log == [] && !stream.callbackBreak && stream.Valid() && stream.Abs([], 0) == INITIAL
    {
      if scratchSize <= 1 {
        return null;
      }
      stream := new Stream(scratchSize, policy);
    }

    constructor (scratchSize: nat, policy: StreamPolicy)
      requires scratchSize > 1
      ensures fresh(scratch) && scratch.Length == scratchSize && this.policy == policy && log == []
      ensures !callbackBreak && Valid() && Abs([], 0) == INITIAL
    {
      scratch := new Byte[scratchSize];
      this.policy := policy;
      log := [];
      scratchLength := 1;
      mode, phase, complete, callbackBreak, endToken := AutoMode, FindRoot, false, false, 0;
      keyBegin, keyEnd, valueBegin, valueEnd := 0, 0, 0, 0;
      directKeyBegin, directKeyEnd, directValueBegin, directValueEnd := -1, -1, -1, -1;
      hasKey, hasEntries, escapeHexLeft := false, false, 0;
      containerType, containerString, str := UnknownType, false, FRESH;
    }

    /** One round of the loop of kason_stream_feed. */
    method Dispatch(chunk: Text, i: nat) returns (r: FeedResult, j: nat)
      requires i < |chunk| && Inv(chunk, i)
      modifies this, scratch
      ensures i < j <= |chunk|
      ensures Moved(chunk, i, j, old(Abs(chunk, i)), old(log), r)
    {
      hide Moved, Abs, DirectOk, ScratchOk;
      j := i + 1;
      match phase {
        case FindRoot => r := OnRoot(chunk, i);
        case FindKeyBegin => r := OnKeyBegin(chunk, i);
        case FindKeyEnd => r, j := OnKeyEnd(chunk, i);
        case KeyEscape => r := OnKeyEscape(chunk, i);
        case FindValueSep => r := OnValueSep(chunk, i);
        case FindValueBegin => r := OnValueBegin(chunk, i);
        case FindStringEnd => r, j := OnStringEnd(chunk, i);
        case StringEscape => r := OnStringEscape(chunk, i);
        case FindGenericEnd => r, j := OnGenericEnd(chunk, i);
        case FindParamSep => r := OnParamSep(chunk, i);
        case InContainer => r, j := OnContainer(chunk, i);
        case Complete => r := OnComplete(chunk, i);
      }
    }

    method OnComplete(chunk: Text, i: nat) returns (r: FeedResult)
      requires i < |chunk| && Inv(chunk, i) && phase == Complete
      modifies this
      ensures Moved(chunk, i, i + 1, old(Abs(chunk, i)), old(log), r)
    {
      ghost var st := Abs(chunk, i);
      RunOneAt(st, chunk, i);
      assert !hasKey by {
        assert ScratchOk();
      }
      hide RunText, KeyText, ValueText, StackText, ScratchOk, DirectOk;
      if !IsWhitespace(chunk[i]) {
        return Error;
      }
      GoTo(chunk, i, Complete);
      r := Success;
      SilentMove(chunk, i, st);
    }

    /** With no direct pointers the chunk does not matter. */
    lemma Detached(chunk: Text, i: nat, chunk': Text, i': nat)
      requires Inv(chunk, i) && directKeyBegin == -1 && directValueBegin == -1 && i' <= |chunk'|
      ensures Inv(chunk', i') && Abs(chunk', i') == Abs(chunk, i)
    {
    }

    /** kason_stream_feed. Without a break it runs the machine over the chunk; an
        error means that the machine rejects, and a full buffer that some prefix of
        the input needs more scratch than there is. */
    method Feed(chunk: Text) returns (r: FeedResult)
      requires callbackBreak || Valid()
      modifies this, scratch
      ensures old(callbackBreak) ==> r == Success && callbackBreak && log == old(log)
      ensures Unbroken(policy, callbackBreak, old(log), log)
      ensures !old(callbackBreak) ==>
        var st := old(Abs([], 0));
        if r == Error then
          !callbackBreak && RunText(st, chunk).Fail? && Flat(log) <= Flat(old(log)) + RunText(st, chunk).events
        else if r == BufferFull then !callbackBreak && !Fits(st, chunk, scratch.Length)
        else if callbackBreak then
          r == Success && log != [] && policy(log) && Flat(log) <= Flat(old(log)) + RunText(st, chunk).events
        else Valid() && Fed(st, chunk, Abs([], 0), old(log), log) && (r == Success <==> phase == Complete)
    {
      if callbackBreak {
        return Success;
      }
      ghost var st := Abs([], 0);
      Detached([], 0, chunk, 0);
      hide RunText, Step, Moved, Inv, Abs, Fed, Fits, Unbroken;
      FedNothing(st, chunk, log);
      var i := 0;
      while i < |chunk|
        invariant i <= |chunk| && !callbackBreak && Inv(chunk, i)
        invariant Fed(st, chunk[..i], Abs(chunk, i), old(log), log)
        invariant Unbroken(policy, callbackBreak, old(log), log)
        decreases |chunk| - i
      {
        ghost var mid, logged := Abs(chunk, i), log;
        LogSoFar(policy, old(log), log);
        var j;
        r, j := Dispatch(chunk, i);
        MovedCases(chunk, i, j, mid, logged, r);
        UnbrokenSince(policy, callbackBreak, old(log), logged, log);
        if r != Success {
          FedFailed(st, chunk, i, j, mid, old(log), logged, log, r, scratch.Length);
          return;
        }
        if callbackBreak {
          FedBroken(st, chunk, i, j, mid, old(log), logged, log);
          return;
        }
        FedConcat(st, chunk, i, j, mid, Abs(chunk, j), old(log), logged, log);
        i := j;
      }
      assert chunk[..i] == chunk;
      var ok := PreserveDirect(chunk, i);
      if !ok {
        FedOverflow(st, chunk, old(log), log, scratch.Length);
        return BufferFull;
      }
      Detached(chunk, i, [], 0);
      r := if phase == Complete then Success else Incomplete;
    }

    /** kason_stream_commit_generic at the end of the input. */
    method FinishGeneric(ghost st: State) returns (r: FeedResult)
      requires Inv([], 0) && st == Abs([], 0) && phase == FindGenericEnd && mode == GenericMode
      modifies this
      ensures r == Success || (r == Error && !callbackBreak)
      ensures Unbroken(policy, callbackBreak, old(log), log) && (callbackBreak ==> log != [] && policy(log))
      ensures !callbackBreak ==> (r == Success <==> CommitGeneric(st, 0).Run?)
      ensures Flat(log) == Flat(old(log)) + CommitGeneric(st, 0).events
    {
      hide Unbroken, KeyText, ValueText, StackText, ScratchOk, DirectOk, GenericType, NameOf, Flat, FlatEvent;
      var value := Token([], 0);
      var valueType := ClassifyToken(value);
      if valueType.NoToken? {
        assert Flat(log) + [] == Flat(log);
        OneShown(policy, callbackBreak, log, log);
        return Error;
      }
      var key := MakeKey([], 0);
      var e := StreamEvent(StreamValue, valueType.valueType, key, value);
      FlatValue(log, e);
      Report(e, [], 0);
      if !callbackBreak {
        ClearAndGo([], 0, false, Complete, st);
      }
      OneShown(policy, callbackBreak, old(log), log);
      r := Success;
    }

    /** kason_stream_finish. */
    method FinishStream() returns (r: FeedResult)
      requires callbackBreak || Valid()
      modifies this
      ensures r == Success || r == Error
      ensures Unbroken(policy, callbackBreak, old(log), log)
      ensures old(callbackBreak) ==> r == Success && callbackBreak && log == old(log)
      ensures !old(callbackBreak) ==>
        var o := Finish(Run(old(Abs([], 0)), []));
        (if callbackBreak then r == Success && log != [] && policy(log) else r == Success <==> o.Run?) &&
        Flat(log) == Flat(old(log)) + o.events
    {
      if callbackBreak {
        return Success;
      }
      ghost var st := Abs([], 0);
      StateOf(st);
      FinishCases(st, log);
      hide Inv, Abs, CommitGeneric, Finish, Flat;
      if phase == Complete {
        return Success;
      }
      if phase == FindGenericEnd && mode == GenericMode {
        r := FinishGeneric(st);
        return;
      }
      return Error;
    }

    lemma StateOf(st: State)
      requires Inv([], 0) && st == Abs([], 0)
      ensures Exposed(st)
    {
    }

    lemma MovedCases(chunk: Text, i: nat, j: nat, before: State, log0: seq<StreamEvent>, r: FeedResult)
      requires i <= j <= |chunk| && Moved(chunk, i, j, before, log0, r)
      ensures r == Success && callbackBreak ==>
        log != [] && policy(log) && Flat(log) <= Flat(log0) + RunText(before, chunk[i..j]).events
      ensures r == Success && !callbackBreak ==>
        Inv(chunk, j) && Fed(before, chunk[i..j], Abs(chunk, j), log0, log)
      ensures r == Error || r == BufferFull ==>
        !callbackBreak && Stuck(before, chunk[i..j], log0, log, r, scratch.Length)
      ensures r != Incomplete && Unbroken(policy, callbackBreak, log0, log)
    {
    }
  }

  /** The machine rejects, or needs more scratch, within `t`. */
  ghost predicate Stuck(before: State, t: Text, log0: seq<StreamEvent>, log: seq<StreamEvent>, r: FeedResult, size: nat) {
    var o := RunText(before, t);
    (if r == Error then o.Fail? else o.Run? && Need(o.state) > size - 1) && Flat(log) <= Flat(log0) + o.events
  }

  lemma FedNothing(st: State, chunk: Text, log: seq<StreamEvent>)
    ensures Fed(st, chunk[..0], st, log, log)
  {
    assert chunk[..0] == [];
    FedSilently(st, [], st, log);
  }

  lemma FedConcat(st: State, chunk: Text, i: nat, j: nat, mid: State, after: State,
                  log0: seq<StreamEvent>, log1: seq<StreamEvent>, log2: seq<StreamEvent>)
    requires i <= j <= |chunk|
    requires Fed(st, chunk[..i], mid, log0, log1) && Fed(mid, chunk[i..j], after, log1, log2)
    ensures Fed(st, chunk[..j], after, log0, log2)
  {
    hide RunText;
    assert chunk[..j] == chunk[..i] + chunk[i..j];
    RunConcat(st, chunk[..i], chunk[i..j]);
  }

  lemma FedFailed(st: State, chunk: Text, i: nat, j: nat, mid: State,
                  log0: seq<StreamEvent>, log1: seq<StreamEvent>, log2: seq<StreamEvent>, r: FeedResult, size: nat)
    requires i <= j <= |chunk| && (r == Error || r == BufferFull)
    requires Fed(st, chunk[..i], mid, log0, log1) && Stuck(mid, chunk[i..j], log1, log2, r, size)
    ensures r == Error ==> RunText(st, chunk).Fail? && Flat(log2) <= Flat(log0) + RunText(st, chunk).events
    ensures r == BufferFull ==> !Fits(st, chunk, size)
  {
    hide RunText, Flat, Need;
    assert chunk[..j] == chunk[..i] + chunk[i..j];
    RunConcat(st, chunk[..i], chunk[i..j]);
    var es, es' := RunText(st, chunk[..i]).events, RunText(mid, chunk[i..j]).events;
    assert Flat(log1) + es' == Flat(log0) + (es + es');
    if r == Error {
      assert chunk == chunk[..j] + chunk[j..];
      RunConcat(st, chunk[..j], chunk[j..]);
    }
  }

  /** Where the callback breaks, what it was shown is what the machine begins with. */
  lemma FedBroken(st: State, chunk: Text, i: nat, j: nat, mid: State,
                  log0: seq<StreamEvent>, log1: seq<StreamEvent>, log2: seq<StreamEvent>)
    requires i <= j <= |chunk| && Fed(st, chunk[..i], mid, log0, log1)
    requires Flat(log2) <= Flat(log1) + RunText(mid, chunk[i..j]).events
    ensures Flat(log2) <= Flat(log0) + RunText(st, chunk).events
  {
    hide RunText, Flat;
    assert chunk[..j] == chunk[..i] + chunk[i..j];
    RunConcat(st, chunk[..i], chunk[i..j]);
    var es, es' := RunText(st, chunk[..i]).events, RunText(mid, chunk[i..j]).events;
    assert Flat(log1) + es' == Flat(log0) + (es + es');
    assert chunk == chunk[..j] + chunk[j..];
    RunConcat(st, chunk[..j], chunk[j..]);
  }

  lemma FedOverflow(st: State, chunk: Text, log0: seq<StreamEvent>, log: seq<StreamEvent>, size: nat)
    requires RunText(st, chunk).Run? && Need(RunText(st, chunk).state) > size - 1
    ensures !Fits(st, chunk, size)
  {
    assert chunk[..|chunk|] == chunk;
  }

  /** kason_stream_generic_type. */
  method ClassifyToken(t: Text) returns (r: TokenType)
    ensures r == GenericType(t)
  {
    hide ReadNumber, PrintNumber, NumberOk;
    if t == [] {
      return NoToken;
    }
    if t[0] == MINUS || IsDigit(t[0]) {
      NumberTextIffFullRead(t);
      var valid := IsValidNumber(t);
      return if valid then TokenType.Token(NumberType) else NoToken;
    }
    return if t == NULL then TokenType.Token(NullType)
      else if t == TRUE then TokenType.Token(TrueType)
      else if t == FALSE then TokenType.Token(FalseType)
      else NoToken;
  }
}
