/** Whole documents in chunks: how the input is cut does not show. */
module StreamChunks {
  import opened Bytes
  import opened StreamSpec
  import opened Stream

  function Concat(chunks: seq<Text>): Text {
    if chunks == [] then [] else Concat(chunks[..|chunks| - 1]) + chunks[|chunks| - 1]
  }

  ghost predicate NeverBreaks(policy: StreamPolicy) {
    forall log: seq<StreamEvent> :: !policy(log)
  }

  /** The callback broke: it did at the last event it was shown. */
  ghost predicate Broke(policy: StreamPolicy, log: seq<StreamEvent>) {
    log != [] && policy(log)
  }

  /** Feeds the chunks in order and finishes. With enough scratch, what is shown is what
      the machine reports of the concatenation, up to the first break, and without one
      the result is the machine's verdict. */
  method ParseChunks(chunks: seq<Text>, scratchSize: nat, policy: StreamPolicy)
    returns (r: FeedResult, log: seq<StreamEvent>)
    ensures scratchSize <= 1 ==> r == Error && log == []
    ensures forall k | 0 < k < |log| :: !Broke(policy, log[..k])
    ensures scratchSize > 1 && Fits(INITIAL, Concat(chunks), scratchSize) ==>
      var o := Verdict(Concat(chunks));
      Flat(log) <= o.events &&
      if Broke(policy, log) then r == Success
      else r == (if o.Run? then Success else Error) && (o.Run? ==> Flat(log) == o.events)
  {
    hide RunText, Step, Flat, Finish, CommitGeneric, Fits, Verdict, Unbroken, Stream.Inv, Stream.Abs;
    var s := Stream.Init(scratchSize, policy);
    if s == null {
      return Error, [];
    }
    log := [];
    assert Fed(INITIAL, [], INITIAL, [], []) by {
      FedNothing(INITIAL, [], []);
    }
    OneShown(policy, false, [], []);
    var k := 0;
    while k < |chunks|
      invariant 0 <= k <= |chunks|
      invariant s.callbackBreak || s.Valid()
      invariant Unbroken(policy, s.callbackBreak, [], s.log)
      invariant s.callbackBreak ==> Broke(policy, s.log) && Flat(s.log) <= Verdict(Concat(chunks)).events
      invariant !s.callbackBreak ==> Fed(INITIAL, Concat(chunks[..k]), s.Abs([], 0), [], s.log)
      invariant fresh(s) && fresh(s.scratch) && s.policy == policy && s.scratch.Length == scratchSize
    {
      ghost var st, before, broken := INITIAL, s.log, s.callbackBreak;
      if !broken {
        st := s.Abs([], 0);
        LogSoFar(policy, [], before);
      }
      r := s.Feed(chunks[k]);
      log := s.log;
      if !broken {
        UnbrokenSince(policy, s.callbackBreak, [], before, log);
      }
      if !broken && (r == Error || s.callbackBreak) {
        ChunkPrefix(chunks, k, st, before, log);
      }
      if r == Error || r == BufferFull {
        if !broken {
          ChunkFails(chunks, k, st, before, r, scratchSize);
        }
        BreaksOnce(policy, s.callbackBreak, log);
        return;
      }
      ConcatAt(chunks, k);
      if !broken && !s.callbackBreak {
        ChunkFed(Concat(chunks[..k]), chunks[k], st, s.Abs([], 0), before, s.log);
      }
      k := k + 1;
    }
    assert chunks[..k] == chunks;
    ghost var st, before, broken := INITIAL, s.log, s.callbackBreak;
    if !broken {
      st := s.Abs([], 0);
      LogSoFar(policy, [], before);
    }
    r := s.FinishStream();
    log := s.log;
    if !broken {
      UnbrokenSince(policy, s.callbackBreak, [], before, log);
    }
    BreaksOnce(policy, s.callbackBreak, log);
    if !broken {
      FinishFed(Concat(chunks), st, before);
    }
  }

  lemma BreaksOnce(policy: StreamPolicy, broken: bool, log: seq<StreamEvent>)
    requires Unbroken(policy, broken, [], log)
    ensures forall k | 0 < k < |log| :: !Broke(policy, log[..k])
    ensures !broken ==> !Broke(policy, log)
  {
  }

  lemma {:induction false} ConcatAppend(a: seq<Text>, b: seq<Text>)
    ensures Concat(a + b) == Concat(a) + Concat(b)
    decreases |b|
  {
    if b == [] {
      assert a + b == a;
    } else {
      var front := b[..|b| - 1];
      ConcatAppend(a, front);
      assert (a + b)[..|a + b| - 1] == a + front;
      assert Concat(a) + (Concat(front) + b[|b| - 1]) == Concat(a) + Concat(front) + b[|b| - 1];
    }
  }

  lemma ConcatSnoc(chunks: seq<Text>, chunk: Text)
    ensures Concat(chunks + [chunk]) == Concat(chunks) + chunk
  {
    assert (chunks + [chunk])[..|chunks|] == chunks;
  }

  lemma Associative(a: Text, b: Text, c: Text)
    ensures a + b + c == a + (b + c)
  {
  }

  lemma SplitAt(chunks: seq<Text>, k: nat)
    requires k < |chunks|
    ensures chunks[..k + 1] == chunks[..k] + [chunks[k]]
    ensures chunks == chunks[..k + 1] + chunks[k + 1..]
  {
  }

  lemma ConcatAt(chunks: seq<Text>, k: nat)
    requires k < |chunks|
    ensures Concat(chunks[..k + 1]) == Concat(chunks[..k]) + chunks[k]
    ensures Concat(chunks) == Concat(chunks[..k]) + (chunks[k] + Concat(chunks[k + 1..]))
  {
    hide Concat;
    SplitAt(chunks, k);
    ConcatSnoc(chunks[..k], chunks[k]);
    ConcatAppend(chunks[..k + 1], chunks[k + 1..]);
    Associative(Concat(chunks[..k]), chunks[k], Concat(chunks[k + 1..]));
  }

  lemma ChunkFed(done: Text, chunk: Text, st: State, after: State, log1: seq<StreamEvent>, log2: seq<StreamEvent>)
    requires Fed(INITIAL, done, st, [], log1) && Fed(st, chunk, after, log1, log2)
    ensures Fed(INITIAL, done + chunk, after, [], log2)
  {
    hide RunText;
    var all := done + chunk;
    assert all[..|done|] == done && all[|done|..|all|] == chunk && all[..|all|] == all;
    FedConcat(INITIAL, all, |done|, |all|, st, after, [], log1, log2);
  }

  /** What a chunk begins to show belongs to what the machine reports of the whole. */
  lemma ChunkPrefix(chunks: seq<Text>, k: nat, st: State, log1: seq<StreamEvent>, log2: seq<StreamEvent>)
    requires k < |chunks| && Fed(INITIAL, Concat(chunks[..k]), st, [], log1)
    requires Flat(log2) <= Flat(log1) + RunText(st, chunks[k]).events
    ensures Flat(log2) <= Verdict(Concat(chunks)).events
  {
    hide RunText, Flat, CommitGeneric;
    ConcatAt(chunks, k);
    var done, rest := Concat(chunks[..k]), Concat(chunks[k + 1..]);
    RunConcat(INITIAL, done, chunks[k] + rest);
    RunConcat(st, chunks[k], rest);
    FlatOfNothing();
    var es := RunText(INITIAL, done).events;
    assert [] + es == es;
  }

  /** A failing chunk makes the machine fail on the whole, or shows that scratch is too small. */
  lemma ChunkFails(chunks: seq<Text>, k: nat, st: State, log1: seq<StreamEvent>, r: FeedResult, size: nat)
    requires k < |chunks| && Fed(INITIAL, Concat(chunks[..k]), st, [], log1)
    requires r == Error ==> RunText(st, chunks[k]).Fail?
    requires r == BufferFull ==> !Fits(st, chunks[k], size)
    ensures r == Error ==> Verdict(Concat(chunks)).Fail?
    ensures r == BufferFull ==> !Fits(INITIAL, Concat(chunks), size)
  {
    hide RunText, Flat, Need, CommitGeneric;
    ConcatAt(chunks, k);
    var done, all, rest := Concat(chunks[..k]), Concat(chunks), Concat(chunks[k + 1..]);
    RunConcat(INITIAL, done, chunks[k] + rest);
    if r == Error {
      RunConcat(st, chunks[k], rest);
    } else if r == BufferFull {
      var n :| 0 <= n <= |chunks[k]| && RunText(st, chunks[k][..n]).Run? && Need(RunText(st, chunks[k][..n]).state) > size - 1;
      assert all[..|done| + n] == done + chunks[k][..n];
      RunConcat(INITIAL, done, chunks[k][..n]);
    }
  }

  lemma FlatOfNothing()
    ensures Flat([]) == []
  {
  }

  lemma FinishFed(s: Text, st: State, log: seq<StreamEvent>)
    requires Fed(INITIAL, s, st, [], log)
    ensures var o := Finish(Run(st, []));
      Verdict(s).Run? == o.Run? && Verdict(s).events == Flat(log) + o.events
  {
    hide RunText, CommitGeneric;
    FlatOfNothing();
    assert [] + RunText(INITIAL, s).events == RunText(INITIAL, s).events;
  }

  /** Everything the machine holds was a byte of the input. */
  function Held(st: State): nat {
    |st.key| + |st.value| + |st.stack|
  }

  lemma NeedIsHeld(st: State)
    ensures Need(st) <= Held(st)
  {
  }

  lemma HeldName(st: State, c: Byte)
    requires st.phase.FindKeyBegin? || st.phase.FindKeyEnd? || st.phase.KeyEscape? || st.phase.FindValueSep? || st.phase.FindParamSep?
    ensures Step(st, c).Run? ==> Held(Step(st, c).state) <= Held(st) + 1
  {
  }

  lemma HeldString(st: State, c: Byte)
    requires st.phase.FindStringEnd? || st.phase.StringEscape? || st.phase.FindGenericEnd?
    ensures Step(st, c).Run? ==> Held(Step(st, c).state) <= Held(st) + 1
  {
    hide GenericType;
  }

  lemma HeldOther(st: State, c: Byte)
    requires st.phase.FindRoot? || st.phase.FindValueBegin? || st.phase.Complete?
    ensures Step(st, c).Run? ==> Held(Step(st, c).state) <= Held(st) + 1
  {
  }

  lemma HeldContainer(st: State, c: Byte)
    requires st.phase.InContainer?
    ensures Step(st, c).Run? ==> Held(Step(st, c).state) <= Held(st) + 1
  {
  }

  lemma HeldStep(st: State, c: Byte)
    ensures Step(st, c).Run? ==> Held(Step(st, c).state) <= Held(st) + 1
  {
    hide Step, Held;
    match st.phase
    case FindKeyBegin => HeldName(st, c);
    case FindKeyEnd => HeldName(st, c);
    case KeyEscape => HeldName(st, c);
    case FindValueSep => HeldName(st, c);
    case FindParamSep => HeldName(st, c);
    case FindStringEnd => HeldString(st, c);
    case StringEscape => HeldString(st, c);
    case FindGenericEnd => HeldString(st, c);
    case InContainer => HeldContainer(st, c);
    case _ => HeldOther(st, c);
  }

  lemma {:induction false} HeldRun(s: Text)
    ensures RunText(INITIAL, s).Run? ==> Need(RunText(INITIAL, s).state) <= Held(RunText(INITIAL, s).state) <= |s|
    decreases |s|
  {
    hide Step, Need, Held;
    if s == [] {
      NothingHeld();
      NeedIsHeld(INITIAL);
    } else {
      HeldRun(s[..|s| - 1]);
      var before := RunText(INITIAL, s[..|s| - 1]);
      if before.Run? {
        HeldStep(before.state, s[|s| - 1]);
        if Step(before.state, s[|s| - 1]).Run? {
          NeedIsHeld(Step(before.state, s[|s| - 1]).state);
        }
      }
    }
  }

  lemma NothingHeld()
    ensures Held(INITIAL) == 0
  {
  }

  /** Scratch with one byte more than the input is always enough. */
  lemma AlwaysFits(s: Text, size: nat)
    requires size > |s|
    ensures Fits(INITIAL, s, size)
  {
    hide RunText, Need, Held;
    forall n | 0 <= n <= |s| && RunText(INITIAL, s[..n]).Run? ensures Need(RunText(INITIAL, s[..n]).state) <= size - 1 {
      HeldRun(s[..n]);
    }
  }

  /** Two ways of cutting the same input give the same verdict and, when it is
      accepted, the same events once fragments are joined. Scratch is large enough if it
      can hold what is pending at any time, and in any case with |s| + 2 bytes. */
  method ParseTwice(chunks: seq<Text>, chunks': seq<Text>, scratchSize: nat, policy: StreamPolicy, policy': StreamPolicy)
    returns (r: FeedResult, log: seq<StreamEvent>, r': FeedResult, log': seq<StreamEvent>)
    requires Concat(chunks) == Concat(chunks')
    requires scratchSize >= |Concat(chunks)| + 2 || (scratchSize > 1 && Fits(INITIAL, Concat(chunks), scratchSize))
    requires NeverBreaks(policy) && NeverBreaks(policy')
    ensures r == r' && (r == Success || r == Error)
    ensures r == Success ==> Flat(log) == Flat(log') && Joined(log) == Joined(log')
  {
    if scratchSize >= |Concat(chunks)| + 2 {
      AlwaysFits(Concat(chunks), scratchSize);
    }
    r, log := ParseChunks(chunks, scratchSize, policy);
    r', log' := ParseChunks(chunks', scratchSize, policy');
    JoinedFlat(log);
    JoinedFlat(log');
  }

  // -------------------------------------- joining consecutive fragments

  function JoinOne(log: seq<StreamEvent>, e: StreamEvent): seq<StreamEvent> {
    if e.kind != StreamPart then log + [e]
    else if e.text == [] then log
    else if log != [] && log[|log| - 1].(text := []) == e.(text := []) then
      log[..|log| - 1] + [e.(text := log[|log| - 1].text + e.text)]
    else log + [e]
  }

  /** The log with consecutive fragments of a container concatenated. */
  function Joined(log: seq<StreamEvent>): seq<StreamEvent> {
    if log == [] then [] else JoinOne(Joined(log[..|log| - 1]), log[|log| - 1])
  }

  lemma JoinTwice(log: seq<StreamEvent>, e: StreamEvent, t: Text, u: Text)
    requires e.kind == StreamPart && u != []
    ensures JoinOne(JoinOne(log, e.(text := t)), e.(text := u)) == JoinOne(log, e.(text := t + u))
  {
    if t == [] {
      assert t + u == u;
    } else if log != [] && log[|log| - 1].(text := []) == e.(text := []) {
      var text := log[|log| - 1].text;
      assert text + t + u == text + (t + u);
    }
  }

  lemma JoinedSnoc(log: seq<StreamEvent>, e: StreamEvent)
    ensures Joined(log + [e]) == JoinOne(Joined(log), e)
  {
    hide JoinOne;
    assert (log + [e])[..|log|] == log;
  }

  lemma {:induction false} JoinBytes(log: seq<StreamEvent>, e: StreamEvent, n: nat)
    requires e.kind == StreamPart && n <= |e.text|
    ensures Joined(log + FlatEvent(e)[..n]) == JoinOne(Joined(log), e.(text := e.text[..n]))
    decreases n
  {
    hide JoinOne, Joined;
    var t := FlatEvent(e);
    if n == 0 {
      assert log + t[..0] == log;
      JoinNothing(Joined(log), e);
    } else {
      JoinBytes(log, e, n - 1);
      assert log + t[..n] == (log + t[..n - 1]) + [t[n - 1]];
      JoinedSnoc(log + t[..n - 1], t[n - 1]);
      assert e.text[..n] == e.text[..n - 1] + [e.text[n - 1]];
      JoinTwice(Joined(log), e, e.text[..n - 1], [e.text[n - 1]]);
    }
  }

  lemma JoinNothing(log: seq<StreamEvent>, e: StreamEvent)
    requires e.kind == StreamPart
    ensures JoinOne(log, e.(text := e.text[..0])) == log
  {
  }

  lemma {:induction false} JoinedFlat(log: seq<StreamEvent>)
    ensures Joined(Flat(log)) == Joined(log)
    decreases |log|
  {
    if log != [] {
      var front, e := log[..|log| - 1], log[|log| - 1];
      JoinedFlat(front);
      if e.kind == StreamPart {
        JoinBytes(Flat(front), e, |e.text|);
        assert FlatEvent(e)[..|e.text|] == FlatEvent(e);
        assert e.text[..|e.text|] == e.text;
      } else {
        var longer := Flat(front) + [e];
        assert longer[..|longer| - 1] == Flat(front);
      }
    }
  }
}
