/** What every child of an accepted text is: a number's text is a number, and an
    object's text is accepted on its own. */
module LegacyShown {
  import opened Bytes
  import opened JsonString
  import opened Number
  import opened Grammar
  import opened Events
  import opened Modes
  import opened LegacySpec
  import opened LegacyComplete
  import opened LegacySound

  /** The reported text of a number is one. */
  ghost predicate Numeric(t: Text, child: Child) {
    child.valueType == NumberType ==> IsNumberText(Slice(t, child.lo, child.hi))
  }

  ghost predicate AllNumeric(t: Text, o: Outcome) {
    o.Accepted? ==> forall k | 0 <= k < |o.children| :: Numeric(t, o.children[k])
  }

  lemma {:induction false} RunSnoc(state: NumberState, t: Text, i: nat, c: Byte)
    requires i <= |t|
    ensures RunNumber(state, t + [c], i) == NumberNext(RunNumber(state, t, i), c)
    decreases |t| - i
  {
    hide NumberNext;
    if i < |t| {
      RunSnoc(NumberNext(state, t[i]), t, i + 1, c);
    } else {
      assert RunNumber(NumberNext(state, c), t + [c], i + 1) == NumberNext(state, c);
    }
  }

  /** The automaton has read the value up to `i`. */
  predicate HasRun(t: Text, p: Parser, i: nat) {
    p.phase == FindNumberEnd ==>
      0 <= p.valueBegin < i <= |t| && p.number == RunNumber(Start, t[p.valueBegin..i], 0)
  }

  lemma RunStarts(t: Text, i: nat)
    requires i < |t|
    ensures RunNumber(Start, t[i..i + 1], 0) == NumberBegin(t[i])
  {
    var x := t[i..i + 1];
    assert RunNumber(NumberNext(Start, x[0]), x, 1) == NumberNext(Start, x[0]);
  }

  lemma RunGoesOn(t: Text, begin: nat, i: nat)
    requires begin <= i < |t|
    ensures RunNumber(Start, t[begin..i + 1], 0) == NumberNext(RunNumber(Start, t[begin..i], 0), t[i])
  {
    assert t[begin..i + 1] == t[begin..i] + [t[i]];
    RunSnoc(Start, t[begin..i], 0, t[i]);
  }

  /** One byte keeps the automaton in step. */
  lemma HasRunStep(job: Job, p: Parser, i: nat)
    requires i < |job.t| && HasRun(job.t, p, i) && p.phase != Complete
    ensures var m := Step(p, job.t, i, job.mode);
      (m.Go? ==> HasRun(job.t, Noted(m.parser, job.t[i], i), i + 1)) &&
      (m.Commit? && m.committed.phase == FindNumberEnd ==>
        0 <= m.committed.valueBegin <= m.stop <= |job.t| &&
        m.committed.number == RunNumber(Start, job.t[m.committed.valueBegin..m.stop], 0))
  {
    hide RunNumber, NumberNext, ValidBody, QuotedStep, NumberBegin;
    RunStarts(job.t, i);
    if p.phase == FindNumberEnd {
      RunGoesOn(job.t, p.valueBegin, i);
    }
  }

  lemma CommittedNumeric(job: Job, p: Parser, stop: int)
    requires job.depth <= MAX_NESTING && Checked(job, p, stop)
    requires p.phase == FindNumberEnd ==>
      0 <= p.valueBegin <= stop <= |job.t| && p.number == RunNumber(Start, job.t[p.valueBegin..stop], 0)
    ensures Numeric(job.t, ChildOf(p, job.t, stop))
  {
    hide ParseText, RunNumber;
    if p.phase == FindNumberEnd {
      AutomatonIffNumber(job.t[p.valueBegin..stop]);
    }
  }

  lemma CommittedIsFree(job: Job, p: Parser, c: Byte)
    ensures Committed(job, p, c).phase != FindNumberEnd
  {
  }

  lemma {:induction false} ContinueNumeric(job: Job, p: Parser, i: nat)
    requires i <= |job.t| && job.depth <= MAX_NESTING && HasRun(job.t, p, i)
    ensures AllNumeric(job.t, Continue(job, p, i))
    decreases |job.t| - i
  {
    hide HasRun, Step, Checked, Committed, ChildOf, Numeric, AllWhitespace;
    if p.phase != Complete && i < |job.t| {
      var c := job.t[i];
      HasRunStep(job, p, i);
      var m := Step(p, job.t, i, job.mode);
      match m
      case Halt =>
      case Go(q) =>
        ContinueNumeric(job, Noted(q, c, i), i + 1);
      case Commit(q, stop) =>
        if Checked(job, q, stop) {
          CommittedNumeric(job, q, stop);
          CommittedIsFree(job, q, c);
          FreeHasRun(job.t, Noted(Committed(job, q, c), c, i), i + 1);
          ContinueNumeric(job, Noted(Committed(job, q, c), c, i), i + 1);
        }
    }
  }

  lemma FreeHasRun(t: Text, p: Parser, i: nat)
    requires p.phase != FindNumberEnd
    ensures HasRun(t, p, i)
  {
  }

  /** Every child of an accepted text that is shown as a number is a number. */
  lemma ChildrenNumeric(t: Text, mode: Mode, depth: nat)
    ensures AllNumeric(t, ParseText(t, mode, depth))
  {
    hide Continue, Numeric, RunNumber;
    if depth <= MAX_NESTING {
      if mode == AutoMode {
        var i := SkipWs(t, 0);
        if i < |t| {
          ContinueNumeric(Job(t, RootMode(t[i]), t[i] == LBRACKET, depth), Begin(RootMode(t[i]), i), i);
        }
      } else {
        ContinueNumeric(Job(t, mode, false, depth), Begin(mode, 0), 0);
      }
    }
  }

  /** An object that is accepted deep inside a text is accepted on its own. */
  lemma AcceptedAlone(t: Text, depth: nat)
    requires ParseText(t, AutoMode, depth).Accepted? && At(t, SkipWs(t, 0)) == LBRACE
    ensures ParseText(t, AutoMode, 0).Accepted?
  {
    hide ParseText, SkipWs, PrintValue, ValueOk, AllWhitespace, Occurs;
    var before, v, after := ObjectSound(t, depth);
    OccursWhole(t, t);
    OccursConcat(t, 0, before, PrintValue(v) + after);
    OccursConcat(t, |before|, PrintValue(v), after);
    ObjectText(t, before, v, depth);
    ObjectText(t, before, v, 0);
  }
}
