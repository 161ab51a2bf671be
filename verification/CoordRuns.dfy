/** Whole runs of a coordinator, and what its answers mean. */
module CoordRuns {
  import opened CoordModel
  import opened CoordLaws

  // ----- SEQUENCE

  /** The children among the first `k` whose first answer is a value, in order. */
  function Producers(origin: seq<seq<Step>>, k: nat): seq<nat>
    requires k <= |origin|
  {
    if k == 0 then []
    else if Produces(FirstAnswer(origin[k - 1])) then Producers(origin, k - 1) + [k - 1]
    else Producers(origin, k - 1)
  }

  lemma {:induction false} ProducersIncrease(origin: seq<seq<Step>>, k: nat)
    requires k <= |origin|
    ensures forall i, j :: 0 <= i < j < |Producers(origin, k)| ==> Producers(origin, k)[i] < Producers(origin, k)[j]
    ensures forall i :: 0 <= i < |Producers(origin, k)| ==> Producers(origin, k)[i] < k
  {
    if k > 0 {
      ProducersIncrease(origin, k - 1);
    }
  }

  function SequenceResumed(s: State): State
    requires s.sequenceIndex < |s.children|
  {
    s.(children := s.children[s.sequenceIndex := ResumeChild(s.children[s.sequenceIndex])])
  }

  lemma {:induction false} SequenceBase(s: State)
    requires Base(s) && s.sequenceIndex < |s.children|
    requires !s.children[s.sequenceIndex].done && !s.children[s.sequenceIndex].waiting
    ensures Base(SequenceResumed(s))
  {
    hide Sane, ResumeChild;
    SaneResumed(s.children[s.sequenceIndex]);
  }

  lemma {:induction false} EmitBase(s: State)
    requires Base(s) && s.sequenceIndex < |s.children| && !s.children[s.sequenceIndex].waiting
    ensures Base(Emit(s).0)
  {
  }

  lemma {:induction false} SequenceMoves(origin: seq<seq<Step>>, s: State, c: Child)
    requires SequenceInv(origin, s) && s.sequenceIndex < |s.children|
    ensures Fresh(origin[s.sequenceIndex], c) ==>
              SequenceInv(origin, s.(children := s.children[s.sequenceIndex := c]))
    ensures c.done && (Answered(origin[s.sequenceIndex], c) || Exhausted(origin[s.sequenceIndex], c)) ==>
              SequenceInv(origin, s.(children := s.children[s.sequenceIndex := c], sequenceIndex := s.sequenceIndex + 1))
  {
    hide Fresh, Answered, Exhausted;
  }

  /** The child whose turn it is, resumed. */
  lemma {:induction false} SequenceAsked(origin: seq<seq<Step>>, s: State)
    requires Inv(Sequence, origin, s) && s.sequenceIndex < |s.children| && !s.children[s.sequenceIndex].waiting
    ensures var first, s1 := FirstAnswer(origin[s.sequenceIndex]), SequenceResumed(s);
            match NextStep(s.children[s.sequenceIndex])
            case Error => first.Error?
            case Wait => Inv(Sequence, origin, s1) && s1.children[s.sequenceIndex].waiting
            case Done => Inv(Sequence, origin, s1.(sequenceIndex := s.sequenceIndex + 1)) && !Produces(first)
            case _ => Inv(Sequence, origin, Emit(s1).0) && Produces(first)
  {
    hide Base, Fresh, Answered, Exhausted, FirstAnswer, SequenceInv;
    var i := s.sequenceIndex;
    var c, c1 := s.children[i], ResumeChild(s.children[i]);
    SequenceFresh(origin, s, i);
    FreshNoValue(origin[i], c);
    FreshResumed(origin[i], c);
    SequenceBase(s);
    match NextStep(c)
    case Error =>
    case Wait => SequenceMoves(origin, s, c1);
    case Done =>
      ExhaustedEnds(origin[i], c1);
      SequenceMoves(origin, s, c1);
      BaseMoved(SequenceResumed(s));
    case _ =>
      AnsweredFinish(origin[i], c1);
      SequenceMoves(origin, s, Finish(c1));
      EmitBase(SequenceResumed(s));
      assert s.children[i := c1][i := Finish(c1)] == s.children[i := Finish(c1)];
      SequenceCounts(origin, s.(children := s.children[i := Finish(c1)], sequenceIndex := i + 1));
  }

  lemma {:induction false} SequenceCounts(origin: seq<seq<Step>>, s: State)
    requires SequenceInv(origin, s)
    ensures SequenceInv(origin, s.(generation := s.generation + 1))
  {
  }

  lemma {:induction false} SequenceFresh(origin: seq<seq<Step>>, s: State, i: nat)
    requires SequenceInv(origin, s) && i == s.sequenceIndex < |s.children|
    ensures |origin| == |s.children| && Fresh(origin[i], s.children[i])
    ensures !s.children[i].done && !s.children[i].hasValue
  {
  }

  lemma {:induction false} SequenceBounds(origin: seq<seq<Step>>, s: State)
    requires SequenceInv(origin, s)
    ensures |origin| == |s.children| && s.sequenceIndex <= |s.children|
  {
  }

  /** What one resume in SEQUENCE mode does and answers. */
  ghost predicate SequenceStep(origin: seq<seq<Step>>, s: State, s': State, o: Outcome) {
    && |origin| == |s.children| == |s'.children| && s.sequenceIndex <= |origin| && s'.sequenceIndex <= |origin|
    && (!o.Failed? ==>
          && Inv(Sequence, origin, s')
          && Producers(origin, s'.sequenceIndex) == Producers(origin, s.sequenceIndex) + (if o.Event? then [o.index] else []))
    && s'.generation == s.generation + (if o.Event? then 1 else 0)
    && (o.Event? ==> (o.last <==> o.index + 1 == |origin|) && s'.sequenceIndex == o.index + 1 && o.generation == s'.generation)
    && (o.Waiting? ==> s'.sequenceIndex < |s'.children| && s'.children[s'.sequenceIndex].waiting)
    && (o.Finished? ==> s'.sequenceIndex == |origin|)
    && (o.Failed? ==> exists i :: 0 <= i < |origin| && FirstAnswer(origin[i]).Error?)
    && !o.Joined?
  }

  lemma {:induction false} SequenceKeeps(origin: seq<seq<Step>>, s: State)
    requires Inv(Sequence, origin, s)
    ensures var (s', o) := ResumeSequence(s); SequenceStep(origin, s, s', o)
    decreases |s.children| - s.sequenceIndex
  {
    hide Base, SequenceInv, FirstAnswer, ResumeChild, Produces;
    SequenceBounds(origin, s);
    var i := s.sequenceIndex;
    if i < |s.children| {
      SequenceFresh(origin, s, i);
      if !s.children[i].waiting {
        SequenceAsked(origin, s);
        if NextStep(s.children[i]).Done? {
          SequenceKeeps(origin, SequenceResumed(s).(sequenceIndex := i + 1));
        }
      }
    }
  }

  lemma {:induction false} BaseMoved(s: State)
    ensures Base(s) ==> Base(s.(sequenceIndex := s.sequenceIndex + 1))
  {
  }

  lemma {:induction false} AnsweredFinish(origin: seq<Step>, c: Child)
    requires Answered(origin, c)
    ensures Answered(origin, Finish(c)) && Produces(FirstAnswer(origin))
  {
  }

  // ----- waiting

  ghost predicate SomeWaiting(s: State) {
    exists i :: 0 <= i < |s.children| && !s.children[i].done && s.children[i].waiting
  }

  /** In the four modes other than SEQUENCE, nothing can run when the answer is to wait. */
  lemma {:induction false} RoundsWait(mode: Mode, s: State)
    requires !mode.Sequence? && s.cursor < |s.children|
    ensures var (s', o) := Rounds(mode, s);
            o.Waiting? ==>
              && |s'.children| == |s.children| && !AnyRunnable(mode, s')
              && (mode.All? ==> !AllHaveValue(s'.children))
              && (mode.AllDone? || mode.Any? ==> !Ended(s'.children))
              && (mode.Latest? ==> !EndedEmpty(s'.children))
    decreases Remaining(s.children)
  {
    hide Pass, AllHaveValue, Ended, Remaining, AnyRunnable, EndedEmpty;
    PassStops(mode, s, s.cursor, 0, false);
    if !(mode.All? && AllHaveValue(s.children)) && !(mode.AllDone? && Ended(s.children)) && !(mode.Latest? && Ended(s.children)) {
      RoundShrinks(mode, s);
      var (s1, end) := Pass(mode, s, s.cursor, 0, false);
      if end.Through? &&
         (|| (mode.All? && AllHaveValue(s1.children)) || (mode.AllDone? && Ended(s1.children))
          || (end.progressed && !mode.Any?) || AnyRunnable(mode, s1))
      {
        RoundsWait(mode, s1);
      }
    }
  }

  lemma {:induction false} NoneRunnable(mode: Mode, s: State, i: nat)
    requires !AnyRunnable(mode, s) && i < |s.children|
    ensures !Runnable(mode, s, i)
  {
  }

  /** When the coordinator answers that it waits, a child that has not finished is waiting. */
  lemma {:induction false} WaitIsSound(mode: Mode, origin: seq<seq<Step>>, s: State)
    requires !mode.Latest? && Inv(mode, origin, s) && s.cursor < |s.children|
    requires Resume(mode, s).1.Waiting?
    ensures SomeWaiting(Resume(mode, s).0)
  {
    hide Base, SequenceInv, AllInv, AnyRunnable, Rounds, ResumeSequence;
    var s' := Resume(mode, s).0;
    if mode.Sequence? {
      SequenceKeeps(origin, s);
      SequenceBounds(origin, s');
      SequenceFresh(origin, s', s'.sequenceIndex);
    } else {
      RoundsWait(mode, s);
      RoundsKeeps(mode, origin, s);
      var i :| 0 <= i < |s'.children| && (if mode.All? then !s'.children[i].hasValue else !s'.children[i].done);
      NoneRunnable(mode, s', i);
      if mode.All? {
        AllAt(origin, s', i);
      }
    }
  }

  lemma {:induction false} AllAt(origin: seq<seq<Step>>, s: State, i: nat)
    requires AllInv(origin, s) && i < |s.children|
    ensures !s.children[i].hasValue ==> !s.children[i].done
    ensures s.children[i].waiting ==> !s.children[i].hasValue
  {
  }
}
