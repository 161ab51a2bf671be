/** What holds in every run of a coordinator that is resumed, armed and woken in any order until
its first terminal answer. Wakes happen between resumes. */
module CoordLaws {
  import opened CoordModel

  // ----- what a child has said

  function Produced(past: seq<Step>): nat {
    if past == [] then 0
    else Produced(past[..|past| - 1]) + (if Produces(past[|past| - 1]) then 1 else 0)
  }

  lemma {:induction false} ProducedSnoc(past: seq<Step>, step: Step)
    ensures Produced(past + [step]) == Produced(past) + (if Produces(step) then 1 else 0)
  {
    assert (past + [step])[..|past|] == past;
  }

  function SumProduced(cs: seq<Child>): nat {
    if cs == [] then 0 else Produced(cs[0].past) + SumProduced(cs[1..])
  }

  lemma {:induction false} SumUpdate(cs: seq<Child>, i: nat, c: Child)
    requires i < |cs|
    ensures SumProduced(cs[i := c]) == SumProduced(cs) - Produced(cs[i].past) + Produced(c.past)
  {
    var cs' := cs[i := c];
    if i == 0 {
      assert cs'[1..] == cs[1..];
    } else {
      assert cs'[1..] == cs[1..][i - 1 := c];
      SumUpdate(cs[1..], i - 1, c);
    }
  }

  lemma {:induction false} SumOnes(cs: seq<Child>)
    requires forall i :: 0 <= i < |cs| ==> Produced(cs[i].past) == 1
    ensures SumProduced(cs) == |cs|
  {
    if cs != [] {
      SumOnes(cs[1..]);
    }
  }

  predicate OnlyWaits(past: seq<Step>) {
    forall i :: 0 <= i < |past| ==> past[i].Wait?
  }

  /** The first answer of a child that is not a wait. */
  function FirstAnswer(script: seq<Step>): Step {
    if script == [] then Done
    else if script[0].Wait? then FirstAnswer(script[1..])
    else script[0]
  }

  lemma {:induction false} FirstAfterWaits(past: seq<Step>, script: seq<Step>)
    requires OnlyWaits(past)
    ensures FirstAnswer(past + script) == FirstAnswer(script)
  {
    if past == [] {
      assert past + script == script;
    } else {
      assert (past + script)[1..] == past[1..] + script;
      FirstAfterWaits(past[1..], script);
    }
  }

  /** A child that has only waited so far. */
  predicate Fresh(origin: seq<Step>, c: Child) {
    !c.hasValue && !c.done && OnlyWaits(c.past) && c.past + c.script == origin
  }

  /** A child whose first answer was a value, which is still the one it holds. */
  predicate Answered(origin: seq<Step>, c: Child) {
    c.hasValue && Produces(FirstAnswer(origin)) && c.value == FirstAnswer(origin).v
  }

  /** A child that ended without a value. */
  predicate Exhausted(origin: seq<Step>, c: Child) {
    !c.hasValue && c.done && FirstAnswer(origin).Done?
  }

  lemma {:induction false} FreshResumed(origin: seq<Step>, c: Child)
    requires Fresh(origin, c)
    ensures var c1 := ResumeChild(c);
            match NextStep(c)
            case Wait => Fresh(origin, c1) && c1.waiting
            case Done => Exhausted(origin, c1)
            case Error => FirstAnswer(origin).Error?
            case _ => Answered(origin, c1)
  {
    FirstAfterWaits(c.past, c.script);
    if NextStep(c).Wait? {
      assert c.past + [Wait] + c.script[1..] == c.past + c.script;
    }
  }

  // ----- invariants

  predicate Base(s: State) {
    && s.cursor < |s.children|
    && forall i :: 0 <= i < |s.children| ==> Sane(s.children[i])
  }

  predicate Sane(c: Child) {
    (c.waiting ==> !c.done) && (c.hasValue <==> Produced(c.past) > 0)
  }

  predicate AllInv(origin: seq<seq<Step>>, s: State) {
    && |origin| == |s.children|
    && forall i :: 0 <= i < |s.children| ==>
         || Fresh(origin[i], s.children[i])
         || (Answered(origin[i], s.children[i]) && !s.children[i].waiting)
  }

  /** Before every child has a value there are no events and no child gave two values;
      afterwards each further value was an event. */
  predicate LatestInv(s: State) {
    if AllHaveValue(s.children) then
      s.generation + |s.children| == SumProduced(s.children) + 1
    else
      s.generation == 0 && forall i :: 0 <= i < |s.children| ==> Produced(s.children[i].past) <= 1
  }

  predicate SequenceInv(origin: seq<seq<Step>>, s: State) {
    && |origin| == |s.children|
    && s.sequenceIndex <= |s.children|
    && (forall i :: 0 <= i < s.sequenceIndex ==>
          s.children[i].done && (Answered(origin[i], s.children[i]) || Exhausted(origin[i], s.children[i])))
    && (forall i :: s.sequenceIndex <= i < |s.children| ==> Fresh(origin[i], s.children[i]))
    && (forall i :: s.sequenceIndex < i < |s.children| ==> !s.children[i].waiting)
  }

  predicate Inv(mode: Mode, origin: seq<seq<Step>>, s: State) {
    && Base(s)
    && match mode
       case All => AllInv(origin, s)
       case Latest => LatestInv(s)
       case Sequence => SequenceInv(origin, s)
       case _ => true
  }

  // ----- each mode keeps its invariant

  lemma {:induction false} SaneResumed(c: Child)
    requires Sane(c) && !c.done && !c.waiting
    ensures Sane(ResumeChild(c))
  {
    hide Produced;
    ProducedSnoc(c.past, NextStep(c));
  }

  lemma {:induction false} BaseResumed(s: State, i: nat)
    requires Base(s) && i < |s.children| && !s.children[i].done && !s.children[i].waiting
    ensures Base(AfterResume(s, i))
  {
    hide Sane, ResumeChild;
    SaneResumed(s.children[i]);
  }

  /** A resume adds one step to one child's past. */
  lemma {:induction false} Resumed(s: State, i: nat)
    requires i < |s.children|
    ensures var s1, step := AfterResume(s, i), NextStep(s.children[i]);
            && |s1.children| == |s.children| && s1.generation == s.generation
            && (forall j :: 0 <= j < |s.children| && j != i ==> s1.children[j] == s.children[j])
            && s1.children[i].hasValue == (s.children[i].hasValue || Produces(step))
            && Produced(s1.children[i].past) == Produced(s.children[i].past) + (if Produces(step) then 1 else 0)
            && SumProduced(s1.children) == SumProduced(s.children) + (if Produces(step) then 1 else 0)
  {
    hide Produced, SumProduced;
    ProducedSnoc(s.children[i].past, NextStep(s.children[i]));
    SumUpdate(s.children, i, ResumeChild(s.children[i]));
  }

  lemma {:induction false} LatestQuiet(s: State, i: nat)
    requires Base(s) && LatestInv(s) && i < |s.children| && Runnable(Latest, s, i) && !Produces(NextStep(s.children[i]))
    ensures LatestInv(AfterResume(s, i))
    ensures AllHaveValue(AfterResume(s, i).children) <==> AllHaveValue(s.children)
  {
    hide Produced, SumProduced, AfterResume, NextStep, Produces;
    Resumed(s, i);
    var s1 := AfterResume(s, i);
    forall j | 0 <= j < |s.children| ensures s1.children[j].hasValue == s.children[j].hasValue {
    }
    forall j | 0 <= j < |s.children| ensures Produced(s1.children[j].past) == Produced(s.children[j].past) {
    }
  }

  lemma {:induction false} LatestEarly(s: State, i: nat)
    requires Base(s) && LatestInv(s) && i < |s.children| && Runnable(Latest, s, i) && Produces(NextStep(s.children[i]))
    requires !AllHaveValue(AfterResume(s, i).children)
    ensures LatestInv(AfterResume(s, i)) && !AllHaveValue(s.children)
  {
    hide Produced, SumProduced, AfterResume, NextStep, Produces;
    Resumed(s, i);
    var s1 := AfterResume(s, i);
    assert !AllHaveValue(s.children) by {
      var j :| 0 <= j < |s1.children| && !s1.children[j].hasValue;
      assert !s.children[j].hasValue;
    }
    forall j | 0 <= j < |s.children| ensures Produced(s1.children[j].past) <= 1 {
      assert j != i ==> s1.children[j] == s.children[j];
    }
  }

  lemma {:induction false} LatestEvent(s: State, i: nat)
    requires Base(s) && LatestInv(s) && i < |s.children| && Runnable(Latest, s, i) && Produces(NextStep(s.children[i]))
    requires AllHaveValue(AfterResume(s, i).children)
    ensures var s1 := AfterResume(s, i); LatestInv(s1.(generation := s1.generation + 1))
  {
    hide Produced, SumProduced, AfterResume, NextStep, Produces;
    Resumed(s, i);
    var s1 := AfterResume(s, i);
    if !AllHaveValue(s.children) {
      forall j | 0 <= j < |s1.children| ensures Produced(s1.children[j].past) == 1 {
        assert s1.children[j].hasValue;
        assert j != i ==> s1.children[j] == s.children[j];
      }
      SumOnes(s1.children);
    }
  }

  lemma {:induction false} AllResumed(origin: seq<seq<Step>>, s: State, i: nat)
    requires AllInv(origin, s) && i < |s.children| && Runnable(All, s, i)
    ensures var s1, step := AfterResume(s, i), NextStep(s.children[i]);
            if step.Error? then FirstAnswer(origin[i]).Error?
            else if s1.children[i].done && !s1.children[i].hasValue then FirstAnswer(origin[i]).Done?
            else AllInv(origin, s1)
  {
    hide Fresh, Answered, FirstAnswer, OnlyWaits;
    FreshNoValue(origin[i], s.children[i]);
    FreshResumed(origin[i], s.children[i]);
    FreshNoValue(origin[i], ResumeChild(s.children[i]));
    ExhaustedEnds(origin[i], ResumeChild(s.children[i]));
  }

  lemma {:induction false} FreshNoValue(origin: seq<Step>, c: Child)
    ensures Fresh(origin, c) ==> !c.hasValue && !c.done
    ensures Answered(origin, c) ==> c.hasValue
  {
  }

  lemma {:induction false} ExhaustedEnds(origin: seq<Step>, c: Child)
    ensures Exhausted(origin, c) ==> !c.hasValue && c.done && FirstAnswer(origin).Done?
  {
  }

  /** One child resumed within a pass. */
  lemma {:induction false} OneKeeps(mode: Mode, origin: seq<seq<Step>>, s: State, i: nat, progressed: bool)
    requires !mode.Sequence? && Inv(mode, origin, s) && i < |s.children| && Runnable(mode, s, i)
    ensures var one := One(mode, s, i, progressed);
            (one.Go? || one.end.Through? || mode.Latest?) ==> Inv(mode, origin, one.state)
  {
    hide Base, AllInv, LatestInv, AllHaveValue, Ended, ResumeChild;
    BaseResumed(s, i);
    BaseSame(AfterResume(s, i));
    if mode.All? {
      AllResumed(origin, s, i);
    } else if mode.Latest? {
      if !Produces(NextStep(s.children[i])) {
        LatestQuiet(s, i);
        LatestSame(AfterResume(s, i));
      } else if AllHaveValue(AfterResume(s, i).children) {
        LatestEvent(s, i);
      } else {
        LatestEarly(s, i);
      }
    }
  }

  lemma {:induction false} BaseSame(s: State)
    ensures Base(s) ==> Base(s.(error := true)) && Base(s.(generation := s.generation + 1))
  {
  }

  lemma {:induction false} LatestSame(s: State)
    ensures LatestInv(s) ==> LatestInv(s.(error := true))
  {
  }

  lemma {:induction false} PassKeeps(mode: Mode, origin: seq<seq<Step>>, s: State, start: nat, n: nat, progressed: bool)
    requires !mode.Sequence? && Inv(mode, origin, s) && start < |s.children| && n <= |s.children|
    ensures var r := Pass(mode, s, start, n, progressed);
            (r.1.Through? || mode.Latest?) ==> Inv(mode, origin, r.0)
    decreases |s.children| - n
  {
    hide One, Turn, Runnable, Inv;
    if n < |s.children| {
      var i := Turn(start, n, |s.children|);
      if !Runnable(mode, s, i) {
        PassKeeps(mode, origin, s, start, n + 1, progressed);
      } else {
        OneKeeps(mode, origin, s, i, progressed);
        var one := One(mode, s, i, progressed);
        if one.Go? {
          PassKeeps(mode, origin, one.state, start, n + 1, one.progressed);
        }
      }
    }
  }

  /** An answer that does not end the run leaves the invariant in place; the count of LATEST
      holds after the last answer as well. */
  lemma {:induction false} RoundsKeeps(mode: Mode, origin: seq<seq<Step>>, s: State)
    requires !mode.Sequence? && Inv(mode, origin, s) && s.cursor < |s.children|
    ensures var r := Rounds(mode, s); (!Terminal(r.1) || mode.Latest?) ==> Inv(mode, origin, r.0)
    decreases Remaining(s.children)
  {
    hide Pass, AllHaveValue, Ended, Remaining, AnyRunnable, EndedEmpty, Inv;
    PassKeeps(mode, origin, s, s.cursor, 0, false);
    PassStops(mode, s, s.cursor, 0, false);
    if !(mode.All? && AllHaveValue(s.children)) && !(mode.AllDone? && Ended(s.children)) && !(mode.Latest? && Ended(s.children)) {
      RoundShrinks(mode, s);
      var (s1, end) := Pass(mode, s, s.cursor, 0, false);
      if end.Through? &&
         (|| (mode.All? && AllHaveValue(s1.children)) || (mode.AllDone? && Ended(s1.children))
          || (end.progressed && !mode.Any?) || AnyRunnable(mode, s1))
      {
        RoundsKeeps(mode, origin, s1);
      }
    }
  }

  /** Only LATEST stops a pass with an answer that is not terminal. */
  lemma {:induction false} PassStops(mode: Mode, s: State, start: nat, n: nat, progressed: bool)
    requires !mode.Sequence? && start < |s.children| && n <= |s.children|
    ensures var r := Pass(mode, s, start, n, progressed);
            r.1.Stop? ==> !r.1.outcome.Waiting? && (mode.Latest? || Terminal(r.1.outcome))
    decreases |s.children| - n
  {
    hide AllHaveValue, Ended, ResumeChild, Runnable, Turn, AfterResume, CancelOthers;
    if n < |s.children| {
      var i := Turn(start, n, |s.children|);
      if !Runnable(mode, s, i) {
        PassStops(mode, s, start, n + 1, progressed);
      } else {
        var one := One(mode, s, i, progressed);
        if one.Go? {
          PassStops(mode, one.state, start, n + 1, one.progressed);
        }
      }
    }
  }
}
