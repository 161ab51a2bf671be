/** What the answers of ANY, ALL_DONE and LATEST say about the children, for every order of
resumes, arms and wakes. */
module CoordVerdicts {
  import opened CoordModel
  import opened CoordLaws
  import opened CoordRuns
  import opened CoordOnce
  import opened CoordTheorems

  // ----- ANY

  /** Until ANY has answered, no child has given anything: each has only waited or has ended. */
  predicate AnyInv(origin: seq<seq<Step>>, s: State) {
    && Base(s) && |origin| == |s.children|
    && forall i :: 0 <= i < |s.children| ==> Fresh(origin[i], s.children[i]) || Exhausted(origin[i], s.children[i])
  }

  /** The child whose first answer, the last thing it said, is a value, and which holds it. */
  predicate Won(origin: seq<Step>, c: Child) {
    && c.past != [] && Produces(c.past[|c.past| - 1]) && Produced(c.past) == 1
    && FirstAnswer(origin) == c.past[|c.past| - 1]
    && c.hasValue && c.value == c.past[|c.past| - 1].v
  }

  predicate Lost(c: Child) {
    c.done && !c.hasValue && Produced(c.past) == 0
  }

  ghost predicate AnyStep(origin: seq<seq<Step>>, s': State, o: Outcome) {
    && |origin| == |s'.children|
    && match o
       case Event(k, _, last) =>
         && last && k < |origin| && Won(origin[k], s'.children[k])
         && forall j :: 0 <= j < |origin| && j != k ==> Lost(s'.children[j])
       case Finished => forall i :: 0 <= i < |origin| ==> FirstAnswer(origin[i]).Done?
       case Failed => exists i :: 0 <= i < |origin| && FirstAnswer(origin[i]).Error?
       case Waiting => AnyInv(origin, s')
       case Joined(_) => false
  }

  lemma {:induction false} AnyAt(origin: seq<seq<Step>>, s: State, i: nat)
    requires AnyInv(origin, s) && i < |s.children|
    ensures |origin| == |s.children| && Sane(s.children[i]) && !s.children[i].hasValue
    ensures if s.children[i].done then Exhausted(origin[i], s.children[i]) else Fresh(origin[i], s.children[i])
  {
  }

  lemma {:induction false} FreshWins(origin: seq<Step>, c: Child)
    requires Fresh(origin, c) && Sane(c) && Produces(NextStep(c))
    ensures Won(origin, ResumeChild(c))
  {
    hide Produced;
    FirstAfterWaits(c.past, c.script);
    ProducedSnoc(c.past, NextStep(c));
  }

  lemma {:induction false} CancelledLose(origin: seq<seq<Step>>, s: State, i: nat, j: nat)
    requires AnyInv(origin, s) && i < |s.children| && j < |s.children| && j != i
    ensures Lost(CancelOthers(AfterResume(s, i).children, i)[j])
  {
    hide AnyInv, Fresh, Exhausted, Produced, ResumeChild;
    AnyAt(origin, s, j);
  }

  lemma {:induction false} AnyPut(origin: seq<seq<Step>>, s: State, i: nat)
    requires AnyInv(origin, s) && i < |s.children| && !s.children[i].done && !s.children[i].waiting
    requires Fresh(origin[i], ResumeChild(s.children[i])) || Exhausted(origin[i], ResumeChild(s.children[i]))
    ensures AnyInv(origin, AfterResume(s, i))
  {
    hide Fresh, Exhausted, Base, ResumeChild;
    BaseResumed(s, i);
  }

  lemma {:induction false} OneAny(origin: seq<seq<Step>>, s: State, i: nat, progressed: bool)
    requires AnyInv(origin, s) && i < |s.children| && Runnable(Any, s, i)
    ensures var one := One(Any, s, i, progressed);
            if one.Go? then AnyInv(origin, one.state)
            else one.end.Stop? && !one.end.outcome.Waiting? && AnyStep(origin, one.state, one.end.outcome)
  {
    hide AnyInv, Fresh, Answered, Exhausted, Won, Lost, FirstAnswer, ResumeChild, Sane;
    var c := s.children[i];
    AnyAt(origin, s, i);
    FreshResumed(origin[i], c);
    match NextStep(c)
    case Error =>
    case Wait => AnyPut(origin, s, i);
    case Done => AnyPut(origin, s, i);
    case _ =>
      FreshWins(origin[i], c);
      forall j | 0 <= j < |s.children| && j != i ensures Lost(CancelOthers(AfterResume(s, i).children, i)[j]) {
        CancelledLose(origin, s, i, j);
      }
  }

  lemma {:induction false} PassAny(origin: seq<seq<Step>>, s: State, start: nat, n: nat, progressed: bool)
    requires AnyInv(origin, s) && start < |s.children| && n <= |s.children|
    ensures var (s1, end) := Pass(Any, s, start, n, progressed);
            if end.Through? then AnyInv(origin, s1) else !end.outcome.Waiting? && AnyStep(origin, s1, end.outcome)
    decreases |s.children| - n
  {
    hide One, Turn, Runnable, AnyInv, AnyStep;
    if n < |s.children| {
      var i := Turn(start, n, |s.children|);
      if !Runnable(Any, s, i) {
        PassAny(origin, s, start, n + 1, progressed);
      } else {
        OneAny(origin, s, i, progressed);
        var one := One(Any, s, i, progressed);
        if one.Go? {
          PassAny(origin, one.state, start, n + 1, one.progressed);
        }
      }
    }
  }

  lemma {:induction false} AnyFinished(origin: seq<seq<Step>>, s: State)
    requires AnyInv(origin, s) && Ended(s.children)
    ensures AnyStep(origin, s, Finished)
  {
    hide AnyInv, Fresh, FirstAnswer;
    AnyLength(origin, s);
    forall i | 0 <= i < |origin| ensures FirstAnswer(origin[i]).Done? {
      AnyAt(origin, s, i);
    }
  }

  lemma {:induction false} AnyLength(origin: seq<seq<Step>>, s: State)
    requires AnyInv(origin, s)
    ensures |origin| == |s.children| && s.cursor < |s.children|
  {
  }

  lemma {:induction false} RoundsAny(origin: seq<seq<Step>>, s: State)
    requires AnyInv(origin, s) && s.cursor < |s.children|
    ensures var (s', o) := Rounds(Any, s); AnyStep(origin, s', o)
    decreases Remaining(s.children)
  {
    hide Pass, Remaining, AnyRunnable, AnyInv, Ended, FirstAnswer, Won, Lost;
    PassAny(origin, s, s.cursor, 0, false);
    RoundShrinks(Any, s);
    var (s1, end) := Pass(Any, s, s.cursor, 0, false);
    if end.Through? {
      AnyLength(origin, s1);
      if Ended(s1.children) {
        AnyFinished(origin, s1);
      } else if AnyRunnable(Any, s1) {
        RoundsAny(origin, s1);
      }
    }
  }

  lemma {:induction false} AnyFlags(origin: seq<seq<Step>>, s: State, s': State)
    requires AnyInv(origin, s) && |s'.children| == |s.children| && s'.cursor == s.cursor
    requires forall i :: 0 <= i < |s.children| ==> FlagsOnly(s.children[i], s'.children[i])
    ensures AnyInv(origin, s')
  {
    hide Fresh, Exhausted, Sane;
    forall i | 0 <= i < |s.children|
      ensures Sane(s'.children[i]) && (Fresh(origin[i], s'.children[i]) || Exhausted(origin[i], s'.children[i]))
    {
      assert FlagsOnly(s.children[i], s'.children[i]);
      FreshFlags(origin[i], s.children[i], s'.children[i].waiting, s'.children[i].armed);
    }
  }

  /** Arming and waking change only flags of children. */
  lemma {:induction false} ArmFlags(mode: Mode, s: State)
    ensures var s' := Arm(mode, s).0;
            && |s'.children| == |s.children| && s'.cursor == s.cursor && s'.error == s.error && s'.emittedAll == s.emittedAll
            && (forall i :: 0 <= i < |s.children| ==> FlagsOnly(s.children[i], s'.children[i]))
  {
    hide AnyRunnable;
  }

  lemma {:induction false} WakeFlags(s: State, i: nat)
    requires i < |s.children|
    ensures var s' := Wake(s, i).0;
            && |s'.children| == |s.children| && s'.cursor == s.cursor && s'.error == s.error && s'.emittedAll == s.emittedAll
            && (forall j :: 0 <= j < |s.children| ==> FlagsOnly(s.children[j], s'.children[j]))
  {
  }

  lemma {:induction false} RunAny(origin: seq<seq<Step>>, s: State, acts: seq<Action>)
    requires AnyInv(origin, s) && Running(s) && s.cursor < |s.children|
    ensures var (s', outs) := Run(Any, s, acts); Over(outs) ==> AnyStep(origin, s', outs[|outs| - 1])
    decreases |acts|
  {
    hide AnyInv, AnyStep, Arm, Wake, Rounds;
    if acts != [] {
      match acts[0]
      case WakeIt(i) =>
        if i < |s.children| {
          WakeFlags(s, i);
          AnyFlags(origin, s, Wake(s, i).0);
          RunAny(origin, Wake(s, i).0, acts[1..]);
        } else {
          RunAny(origin, s, acts[1..]);
        }
      case ArmIt =>
        ArmFlags(Any, s);
        AnyFlags(origin, s, Arm(Any, s).0);
        RunAny(origin, Arm(Any, s).0, acts[1..]);
      case ResumeIt =>
        RoundsAny(origin, s);
        var (s1, o) := Resume(Any, s);
        if !Terminal(o) {
          RoundsCounts(Any, s);
          AnyWaits(origin, s1, o);
          RunAny(origin, s1, acts[1..]);
        }
    }
  }

  lemma {:induction false} AnyWaits(origin: seq<seq<Step>>, s: State, o: Outcome)
    requires AnyStep(origin, s, o) && !Terminal(o)
    ensures AnyInv(origin, s)
  {
    hide AnyInv;
  }

  /** Main result about ANY: in every order, an event names the child whose first answer is the
      value it now holds; no other child produced one, and every other child is done. The run
      ends without an event exactly when every child ends without a value, and it fails only
      when a child's first answer is an error. */
  lemma {:induction false} AnyVerdict(origin: seq<seq<Step>>, acts: seq<Action>)
    requires origin != []
    ensures var (s, outs) := Run(Any, Init(origin), acts);
            Over(outs) ==>
              && AnyStep(origin, s, outs[|outs| - 1])
              && (outs[|outs| - 1].Finished? <==> forall i :: 0 <= i < |origin| ==> FirstAnswer(origin[i]).Done?)
  {
    hide Run, Good, FirstAnswer, Fresh;
    InitAny(origin);
    RunAny(origin, Init(origin), acts);
  }

  lemma {:induction false} InitAny(origin: seq<seq<Step>>)
    requires origin != []
    ensures AnyInv(origin, Init(origin)) && Running(Init(origin))
  {
    hide FirstAnswer;
    var s := Init(origin);
    forall i | 0 <= i < |origin| ensures Fresh(origin[i], s.children[i]) && Sane(s.children[i]) {
      assert [] + origin[i] == origin[i];
    }
  }

  // ----- the whole life of a child

  predicate Ends(step: Step) {
    step.Done? || step.ValueAndDone? || step.Error?
  }

  predicate Going(past: seq<Step>) {
    forall i :: 0 <= i < |past| ==> !Ends(past[i])
  }

  /** All that a child answers if it is resumed until it ends. */
  function Life(script: seq<Step>): (r: seq<Step>)
    ensures r != [] && Ends(r[|r| - 1])
  {
    if script == [] then [Done]
    else if Ends(script[0]) then [script[0]]
    else [script[0]] + Life(script[1..])
  }

  lemma {:induction false} LifeGoesOn(past: seq<Step>, script: seq<Step>)
    requires Going(past)
    ensures Life(past + script) == past + Life(script)
  {
    if past == [] {
      assert past + script == script;
    } else {
      assert !Ends(past[0]);
      assert (past + script)[1..] == past[1..] + script;
      LifeGoesOn(past[1..], script);
    }
  }

  function LastValue(past: seq<Step>): int {
    if past == [] then 0
    else if Produces(past[|past| - 1]) then past[|past| - 1].v
    else LastValue(past[..|past| - 1])
  }

  /** A child's life ends in an error. */
  predicate Breaks(origin: seq<Step>) {
    Life(origin)[|Life(origin)| - 1].Error?
  }

  /** A child in the middle or at the end of its life, which holds the last value it gave. */
  predicate Story(origin: seq<Step>, c: Child) {
    && (if c.done then c.past == Life(origin) && !Breaks(origin) else Going(c.past) && c.past + c.script == origin)
    && (c.hasValue <==> Produced(c.past) > 0) && (c.hasValue ==> c.value == LastValue(c.past))
  }

  predicate Stories(origin: seq<seq<Step>>, s: State) {
    |origin| == |s.children| && forall i :: 0 <= i < |s.children| ==> Story(origin[i], s.children[i])
  }

  lemma {:induction false} LastSnoc(past: seq<Step>, step: Step)
    ensures LastValue(past + [step]) == if Produces(step) then step.v else LastValue(past)
  {
    assert (past + [step])[..|past|] == past;
  }

  lemma {:induction false} StoryResumed(origin: seq<Step>, c: Child)
    requires Story(origin, c) && !c.done
    ensures if NextStep(c).Error? then Breaks(origin) else Story(origin, ResumeChild(c))
  {
    hide Produced, LastValue, Life;
    var step := NextStep(c);
    ProducedSnoc(c.past, step);
    LastSnoc(c.past, step);
    if Ends(step) {
      LifeGoesOn(c.past, c.script);
      LifeStops(c);
    } else {
      assert c.past + [step] + c.script[1..] == c.past + c.script;
    }
  }

  lemma {:induction false} LifeStops(c: Child)
    requires Ends(NextStep(c))
    ensures Life(c.script) == [NextStep(c)]
  {
  }

  ghost predicate SomeBreaks(origin: seq<seq<Step>>) {
    exists i :: 0 <= i < |origin| && Breaks(origin[i])
  }

  lemma {:induction false} OneStories(mode: Mode, origin: seq<seq<Step>>, s: State, i: nat, progressed: bool)
    requires (mode.AllDone? || mode.Latest?) && Stories(origin, s) && i < |s.children| && Runnable(mode, s, i)
    ensures var one := One(mode, s, i, progressed);
            && (one.Halt? ==> one.end.Stop? && (one.end.outcome.Failed? || one.end.outcome.Event?))
            && (if one.Halt? && one.end.outcome.Failed? then SomeBreaks(origin) else Stories(origin, one.state))
            && (mode.AllDone? && one.Halt? ==> one.end.outcome.Failed?)
  {
    hide Story, Breaks, ResumeChild, AllHaveValue, Ended;
    StoryResumed(origin[i], s.children[i]);
  }

  lemma {:induction false} PassStories(mode: Mode, origin: seq<seq<Step>>, s: State, start: nat, n: nat, progressed: bool)
    requires (mode.AllDone? || mode.Latest?) && Stories(origin, s) && start < |s.children| && n <= |s.children|
    ensures var (s1, end) := Pass(mode, s, start, n, progressed);
            && (end.Stop? ==> end.outcome.Failed? || (end.outcome.Event? && mode.Latest?))
            && (if end.Stop? && end.outcome.Failed? then SomeBreaks(origin) else Stories(origin, s1))
    decreases |s.children| - n
  {
    hide One, Turn, Runnable, Stories, SomeBreaks;
    if n < |s.children| {
      var i := Turn(start, n, |s.children|);
      if !Runnable(mode, s, i) {
        PassStories(mode, origin, s, start, n + 1, progressed);
      } else {
        OneStories(mode, origin, s, i, progressed);
        var one := One(mode, s, i, progressed);
        if one.Go? {
          PassStories(mode, origin, one.state, start, n + 1, one.progressed);
        }
      }
    }
  }

  /** What a resume of ALL_DONE or LATEST answers. */
  ghost predicate StoryStep(mode: Mode, origin: seq<seq<Step>>, s': State, o: Outcome) {
    match o
    case Joined(_) => mode.AllDone? && Stories(origin, s') && Ended(s'.children) && AllHaveValue(s'.children)
    case Failed => SomeBreaks(origin) || (mode.AllDone? && Stories(origin, s') && Ended(s'.children) && !AllHaveValue(s'.children))
    case Finished => mode.Latest? && Stories(origin, s') && (Ended(s'.children) || EndedEmpty(s'.children))
    case Event(_, _, _) => mode.Latest? && Stories(origin, s')
    case Waiting => Stories(origin, s')
  }

  lemma {:induction false} RoundsStories(mode: Mode, origin: seq<seq<Step>>, s: State)
    requires (mode.AllDone? || mode.Latest?) && Stories(origin, s) && s.cursor < |s.children|
    ensures var (s', o) := Rounds(mode, s); StoryStep(mode, origin, s', o)
    decreases Remaining(s.children)
  {
    hide Pass, Remaining, AnyRunnable, Ended, AllHaveValue, EndedEmpty, Story, SomeBreaks;
    if !Ended(s.children) {
      PassStories(mode, origin, s, s.cursor, 0, false);
      RoundShrinks(mode, s);
      var (s1, end) := Pass(mode, s, s.cursor, 0, false);
      if end.Through? && !(mode.Latest? && EndedEmpty(s1.children))
         && ((mode.AllDone? && Ended(s1.children)) || end.progressed || AnyRunnable(mode, s1))
      {
        RoundsStories(mode, origin, s1);
      }
    }
  }

  lemma {:induction false} StoriesFlags(origin: seq<seq<Step>>, s: State, s': State)
    requires Stories(origin, s) && |s'.children| == |s.children|
    requires forall i :: 0 <= i < |s.children| ==> FlagsOnly(s.children[i], s'.children[i])
    ensures Stories(origin, s')
  {
    hide Story;
    forall i | 0 <= i < |s.children| ensures Story(origin[i], s'.children[i]) {
      assert FlagsOnly(s.children[i], s'.children[i]);
      StoryFlags(origin[i], s.children[i], s'.children[i]);
    }
  }

  lemma {:induction false} StoryFlags(origin: seq<Step>, c: Child, d: Child)
    requires Story(origin, c) && FlagsOnly(c, d)
    ensures Story(origin, d)
  {
  }

  lemma {:induction false} RunStories(mode: Mode, origin: seq<seq<Step>>, s: State, acts: seq<Action>)
    requires (mode.AllDone? || mode.Latest?) && Stories(origin, s) && Running(s) && s.cursor < |s.children|
    ensures var (s', outs) := Run(mode, s, acts);
            if Over(outs) then StoryStep(mode, origin, s', outs[|outs| - 1]) else Stories(origin, s')
    decreases |acts|
  {
    hide Stories, Arm, Wake, Rounds, StoryStep;
    if acts != [] {
      match acts[0]
      case WakeIt(i) =>
        if i < |s.children| {
          WakeFlags(s, i);
          StoriesFlags(origin, s, Wake(s, i).0);
          RunStories(mode, origin, Wake(s, i).0, acts[1..]);
        } else {
          RunStories(mode, origin, s, acts[1..]);
        }
      case ArmIt =>
        ArmFlags(mode, s);
        StoriesFlags(origin, s, Arm(mode, s).0);
        RunStories(mode, origin, Arm(mode, s).0, acts[1..]);
      case ResumeIt =>
        RoundsStories(mode, origin, s);
        var (s1, o) := Resume(mode, s);
        if !Terminal(o) {
          RoundsCounts(mode, s);
          StoryGoesOn(mode, origin, s1, o);
          RunStories(mode, origin, s1, acts[1..]);
        }
    }
  }

  lemma {:induction false} StoryGoesOn(mode: Mode, origin: seq<seq<Step>>, s: State, o: Outcome)
    requires StoryStep(mode, origin, s, o) && !o.Failed?
    ensures Stories(origin, s)
  {
    hide Stories;
  }

  lemma {:induction false} InitStories(origin: seq<seq<Step>>)
    ensures Stories(origin, Init(origin)) && Running(Init(origin))
  {
    var s := Init(origin);
    forall i | 0 <= i < |origin| ensures Story(origin[i], s.children[i]) {
      assert [] + origin[i] == origin[i];
    }
  }

  // ----- ALL_DONE

  /** A child's life has a value in it and does not end in an error. */
  predicate Delivers(origin: seq<Step>) {
    !Breaks(origin) && Produced(Life(origin)) > 0
  }

  ghost predicate EveryDelivers(origin: seq<seq<Step>>) {
    forall i :: 0 <= i < |origin| ==> Delivers(origin[i])
  }

  /** Main result about ALL_DONE: its verdict does not depend on the order of wakes. A run that
      ends has joined exactly when every child, resumed to its end, gives a value and no error;
      and then every child has ended and holds the last value of its whole life. */
  lemma {:induction false} AllDoneVerdict(origin: seq<seq<Step>>, acts: seq<Action>)
    requires origin != []
    ensures var (s, outs) := Run(AllDone, Init(origin), acts);
            Over(outs) ==>
              && (outs[|outs| - 1].Joined? <==> EveryDelivers(origin))
              && (outs[|outs| - 1].Joined? ==>
                    && |s.children| == |origin|
                    && forall i :: 0 <= i < |origin| ==>
                         && s.children[i].done && s.children[i].past == Life(origin[i])
                         && s.children[i].value == LastValue(Life(origin[i])))
  {
    hide Run, Life, Produced, LastValue, Breaks;
    InitStories(origin);
    RunStories(AllDone, origin, Init(origin), acts);
    var (s, outs) := Run(AllDone, Init(origin), acts);
    if Over(outs) {
      var o := outs[|outs| - 1];
      if o.Joined? {
        forall i | 0 <= i < |origin| ensures Delivers(origin[i]) {
          assert Story(origin[i], s.children[i]) && s.children[i].done && s.children[i].hasValue;
        }
      } else if !SomeBreaks(origin) {
        var i :| 0 <= i < |s.children| && !s.children[i].hasValue;
        assert Story(origin[i], s.children[i]) && s.children[i].done;
        assert !Delivers(origin[i]);
      }
    }
  }

  // ----- LATEST

  /** In every run of LATEST that has not failed each child holds the last value it gave, and
      what it said is all of its life once it has ended, and the beginning of it before. The
      run fails only when a child's life ends in an error, and it finishes only when every
      child has ended or one has ended without ever giving a value. */
  lemma {:induction false} LatestVerdict(origin: seq<seq<Step>>, acts: seq<Action>)
    requires origin != []
    ensures var (s, outs) := Run(Latest, Init(origin), acts);
            && (Over(outs) && outs[|outs| - 1].Failed? ==> SomeBreaks(origin))
            && (Over(outs) && outs[|outs| - 1].Finished? ==> Ended(s.children) || EndedEmpty(s.children))
            && (!(Over(outs) && outs[|outs| - 1].Failed?) ==>
                  && |s.children| == |origin|
                  && forall i :: 0 <= i < |origin| ==>
                       && s.children[i].past <= Life(origin[i]) && (s.children[i].done ==> s.children[i].past == Life(origin[i]))
                       && (s.children[i].hasValue ==> s.children[i].value == LastValue(s.children[i].past)))
  {
    hide Run, Life, Produced, LastValue, Breaks, Ended, EndedEmpty, SomeBreaks;
    InitStories(origin);
    RunStories(Latest, origin, Init(origin), acts);
    var (s, outs) := Run(Latest, Init(origin), acts);
    if !(Over(outs) && outs[|outs| - 1].Failed?) {
      forall i | 0 <= i < |origin| ensures s.children[i].past <= Life(origin[i]) {
        assert Story(origin[i], s.children[i]);
        LifeBegins(origin[i], s.children[i]);
      }
    }
  }

  lemma {:induction false} LifeBegins(origin: seq<Step>, c: Child)
    requires Story(origin, c)
    ensures c.past <= Life(origin)
  {
    hide Life;
    if !c.done {
      LifeGoesOn(c.past, c.script);
    }
  }

  /** An event of LATEST names the child that just gave a value, which it holds; every child has
      a value by then; the event is the last exactly when all have ended; and the next pass
      begins after that child. Once every child had a value, no other one gave a further value. */
  ghost predicate Names(s: State, s': State, k: nat, last: bool) {
    && |s'.children| == |s.children| && k < |s.children|
    && Gave(s.children[k], s'.children[k])
    && AllHaveValue(s'.children) && (last <==> Ended(s'.children))
    && s'.cursor == (k + 1) % |s.children|
    && (AllHaveValue(s.children) ==>
          forall j :: 0 <= j < |s.children| && j != k ==> Quiet(s.children[j], s'.children[j]))
  }

  /** The child was resumed, gave a value and holds it. */
  predicate Gave(c: Child, d: Child) {
    Produces(NextStep(c)) && d.past == c.past + [NextStep(c)] && d.hasValue && d.value == NextStep(c).v
  }

  /** The child was left alone or gave no value. */
  predicate Quiet(c: Child, d: Child) {
    d == c || (d == ResumeChild(c) && !Produces(NextStep(c)))
  }

  lemma {:induction false} OneNames(s: State, i: nat, progressed: bool)
    requires i < |s.children| && One(Latest, s, i, progressed).Halt?
    ensures var one := One(Latest, s, i, progressed);
            one.end.Stop? && one.end.outcome.Event? ==> one.end.outcome.index == i && Names(s, one.state, i, one.end.outcome.last)
  {
  }

  /** Turns of other children before the one that ends the pass. */
  lemma {:induction false} NamesLater(s: State, i: nat, progressed: bool, s': State, k: nat, last: bool)
    requires i < |s.children| && Runnable(Latest, s, i) && One(Latest, s, i, progressed).Go?
    requires k != i && Names(One(Latest, s, i, progressed).state, s', k, last) && s'.children[i] == One(Latest, s, i, progressed).state.children[i]
    ensures Names(s, s', k, last)
  {
    hide ResumeChild, NextStep, Ended, Produces;
    var s1 := One(Latest, s, i, progressed).state;
    OneGrows(Latest, s, i, progressed);
    if AllHaveValue(s.children) {
      OneBarrier(s, i, progressed);
      GoIsQuiet(s, i, progressed);
    }
  }

  lemma {:induction false} GoIsQuiet(s: State, i: nat, progressed: bool)
    requires i < |s.children| && One(Latest, s, i, progressed).Go? && AllHaveValue(One(Latest, s, i, progressed).state.children)
    ensures Quiet(s.children[i], One(Latest, s, i, progressed).state.children[i])
  {
    hide AllHaveValue, Ended;
  }

  lemma {:induction false} PassNames(s: State, start: nat, n: nat, progressed: bool)
    requires start < |s.children| && n <= |s.children|
    ensures var (s1, end) := Pass(Latest, s, start, n, progressed);
            && |s1.children| == |s.children|
            && (forall m :: 0 <= m < n ==> s1.children[Turn(start, m, |s.children|)] == s.children[Turn(start, m, |s.children|)])
            && (end.Stop? && end.outcome.Event? ==>
                  && Names(s, s1, end.outcome.index, end.outcome.last)
                  && forall m :: 0 <= m < n ==> Turn(start, m, |s.children|) != end.outcome.index)
    decreases |s.children| - n
  {
    hide One, Turn, Runnable, Names;
    if n < |s.children| {
      var i := Turn(start, n, |s.children|);
      if !Runnable(Latest, s, i) {
        PassNames(s, start, n + 1, progressed);
      } else {
        OtherTurns(start, n, |s.children|);
        var one := One(Latest, s, i, progressed);
        OneElsewhere(s, i, progressed);
        if one.Go? {
          PassNames(one.state, start, n + 1, one.progressed);
          var (s1, end) := Pass(Latest, s, start, n, progressed);
          assert s1.children[Turn(start, n, |s.children|)] == one.state.children[i];
          if end.Stop? && end.outcome.Event? {
            assert Turn(start, n, |s.children|) != end.outcome.index;
            NamesLater(s, i, progressed, s1, end.outcome.index, end.outcome.last);
          }
        } else {
          OneNames(s, i, progressed);
        }
      }
    }
  }

  lemma {:induction false} OneElsewhere(s: State, i: nat, progressed: bool)
    requires i < |s.children|
    ensures var s1 := One(Latest, s, i, progressed).state;
            |s1.children| == |s.children| && forall j :: 0 <= j < |s.children| && j != i ==> s1.children[j] == s.children[j]
  {
    hide AllHaveValue, Ended, ResumeChild;
  }

  /** Main result about LATEST, for every state it may be resumed in. */
  lemma {:induction false} LatestNames(s: State)
    requires s.cursor < |s.children|
    ensures var (s', o) := Resume(Latest, s); o.Event? ==> Names(s, s', o.index, o.last)
  {
    hide Pass, Names, Ended, AllHaveValue, EndedEmpty, AnyRunnable, Remaining;
    if !s.error && !Ended(s.children) {
      PassNames(s, s.cursor, 0, false);
      PassExhausts(Latest, s, s.cursor, 0, false);
      RoundShrinks(Latest, s);
      var (s1, end) := Pass(Latest, s, s.cursor, 0, false);
      if end.Through? {
        IdleHasNoEvent(s1);
      }
    }
  }

  lemma {:induction false} IdleHasNoEvent(s: State)
    requires s.cursor < |s.children| && !AnyRunnable(Latest, s)
    ensures !Rounds(Latest, s).1.Event?
  {
    hide Pass, Ended, AllHaveValue, EndedEmpty, AnyRunnable, Remaining;
    PassIdle(Latest, s, s.cursor, 0, false);
  }

  // ----- waking

  /** After a wait that was armed, the wake of an armed child calls the stored waker once, and
      then the coordinator has a child to run. */
  lemma {:induction false} WakeAfterArming(mode: Mode, origin: seq<seq<Step>>, s: State, woken: seq<nat>)
    requires !mode.Latest? && Good(mode, origin, s) && s.cursor < |s.children|
    requires Resume(mode, s).1.Waiting?
    ensures var (armed, called) := Arm(mode, WakeAll(Resume(mode, s).0, woken));
            || called
            || exists i :: 0 <= i < |armed.children| && armed.children[i].armed
                 && Wake(armed, i).1 && !Wake(armed, i).0.waiter && AnyRunnable(mode, Wake(armed, i).0)
  {
    hide Good, Resume, Inv, AnyRunnable, Arm, Wake;
    GoodInv(mode, origin, s);
    WaitIsSound(mode, origin, s);
    ResumeGood(mode, origin, s);
    var s1 := Resume(mode, s).0;
    var i :| 0 <= i < |s1.children| && !s1.children[i].done && s1.children[i].waiting;
    WaitingCandidate(mode, origin, s1, i);
    CandidateWoken(mode, s1, i, woken);
    WokenRuns(mode, WakeAll(s1, woken), i);
  }

  lemma {:induction false} WokenRuns(mode: Mode, s: State, i: nat)
    requires Candidate(mode, s, i) && !mode.Latest?
    ensures var (armed, called) := Arm(mode, s);
            || called
            || (i < |armed.children| && armed.children[i].armed && Wake(armed, i).1 && !Wake(armed, i).0.waiter
                && AnyRunnable(mode, Wake(armed, i).0))
  {
    var (armed, called) := Arm(mode, s);
    if !called {
      ArmedCandidate(mode, s, i);
      assert Runnable(mode, Wake(armed, i).0, i);
    }
  }

  // ----- arming is exact

  /** A resume has something to do: it resumes a child. */
  predicate Works(mode: Mode, s: State)
    requires s.cursor < |s.children|
  {
    Remaining(Resume(mode, s).0.children) < Remaining(s.children)
  }

  lemma {:induction false} RoundsWork(mode: Mode, s: State)
    requires !mode.Sequence? && s.cursor < |s.children| && AnyRunnable(mode, s)
    ensures Remaining(Rounds(mode, s).0.children) < Remaining(s.children)
  {
    hide Pass, Remaining, AllHaveValue, Ended, AnyRunnable, EndedEmpty;
    RunnableIsOpen(mode, s);
    PassShrinks(mode, s, s.cursor, 0, false);
    IdleMeansNone(mode, s, s.cursor);
    RoundShrinks(mode, s);
    var (s1, end) := Pass(mode, s, s.cursor, 0, false);
    RoundsLess(mode, s1);
  }

  lemma {:induction false} RunnableIsOpen(mode: Mode, s: State)
    requires AnyRunnable(mode, s)
    ensures !Ended(s.children) && (mode.All? ==> !AllHaveValue(s.children))
  {
  }

  lemma {:induction false} RoundsLess(mode: Mode, s: State)
    requires !mode.Sequence? && s.cursor < |s.children|
    ensures Remaining(Rounds(mode, s).0.children) <= Remaining(s.children)
    decreases Remaining(s.children)
  {
    hide Pass, Remaining, AllHaveValue, Ended, AnyRunnable, EndedEmpty;
    CancelShrinks(s.children, CancelAll(s.children));
    PassShrinks(mode, s, s.cursor, 0, false);
    if !(mode.All? && AllHaveValue(s.children)) && !(mode.AllDone? && Ended(s.children)) && !(mode.Latest? && Ended(s.children)) {
      RoundShrinks(mode, s);
      var (s1, end) := Pass(mode, s, s.cursor, 0, false);
      if end.Through? &&
         (|| (mode.All? && AllHaveValue(s1.children)) || (mode.AllDone? && Ended(s1.children))
          || (end.progressed && !mode.Any?) || AnyRunnable(mode, s1))
      {
        RoundsLess(mode, s1);
      }
    }
  }

  lemma {:induction false} SequenceLess(s: State)
    ensures Remaining(ResumeSequence(s).0.children) <= Remaining(s.children)
    ensures AnyRunnable(Sequence, s) ==> Remaining(ResumeSequence(s).0.children) < Remaining(s.children)
    decreases |s.children| - s.sequenceIndex
  {
    hide Remaining, ResumeChild;
    if s.sequenceIndex < |s.children| {
      var i := s.sequenceIndex;
      var c := s.children[i];
      RemainingUpdate(s.children, i, ResumeChild(c));
      EmitLess(s);
      if !c.waiting && c.done && !c.hasValue {
        SequenceLess(s.(sequenceIndex := i + 1));
      } else if !c.waiting && !c.hasValue {
        ResumedWeight(c);
        EmitLess(SequenceResumed(s));
        if NextStep(c).Done? {
          SequenceLess(SequenceResumed(s).(sequenceIndex := i + 1));
        }
      }
    }
  }

  lemma {:induction false} ResumedWeight(c: Child)
    requires !c.done
    ensures Weight(ResumeChild(c)) < Weight(c)
  {
  }

  lemma {:induction false} EmitLess(s: State)
    requires s.sequenceIndex < |s.children|
    ensures Remaining(Emit(s).0.children) <= Remaining(s.children)
  {
    hide Remaining;
    RemainingUpdate(s.children, s.sequenceIndex, Finish(s.children[s.sequenceIndex]));
  }

  /** Nothing can run, and no barrier is met: a resume changes nothing and waits. */
  lemma {:induction false} IdleWaits(mode: Mode, s: State)
    requires !mode.Sequence? && s.cursor < |s.children| && !AnyRunnable(mode, s) && !s.error
    requires mode.All? ==> !s.emittedAll && !AllHaveValue(s.children)
    requires mode.AllDone? ==> !s.emittedAll && !Ended(s.children)
    requires mode.Any? ==> !Ended(s.children)
    requires !mode.Latest?
    ensures Resume(mode, s) == (s, Waiting)
  {
    hide Pass, AllHaveValue, Ended, AnyRunnable, Remaining;
    PassIdle(mode, s, s.cursor, 0, false);
  }

  lemma {:induction false} RunnableWorks(mode: Mode, s: State)
    requires s.cursor < |s.children| && Running(s) && AnyRunnable(mode, s)
    ensures Works(mode, s)
  {
    hide Rounds, ResumeSequence, Remaining, AnyRunnable;
    if mode.Sequence? {
      SequenceLess(s);
    } else {
      RoundsWork(mode, s);
    }
  }

  /** Main result about arming: after a wait, and whatever wakes come first, the waker is called at
      once exactly when a resume would run a child; otherwise a resume would change nothing and
      wait again. */
  lemma {:induction false} ArmedExactly(mode: Mode, origin: seq<seq<Step>>, s: State, woken: seq<nat>)
    requires !mode.Latest? && Good(mode, origin, s) && s.cursor < |s.children|
    requires Resume(mode, s).1.Waiting?
    ensures var w := WakeAll(Resume(mode, s).0, woken);
            && w.cursor < |w.children|
            && (Arm(mode, w).1 <==> Works(mode, w))
            && (!Arm(mode, w).1 ==> Resume(mode, w) == (w, Waiting))
  {
    hide Good, Inv, AnyRunnable, Resume;
    GoodInv(mode, origin, s);
    WaitIsSound(mode, origin, s);
    ResumeGood(mode, origin, s);
    var s1 := Resume(mode, s).0;
    GoodRuns(mode, origin, s1);
    var i :| 0 <= i < |s1.children| && !s1.children[i].done && s1.children[i].waiting;
    WaitingCandidate(mode, origin, s1, i);
    CandidateWoken(mode, s1, i, woken);
    WokenRunning(s1, woken);
    var w := WakeAll(s1, woken);
    if AnyRunnable(mode, w) {
      RunnableWorks(mode, w);
    } else {
      CandidateWaits(mode, w, i);
    }
  }

  lemma {:induction false} WokenRunning(s: State, woken: seq<nat>)
    requires Running(s) && s.cursor < |s.children|
    ensures var w := WakeAll(s, woken); Running(w) && w.cursor < |w.children|
    decreases |woken|
  {
    if woken != [] {
      WokenRunning(if woken[0] < |s.children| then Wake(s, woken[0]).0 else s, woken[1..]);
    }
  }

  lemma {:induction false} CandidateWaits(mode: Mode, s: State, i: nat)
    requires s.cursor < |s.children| && Running(s) && !mode.Latest? && Candidate(mode, s, i) && !AnyRunnable(mode, s)
    ensures Resume(mode, s) == (s, Waiting)
  {
    hide Rounds, AnyRunnable;
    NoneRunnable(mode, s, i);
    if !mode.Sequence? {
      IdleWaits(mode, s);
    }
  }
}
