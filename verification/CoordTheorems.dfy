/** The main results about coordinators, for every list of children and every order of resumes,
arms and wakes up to the first terminal answer. */
module CoordTheorems {
  import opened CoordModel
  import opened CoordLaws
  import opened CoordRuns
  import opened CoordOnce

  datatype Action = ResumeIt | ArmIt | WakeIt(child: nat)

  function Start(script: seq<Step>): Child {
    Child(script, [], false, 0, false, false, false)
  }

  function Init(origin: seq<seq<Step>>): State {
    State(seq(|origin|, i requires 0 <= i < |origin| => Start(origin[i])), 0, 0, 0, false, false, false)
  }

  function Run(mode: Mode, s: State, acts: seq<Action>): (r: (State, seq<Outcome>))
    requires s.cursor < |s.children|
    ensures r.0.cursor < |r.0.children| == |s.children|
    decreases |acts|
  {
    if acts == [] then (s, [])
    else
      match acts[0]
      case WakeIt(i) => Run(mode, if i < |s.children| then Wake(s, i).0 else s, acts[1..])
      case ArmIt => Run(mode, Arm(mode, s).0, acts[1..])
      case ResumeIt =>
        var (s1, o) := Resume(mode, s);
        if Terminal(o) then (s1, [o])
        else
          var (s2, outs) := Run(mode, s1, acts[1..]);
          (s2, [o] + outs)
  }

  predicate Over(outs: seq<Outcome>) {
    |outs| > 0 && Terminal(outs[|outs| - 1])
  }

  function Events(outs: seq<Outcome>): nat {
    if outs == [] then 0 else (if outs[0].Event? || outs[0].Joined? then 1 else 0) + Events(outs[1..])
  }

  function Indices(outs: seq<Outcome>): seq<nat> {
    if outs == [] then []
    else (if outs[0].Event? then [outs[0].index] else []) + Indices(outs[1..])
  }

  // ----- every answer is counted

  predicate Counts(s: State, s': State, o: Outcome) {
    && s'.generation == s.generation + (if o.Event? || o.Joined? then 1 else 0)
    && (o.Event? || o.Joined? ==> o.generation == s'.generation)
    && (!Terminal(o) ==> s'.error == s.error && s'.emittedAll == s.emittedAll)
  }

  lemma {:induction false} OneCounts(mode: Mode, s: State, i: nat, progressed: bool)
    requires !mode.Sequence? && i < |s.children|
    ensures var one := One(mode, s, i, progressed);
            && (one.Halt? && one.end.Stop? ==> Counts(s, one.state, one.end.outcome))
            && (one.Go? || one.end.Through? ==>
                  one.state.generation == s.generation && one.state.error == s.error && one.state.emittedAll == s.emittedAll)
  {
    hide AllHaveValue, Ended, ResumeChild, CancelOthers;
  }

  lemma {:induction false} PassCounts(mode: Mode, s: State, start: nat, n: nat, progressed: bool)
    requires !mode.Sequence? && start < |s.children| && n <= |s.children|
    ensures var (s1, end) := Pass(mode, s, start, n, progressed);
            && (end.Stop? ==> Counts(s, s1, end.outcome))
            && (end.Through? ==> s1.generation == s.generation && s1.error == s.error && s1.emittedAll == s.emittedAll)
    decreases |s.children| - n
  {
    hide One, Turn, Runnable;
    if n < |s.children| {
      var i := Turn(start, n, |s.children|);
      if !Runnable(mode, s, i) {
        PassCounts(mode, s, start, n + 1, progressed);
      } else {
        OneCounts(mode, s, i, progressed);
        var one := One(mode, s, i, progressed);
        if one.Go? {
          PassCounts(mode, one.state, start, n + 1, one.progressed);
        }
      }
    }
  }

  lemma {:induction false} RoundsCounts(mode: Mode, s: State)
    requires !mode.Sequence? && s.cursor < |s.children|
    ensures var (s', o) := Rounds(mode, s); Counts(s, s', o)
    decreases Remaining(s.children)
  {
    hide Pass, AllHaveValue, Ended, Remaining, AnyRunnable, EndedEmpty;
    PassCounts(mode, s, s.cursor, 0, false);
    if !(mode.All? && AllHaveValue(s.children)) && !(mode.AllDone? && Ended(s.children)) && !(mode.Latest? && Ended(s.children)) {
      RoundShrinks(mode, s);
      var (s1, end) := Pass(mode, s, s.cursor, 0, false);
      if end.Through? &&
         (|| (mode.All? && AllHaveValue(s1.children)) || (mode.AllDone? && Ended(s1.children))
          || (end.progressed && !mode.Any?) || AnyRunnable(mode, s1))
      {
        RoundsCounts(mode, s1);
      }
    }
  }

  lemma {:induction false} SequenceCounted(s: State)
    ensures var (s', o) := ResumeSequence(s); Counts(s, s', o)
    decreases |s.children| - s.sequenceIndex
  {
    hide ResumeChild;
    if s.sequenceIndex < |s.children| {
      var i := s.sequenceIndex;
      var c := s.children[i];
      if !c.waiting && c.done && !c.hasValue {
        SequenceCounted(s.(sequenceIndex := i + 1));
      } else if !c.waiting && !c.hasValue && NextStep(c).Done? {
        SequenceCounted(SequenceResumed(s).(sequenceIndex := i + 1));
      }
    }
  }

  lemma {:induction false} ResumeCounts(mode: Mode, s: State)
    requires s.cursor < |s.children|
    ensures var (s', o) := Resume(mode, s); Counts(s, s', o)
  {
    hide Rounds, ResumeSequence;
    if mode.Sequence? {
      SequenceCounted(s);
    } else {
      RoundsCounts(mode, s);
    }
  }

  // ----- the invariants along a run

  predicate Running(s: State) {
    !s.error && !s.emittedAll
  }

  /** A state reached without a terminal answer. */
  predicate Good(mode: Mode, origin: seq<seq<Step>>, s: State) {
    Running(s) && Inv(mode, origin, s) && |origin| == |s.children|
  }

  lemma {:induction false} InitGood(mode: Mode, origin: seq<seq<Step>>)
    requires origin != []
    ensures Good(mode, origin, Init(origin))
  {
    var s := Init(origin);
    forall i | 0 <= i < |origin| ensures Fresh(origin[i], s.children[i]) && Sane(s.children[i]) {
      assert [] + origin[i] == origin[i];
    }
    assert !s.children[0].hasValue;
  }

  lemma {:induction false} ResumeGood(mode: Mode, origin: seq<seq<Step>>, s: State)
    requires Good(mode, origin, s) && s.cursor < |s.children|
    ensures var (s', o) := Resume(mode, s);
            && (!Terminal(o) ==> Good(mode, origin, s'))
            && (mode.Latest? ==> Inv(mode, origin, s'))
  {
    hide Rounds, ResumeSequence, Inv;
    ResumeCounts(mode, s);
    if mode.Sequence? {
      SequenceKeeps(origin, s);
      assert SequenceStep(origin, s, ResumeSequence(s).0, ResumeSequence(s).1);
    } else {
      RoundsKeeps(mode, origin, s);
    }
  }

  lemma {:induction false} FreshFlags(origin: seq<Step>, c: Child, w: bool, a: bool)
    ensures var d := c.(waiting := w, armed := a);
            && (Fresh(origin, c) ==> Fresh(origin, d)) && (Answered(origin, c) ==> Answered(origin, d))
            && (Exhausted(origin, c) ==> Exhausted(origin, d))
            && (Sane(c) && (w ==> c.waiting) ==> Sane(d))
  {
  }

  /** Changing only flags of children that wait keeps the invariants. */
  lemma {:induction false} FlagsGood(mode: Mode, origin: seq<seq<Step>>, s: State, s': State)
    requires Good(mode, origin, s) && |s'.children| == |s.children|
    requires s' == s.(children := s'.children, waiter := s'.waiter)
    requires forall i :: 0 <= i < |s.children| ==> FlagsOnly(s.children[i], s'.children[i])
    ensures Good(mode, origin, s')
  {
    hide Fresh, Answered, Exhausted, Sane, Produced, SumProduced;
    forall i | 0 <= i < |s.children|
      ensures Sane(s.children[i]) ==> Sane(s'.children[i])
      ensures Fresh(origin[i], s.children[i]) ==> Fresh(origin[i], s'.children[i])
      ensures Answered(origin[i], s.children[i]) ==> Answered(origin[i], s'.children[i])
      ensures Exhausted(origin[i], s.children[i]) ==> Exhausted(origin[i], s'.children[i])
    {
      assert FlagsOnly(s.children[i], s'.children[i]);
      FreshFlags(origin[i], s.children[i], s'.children[i].waiting, s'.children[i].armed);
    }
    if mode.Latest? {
      SumFlags(s.children, s'.children);
      assert AllHaveValue(s.children) == AllHaveValue(s'.children);
    }
  }

  predicate FlagsOnly(c: Child, d: Child) {
    d == c.(waiting := d.waiting, armed := d.armed) && (d.waiting ==> c.waiting)
  }

  lemma {:induction false} SumFlags(cs: seq<Child>, ds: seq<Child>)
    requires |cs| == |ds| && forall i :: 0 <= i < |cs| ==> FlagsOnly(cs[i], ds[i])
    ensures SumProduced(cs) == SumProduced(ds)
    ensures forall i :: 0 <= i < |cs| ==> ds[i].past == cs[i].past && ds[i].hasValue == cs[i].hasValue
  {
    if cs != [] {
      SumFlags(cs[1..], ds[1..]);
      forall i | 0 <= i < |cs| ensures ds[i].past == cs[i].past && ds[i].hasValue == cs[i].hasValue {
        assert FlagsOnly(cs[i], ds[i]);
      }
    }
  }

  lemma {:induction false} WakeGood(mode: Mode, origin: seq<seq<Step>>, s: State, i: nat)
    requires Good(mode, origin, s) && i < |s.children|
    ensures Good(mode, origin, Wake(s, i).0)
  {
    hide Good;
    FlagsGood(mode, origin, s, Wake(s, i).0);
  }

  lemma {:induction false} ArmGood(mode: Mode, origin: seq<seq<Step>>, s: State)
    requires Good(mode, origin, s)
    ensures Good(mode, origin, Arm(mode, s).0)
  {
    hide Good, AnyRunnable;
    GoodRuns(mode, origin, s);
    FlagsGood(mode, origin, s, Arm(mode, s).0);
  }

  lemma {:induction false} GoodRuns(mode: Mode, origin: seq<seq<Step>>, s: State)
    requires Good(mode, origin, s)
    ensures Running(s) && |origin| == |s.children| && s.cursor < |s.children|
  {
  }

  /** Along every run: the events are counted by the generation, and the invariant holds until
      a terminal answer; that of LATEST holds after it as well. */
  lemma {:induction false} RunKeeps(mode: Mode, origin: seq<seq<Step>>, s: State, acts: seq<Action>)
    requires Good(mode, origin, s) && s.cursor < |s.children|
    ensures var (s', outs) := Run(mode, s, acts);
            && s'.generation == s.generation + Events(outs)
            && (Over(outs) || Good(mode, origin, s'))
            && (mode.Latest? ==> Inv(mode, origin, s'))
    decreases |acts|
  {
    hide Good, Resume, Arm, Wake, Inv;
    GoodInv(mode, origin, s);
    if acts != [] {
      match acts[0]
      case WakeIt(i) =>
        if i < |s.children| {
          WakeGood(mode, origin, s, i);
          WakeSame(mode, s, i);
          GoodRuns(mode, origin, Wake(s, i).0);
          RunKeeps(mode, origin, Wake(s, i).0, acts[1..]);
        } else {
          RunKeeps(mode, origin, s, acts[1..]);
        }
      case ArmIt =>
        ArmGood(mode, origin, s);
        ArmSame(mode, s);
        GoodRuns(mode, origin, Arm(mode, s).0);
        RunKeeps(mode, origin, Arm(mode, s).0, acts[1..]);
      case ResumeIt =>
        ResumeGood(mode, origin, s);
        ResumeCounts(mode, s);
        var (s1, o) := Resume(mode, s);
        if !Terminal(o) {
          RunKeeps(mode, origin, s1, acts[1..]);
          var (s2, outs) := Run(mode, s1, acts[1..]);
          assert ([o] + outs)[1..] == outs;
        }
    }
  }

  lemma {:induction false} GoodInv(mode: Mode, origin: seq<seq<Step>>, s: State)
    requires Good(mode, origin, s)
    ensures Inv(mode, origin, s)
  {
  }

  lemma {:induction false} WakeSame(mode: Mode, s: State, i: nat)
    requires i < |s.children|
    ensures var s' := Wake(s, i).0;
            s'.generation == s.generation && s'.sequenceIndex == s.sequenceIndex && s'.cursor == s.cursor && |s'.children| == |s.children|
  {
  }

  lemma {:induction false} ArmSame(mode: Mode, s: State)
    ensures var s' := Arm(mode, s).0;
            s'.generation == s.generation && s'.sequenceIndex == s.sequenceIndex && s'.cursor == s.cursor && |s'.children| == |s.children|
  {
  }

  // ----- main results

  /** LATEST conserves values: until every child has one there are no events and no child gave
      more than one; from then on the events are the values but for the first of each child
      other than the last to start. */
  lemma {:induction false} LatestConserves(origin: seq<seq<Step>>, acts: seq<Action>)
    requires origin != []
    ensures var (s, outs) := Run(Latest, Init(origin), acts);
            && (!AllHaveValue(s.children) ==>
                  Events(outs) == 0 && forall i :: 0 <= i < |s.children| ==> Produced(s.children[i].past) <= 1)
            && (AllHaveValue(s.children) ==> Events(outs) + (|origin| - 1) == SumProduced(s.children))
            && s.generation == Events(outs)
  {
    hide Run, Good, Produced, SumProduced, Events;
    InitGood(Latest, origin);
    GoodRuns(Latest, origin, Init(origin));
    RunKeeps(Latest, origin, Init(origin), acts);
  }

  /** In every run, a coordinator in another mode than LATEST that waits has an unfinished
      child that waits. */
  lemma {:induction false} EveryWaitIsSound(mode: Mode, origin: seq<seq<Step>>, acts: seq<Action>)
    requires !mode.Latest? && origin != []
    ensures var (s, outs) := Run(mode, Init(origin), acts);
            !Over(outs) && Resume(mode, s).1.Waiting? ==> SomeWaiting(Resume(mode, s).0)
  {
    hide Run, Good, Resume, Inv;
    InitGood(mode, origin);
    GoodRuns(mode, origin, Init(origin));
    RunKeeps(mode, origin, Init(origin), acts);
    var (s, outs) := Run(mode, Init(origin), acts);
    if !Over(outs) && Resume(mode, s).1.Waiting? {
      GoodInv(mode, origin, s);
      WaitIsSound(mode, origin, s);
    }
  }

  /** What a whole run in SEQUENCE mode has emitted. */
  lemma {:induction false} SequenceRuns(origin: seq<seq<Step>>, s: State, acts: seq<Action>) returns (k: nat)
    requires Good(Sequence, origin, s) && s.cursor < |s.children| && s.sequenceIndex <= |origin|
    ensures var (s', outs) := Run(Sequence, s, acts);
            && s.sequenceIndex <= |origin|
            && k <= |origin| && Producers(origin, k) == Producers(origin, s.sequenceIndex) + Indices(outs)
            && (Over(outs) && !outs[|outs| - 1].Failed? ==> k == |origin|)
            && (Over(outs) && outs[|outs| - 1].Failed? ==> exists i :: 0 <= i < |origin| && FirstAnswer(origin[i]).Error?)
    decreases |acts|
  {
    hide Good, Arm, Wake, ResumeSequence, Inv, Producers, FirstAnswer, SequenceInv;
    GoodRuns(Sequence, origin, s);
    GoodInv(Sequence, origin, s);
    k := s.sequenceIndex;
    if acts != [] {
      match acts[0]
      case WakeIt(i) =>
        if i < |s.children| {
          WakeGood(Sequence, origin, s, i);
          WakeSame(Sequence, s, i);
          k := SequenceRuns(origin, Wake(s, i).0, acts[1..]);
        } else {
          k := SequenceRuns(origin, s, acts[1..]);
        }
      case ArmIt =>
        ArmGood(Sequence, origin, s);
        ArmSame(Sequence, s);
        k := SequenceRuns(origin, Arm(Sequence, s).0, acts[1..]);
      case ResumeIt =>
        ResumeGood(Sequence, origin, s);
        SequenceKeeps(origin, s);
        var (s1, o) := Resume(Sequence, s);
        assert SequenceStep(origin, s, s1, o);
        if !Terminal(o) {
          k := SequenceRuns(origin, s1, acts[1..]);
          var (s2, outs) := Run(Sequence, s1, acts[1..]);
          assert ([o] + outs)[1..] == outs;
        } else {
          k := if o.Failed? then s.sequenceIndex else s1.sequenceIndex;
          assert Indices([o]) == (if o.Event? then [o.index] else []) + Indices([]);
        }
    }
  }

  /** SEQUENCE emits, whatever the order of wakes, an initial part of the list of children whose
      first answer is a value, and all of it when the run ends without a failure. */
  lemma {:induction false} SequenceEmitsProducers(origin: seq<seq<Step>>, acts: seq<Action>) returns (k: nat)
    requires origin != []
    ensures k <= |origin|
    ensures var (s, outs) := Run(Sequence, Init(origin), acts);
            && Indices(outs) == Producers(origin, k)
            && (forall i, j :: 0 <= i < j < |Indices(outs)| ==> Indices(outs)[i] < Indices(outs)[j])
            && (Over(outs) && !outs[|outs| - 1].Failed? ==> k == |origin|)
            && (Over(outs) && outs[|outs| - 1].Failed? ==> exists i :: 0 <= i < |origin| && FirstAnswer(origin[i]).Error?)
  {
    hide Run, Good, FirstAnswer;
    InitGood(Sequence, origin);
    GoodRuns(Sequence, origin, Init(origin));
    k := SequenceRuns(origin, Init(origin), acts);
    ProducersIncrease(origin, k);
  }

  // ----- ALL

  ghost predicate EveryFirstIsValue(origin: seq<seq<Step>>) {
    forall i :: 0 <= i < |origin| ==> Produces(FirstAnswer(origin[i]))
  }

  lemma {:induction false} OneFails(origin: seq<seq<Step>>, s: State, i: nat, progressed: bool)
    requires AllInv(origin, s) && i < |s.children| && Runnable(All, s, i)
    ensures var one := One(All, s, i, progressed);
            one.Halt? && one.end.Stop? ==> one.end.outcome.Failed? && !EveryFirstIsValue(origin)
  {
    hide AllInv, AllHaveValue, FirstAnswer, ResumeChild;
    AllLength(origin, s);
    AllResumed(origin, s, i);
  }

  lemma {:induction false} AllLength(origin: seq<seq<Step>>, s: State)
    requires AllInv(origin, s)
    ensures |origin| == |s.children|
  {
  }

  lemma {:induction false} PassFails(origin: seq<seq<Step>>, s: State, start: nat, n: nat, progressed: bool)
    requires Inv(All, origin, s) && start < |s.children| && n <= |s.children|
    ensures var (s1, end) := Pass(All, s, start, n, progressed);
            end.Stop? ==> end.outcome.Failed? && !EveryFirstIsValue(origin)
    decreases |s.children| - n
  {
    hide One, Turn, Runnable, AllInv, EveryFirstIsValue, Base;
    if n < |s.children| {
      var i := Turn(start, n, |s.children|);
      if !Runnable(All, s, i) {
        PassFails(origin, s, start, n + 1, progressed);
      } else {
        OneFails(origin, s, i, progressed);
        OneKeeps(All, origin, s, i, progressed);
        var one := One(All, s, i, progressed);
        if one.Go? {
          PassFails(origin, one.state, start, n + 1, one.progressed);
        }
      }
    }
  }

  lemma {:induction false} AllJoined(origin: seq<seq<Step>>, s: State)
    requires AllInv(origin, s) && AllHaveValue(s.children)
    ensures EveryFirstIsValue(origin)
    ensures forall i :: 0 <= i < |origin| ==> CancelAll(s.children)[i].done && CancelAll(s.children)[i].value == FirstAnswer(origin[i]).v
  {
    hide FirstAnswer, OnlyWaits;
    forall i | 0 <= i < |origin|
      ensures Produces(FirstAnswer(origin[i])) && CancelAll(s.children)[i].value == FirstAnswer(origin[i]).v
    {
      assert s.children[i].hasValue;
    }
  }

  /** What one resume in ALL mode answers. */
  ghost predicate AllStep(origin: seq<seq<Step>>, s': State, o: Outcome) {
    && |origin| == |s'.children|
    && (o.Joined? ==>
          && EveryFirstIsValue(origin)
          && forall i :: 0 <= i < |origin| ==> s'.children[i].done && s'.children[i].value == FirstAnswer(origin[i]).v)
    && (o.Failed? ==> !EveryFirstIsValue(origin))
    && (o.Joined? || o.Failed? || o.Waiting?)
  }

  lemma {:induction false} RoundsVerdict(origin: seq<seq<Step>>, s: State)
    requires Inv(All, origin, s) && s.cursor < |s.children|
    ensures var (s', o) := Rounds(All, s); AllStep(origin, s', o)
    decreases Remaining(s.children)
  {
    hide Pass, AllHaveValue, Remaining, AnyRunnable, FirstAnswer, AllInv, Base, EveryFirstIsValue;
    AllLength(origin, s);
    if AllHaveValue(s.children) {
      AllJoined(origin, s);
    } else {
      PassKeeps(All, origin, s, s.cursor, 0, false);
      PassFails(origin, s, s.cursor, 0, false);
      RoundShrinks(All, s);
      var (s1, end) := Pass(All, s, s.cursor, 0, false);
      if end.Through? && (AllHaveValue(s1.children) || end.progressed || AnyRunnable(All, s1)) {
        RoundsVerdict(origin, s1);
      }
    }
  }

  /** The verdict of ALL does not depend on the order of wakes: a run that ends has joined
      exactly when every child's first answer is a value, and then every child is done and
      holds that value. */
  lemma {:induction false} AllVerdict(origin: seq<seq<Step>>, s: State, acts: seq<Action>)
    requires Good(All, origin, s) && s.cursor < |s.children|
    ensures var (s', outs) := Run(All, s, acts);
            Over(outs) ==>
              && (outs[|outs| - 1].Joined? <==> EveryFirstIsValue(origin))
              && (EveryFirstIsValue(origin) ==>
                    forall i :: 0 <= i < |origin| ==> i < |s'.children| && s'.children[i].done && s'.children[i].value == FirstAnswer(origin[i]).v)
    decreases |acts|
  {
    hide Good, Arm, Wake, Rounds, Inv, EveryFirstIsValue, FirstAnswer;
    GoodRuns(All, origin, s);
    GoodInv(All, origin, s);
    if acts != [] {
      match acts[0]
      case WakeIt(i) =>
        if i < |s.children| {
          WakeGood(All, origin, s, i);
          WakeSame(All, s, i);
          AllVerdict(origin, Wake(s, i).0, acts[1..]);
        } else {
          AllVerdict(origin, s, acts[1..]);
        }
      case ArmIt =>
        ArmGood(All, origin, s);
        ArmSame(All, s);
        AllVerdict(origin, Arm(All, s).0, acts[1..]);
      case ResumeIt =>
        ResumeGood(All, origin, s);
        RoundsVerdict(origin, s);
        var (s1, o) := Resume(All, s);
        assert AllStep(origin, s1, o);
        if !Terminal(o) {
          AllVerdict(origin, s1, acts[1..]);
        }
    }
  }

  // ----- arming after a wait

  function WakeAll(s: State, woken: seq<nat>): State
    decreases |woken|
  {
    if woken == [] then s
    else WakeAll(if woken[0] < |s.children| then Wake(s, woken[0]).0 else s, woken[1..])
  }

  /** Child `i` is waiting or can run. */
  predicate Candidate(mode: Mode, s: State, i: nat) {
    && i < |s.children| && !s.children[i].done
    && (mode.All? || mode.Sequence? ==> !s.children[i].hasValue)
    && (mode.Sequence? ==> i == s.sequenceIndex)
  }

  lemma {:induction false} CandidateWoken(mode: Mode, s: State, i: nat, woken: seq<nat>)
    requires Candidate(mode, s, i)
    ensures var s' := WakeAll(s, woken); Candidate(mode, s', i) && s'.error == s.error
    decreases |woken|
  {
    if woken != [] {
      CandidateWoken(mode, if woken[0] < |s.children| then Wake(s, woken[0]).0 else s, i, woken[1..]);
    }
  }

  lemma {:induction false} WaitingCandidate(mode: Mode, origin: seq<seq<Step>>, s: State, i: nat)
    requires Good(mode, origin, s) && !mode.Latest? && i < |s.children| && !s.children[i].done && s.children[i].waiting
    ensures Candidate(mode, s, i)
  {
    if mode.All? {
      AllAt(origin, s, i);
    } else if mode.Sequence? {
      SequenceBounds(origin, s);
      assert i == s.sequenceIndex;
      SequenceFresh(origin, s, i);
    }
  }

  /** After a wait, and whatever wakes come before the coordinator is armed, arming either calls
      the waker at once or stores it while an unfinished child is armed. */
  lemma {:induction false} ArmingAfterWait(mode: Mode, origin: seq<seq<Step>>, s: State, woken: seq<nat>)
    requires !mode.Latest? && Good(mode, origin, s) && s.cursor < |s.children|
    requires Resume(mode, s).1.Waiting?
    ensures var (armed, called) := Arm(mode, WakeAll(Resume(mode, s).0, woken));
            || called
            || (armed.waiter && exists i :: 0 <= i < |armed.children| && !armed.children[i].done && armed.children[i].waiting && armed.children[i].armed)
  {
    hide Good, Resume, Inv;
    GoodInv(mode, origin, s);
    WaitIsSound(mode, origin, s);
    ResumeGood(mode, origin, s);
    var s1 := Resume(mode, s).0;
    var i :| 0 <= i < |s1.children| && !s1.children[i].done && s1.children[i].waiting;
    WaitingCandidate(mode, origin, s1, i);
    CandidateWoken(mode, s1, i, woken);
    ArmedCandidate(mode, WakeAll(s1, woken), i);
  }

  lemma {:induction false} ArmedCandidate(mode: Mode, s: State, i: nat)
    requires Candidate(mode, s, i) && !mode.Latest?
    ensures var (armed, called) := Arm(mode, s);
            called || (armed.waiter && i < |armed.children| && !armed.children[i].done && armed.children[i].waiting && armed.children[i].armed)
  {
    if !AnyRunnable(mode, s) {
      NoneRunnable(mode, s, i);
    }
  }

  /** When LATEST waits for nothing, arming stores a waker that no child will call. */
  lemma {:induction false} LatestNeverCalled(s: State)
    requires s.cursor < |s.children| && !s.error && Quitting(s) && !Ended(s.children)
    ensures var (armed, called) := Arm(Latest, Resume(Latest, s).0);
            !called && armed.waiter && !SomeWaiting(armed)
  {
    hide Pass, Rounds, Resume;
    LatestWaitsForNothing(s);
    RoundsWait(Latest, s);
    RoundsCounts(Latest, s);
    LatestIsRounds(s);
  }

  lemma {:induction false} LatestIsRounds(s: State)
    requires s.cursor < |s.children| && !s.error
    ensures Resume(Latest, s) == Rounds(Latest, s)
  {
  }

  /** A single child that gives a value and then ends: LATEST answers the value, then a wait
      for nothing. */
  lemma {:induction false} LatestCanWaitForNothing()
    ensures var (s, outs) := Run(Latest, Init([[Value(7)]]), [ResumeIt, ResumeIt]);
            outs == [Event(0, 1, false), Waiting] && !SomeWaiting(s)
  {
    var s0 := Init([[Value(7)]]);
    var s1 := AfterResume(s0, 0).(generation := 1);
    assert Turn(0, 0, 1) == 0;
    assert !s0.children[0].hasValue;
    assert Runnable(Latest, s0, 0);
    assert NextStep(s0.children[0]) == Value(7);
    assert AfterResume(s0, 0).children[0].hasValue && !AfterResume(s0, 0).children[0].done;
    assert One(Latest, s0, 0, false) == Halt(s1, Stop(Event(0, 1, false)));
    assert Pass(Latest, s0, 0, 0, false) == (s1, Stop(Event(0, 1, false)));
    assert Resume(Latest, s0) == (s1, Event(0, 1, false));
    assert s1.children[0].script == [];
    assert Quitting(s1) && !Ended(s1.children);
    LatestWaitsForNothing(s1);
    var s2 := Resume(Latest, s1).0;
    var one: seq<Action> := [ResumeIt];
    assert Resume(Latest, s1) == (s2, Waiting);
    assert one[1..] == [] && [ResumeIt, ResumeIt][1..] == one;
    assert Run(Latest, s2, one[1..]) == (s2, []);
    assert Run(Latest, s1, one) == (s2, [Waiting]) by { assert [Waiting] + [] == [Waiting]; }
  }
}
