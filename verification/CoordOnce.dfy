/** How often a child is resumed within one resume of the coordinator, and when LATEST waits for
nothing. */
module CoordOnce {
  import opened CoordModel
  import opened CoordLaws
  import opened CoordRuns

  predicate SinglePass(mode: Mode) {
    mode.All? || mode.Any? || mode.Latest?
  }

  /** After its turn a child cannot run again in the same resume. */
  lemma {:induction false} OneIdle(mode: Mode, s: State, i: nat, progressed: bool)
    requires SinglePass(mode) && i < |s.children| && Runnable(mode, s, i) && One(mode, s, i, progressed).Go?
    ensures var s1 := One(mode, s, i, progressed).state;
            forall j :: 0 <= j < |s.children| ==> (Runnable(mode, s1, j) <==> j != i && Runnable(mode, s, j))
  {
    var s1 := One(mode, s, i, progressed).state;
    assert forall j :: 0 <= j < |s.children| && j != i ==> s1.children[j] == s.children[j];
    if mode.Latest? {
      assert AllHaveValue(s1.children) == AllHaveValue(s.children) by { OneBarrier(s, i, progressed); }
    }
  }

  lemma {:induction false} OneBarrier(s: State, i: nat, progressed: bool)
    requires i < |s.children| && Runnable(Latest, s, i) && One(Latest, s, i, progressed).Go?
    ensures AllHaveValue(One(Latest, s, i, progressed).state.children) == AllHaveValue(s.children)
  {
    hide Produced, SumProduced;
    Resumed(s, i);
    var s1 := One(Latest, s, i, progressed).state;
    if !Produces(NextStep(s.children[i])) {
      assert forall j :: 0 <= j < |s.children| ==> s1.children[j].hasValue == s.children[j].hasValue;
    }
  }

  predicate IdleUpTo(mode: Mode, s: State, start: nat, n: nat)
    requires n <= |s.children|
  {
    forall m :: 0 <= m < n ==> !Runnable(mode, s, Turn(start, m, |s.children|))
  }

  /** A pass that runs through leaves nothing to run, unless it met the barrier of ALL. */
  lemma {:induction false} PassExhausts(mode: Mode, s: State, start: nat, n: nat, progressed: bool)
    requires SinglePass(mode) && start < |s.children| && n <= |s.children| && IdleUpTo(mode, s, start, n)
    ensures var r := Pass(mode, s, start, n, progressed);
            r.1.Through? ==> !AnyRunnable(mode, r.0) || (mode.All? && AllHaveValue(r.0.children))
    decreases |s.children| - n
  {
    hide One, Turn, Runnable, AllHaveValue, AnyRunnable;
    if n < |s.children| {
      var i := Turn(start, n, |s.children|);
      if !Runnable(mode, s, i) {
        PassExhausts(mode, s, start, n + 1, progressed);
      } else {
        var one := One(mode, s, i, progressed);
        OneBreaks(mode, s, i, progressed);
        if one.Go? {
          OneIdle(mode, s, i, progressed);
          PassExhausts(mode, one.state, start, n + 1, one.progressed);
        }
      }
    } else {
      IdleMeansNone(mode, s, start);
    }
  }

  lemma {:induction false} OneBreaks(mode: Mode, s: State, i: nat, progressed: bool)
    requires !mode.Sequence? && i < |s.children|
    ensures var one := One(mode, s, i, progressed);
            one.Halt? && one.end.Through? ==> mode.All? && AllHaveValue(one.state.children)
  {
    hide AllHaveValue, Ended, AfterResume;
  }

  lemma {:induction false} PassIdle(mode: Mode, s: State, start: nat, n: nat, progressed: bool)
    requires !mode.Sequence? && start < |s.children| && n <= |s.children| && !AnyRunnable(mode, s)
    ensures Pass(mode, s, start, n, progressed) == (s, Through(progressed))
    decreases |s.children| - n
  {
    hide One, Turn, Runnable;
    if n < |s.children| {
      PassIdle(mode, s, start, n + 1, progressed);
    }
  }

  /** Children with the same pasts: what differs is whether they were cancelled. */
  predicate SamePasts(a: seq<Child>, b: seq<Child>) {
    |a| == |b| && forall i :: 0 <= i < |a| ==> a[i].past == b[i].past
  }

  predicate Closed(mode: Mode, s: State) {
    (mode.All? && AllHaveValue(s.children)) || (mode.Latest? && Ended(s.children))
  }

  /** ALL, ANY and LATEST make one pass that matters. */
  lemma {:induction false} OneRound(mode: Mode, s: State)
    requires SinglePass(mode) && s.cursor < |s.children| && !Closed(mode, s)
    ensures SamePasts(Rounds(mode, s).0.children, Pass(mode, s, s.cursor, 0, false).0.children)
  {
    hide Pass, AllHaveValue, Ended, Remaining, AnyRunnable, EndedEmpty;
    PassExhausts(mode, s, s.cursor, 0, false);
    RoundShrinks(mode, s);
    var (s1, end) := Pass(mode, s, s.cursor, 0, false);
    if end.Through? && !(mode.All? && AllHaveValue(s1.children)) {
      PassIdle(mode, s1, s1.cursor, 0, false);
    }
  }

  // ----- at most once

  /** A child was resumed at most once. */
  predicate Grew(a: Child, b: Child) {
    b.past == a.past || b.past == a.past + [NextStep(a)]
  }

  lemma {:induction false} OneGrows(mode: Mode, s: State, i: nat, progressed: bool)
    requires !mode.Sequence? && i < |s.children|
    ensures var s1 := One(mode, s, i, progressed).state;
            && s1.children[i].past == s.children[i].past + [NextStep(s.children[i])]
            && (forall j :: 0 <= j < |s.children| && j != i ==> s1.children[j].past == s.children[j].past)
            && (One(mode, s, i, progressed).Go? ==> forall j :: 0 <= j < |s.children| && j != i ==> s1.children[j] == s.children[j])
  {
    hide AllHaveValue, Ended, ResumeChild, NextStep, Produces;
    ResumedPast(s.children[i]);
  }

  lemma {:induction false} PassGrows(mode: Mode, s: State, start: nat, n: nat, progressed: bool)
    requires !mode.Sequence? && start < |s.children| && n <= |s.children|
    ensures var cs := Pass(mode, s, start, n, progressed).0.children;
            && (forall m :: 0 <= m < n ==> cs[Turn(start, m, |s.children|)].past == s.children[Turn(start, m, |s.children|)].past)
            && (forall i :: 0 <= i < |s.children| ==> Grew(s.children[i], cs[i]))
    decreases |s.children| - n
  {
    hide One, Turn, Runnable, NextStep;
    if n < |s.children| {
      var i := Turn(start, n, |s.children|);
      if !Runnable(mode, s, i) {
        PassGrows(mode, s, start, n + 1, progressed);
      } else {
        OneGrows(mode, s, i, progressed);
        OtherTurns(start, n, |s.children|);
        var one := One(mode, s, i, progressed);
        if one.Go? {
          PassGrows(mode, one.state, start, n + 1, one.progressed);
          var cs := Pass(mode, s, start, n, progressed).0.children;
          assert cs[Turn(start, n, |s.children|)].past == one.state.children[i].past;
        }
      }
    }
  }

  lemma {:induction false} OtherTurns(start: nat, n: nat, count: nat)
    requires start < count && n < count
    ensures forall m :: 0 <= m < n ==> Turn(start, m, count) != Turn(start, n, count)
  {
    hide Turn;
    forall m | 0 <= m < n ensures Turn(start, m, count) != Turn(start, n, count) {
      TurnIs(start, m, count);
      TurnIs(start, n, count);
    }
  }

  lemma {:induction false} ResumedPast(c: Child)
    ensures ResumeChild(c).past == c.past + [NextStep(c)]
  {
  }

  /** Children below `k` were left alone and the others resumed at most once. */
  predicate GrewFrom(k: nat, a: seq<Child>, b: seq<Child>) {
    && |a| == |b|
    && (forall i :: 0 <= i < |a| && i < k ==> b[i].past == a[i].past)
    && (forall i :: 0 <= i < |a| ==> Grew(a[i], b[i]))
  }

  lemma {:induction false} GrewOne(k: nat, a: seq<Child>, c: Child, b: seq<Child>)
    requires k < |a| && (c.past == a[k].past || c.past == a[k].past + [NextStep(a[k])])
    requires GrewFrom(k + 1, a[k := c], b)
    ensures GrewFrom(k, a, b)
  {
    hide NextStep;
    forall i | 0 <= i < |a| ensures Grew(a[i], b[i]) && (i < k ==> b[i].past == a[i].past) {
      assert Grew(a[k := c][i], b[i]);
    }
  }

  lemma {:induction false} GrewSame(k: nat, a: seq<Child>)
    ensures GrewFrom(k, a, a)
  {
  }

  lemma {:induction false} SequenceGrows(s: State)
    ensures GrewFrom(s.sequenceIndex, s.children, ResumeSequence(s).0.children)
    decreases |s.children| - s.sequenceIndex
  {
    hide ResumeChild, GrewFrom;
    var r, k := ResumeSequence(s), s.sequenceIndex;
    GrewSame(k, s.children);
    if k < |s.children| {
      var c := s.children[k];
      ResumedPast(c);
      if !c.waiting && c.done && !c.hasValue {
        SequenceGrows(s.(sequenceIndex := k + 1));
        assert s.children[k := c] == s.children;
        GrewOne(k, s.children, c, r.0.children);
      } else if !c.waiting && !c.hasValue && NextStep(c).Done? {
        SequenceGrows(SequenceResumed(s).(sequenceIndex := k + 1));
        GrewOne(k, s.children, ResumeChild(c), r.0.children);
      } else if !c.waiting {
        var c1 := r.0.children[k];
        GrewSame(k + 1, s.children[k := c1]);
        assert r.0.children == s.children[k := c1];
        GrewOne(k, s.children, c1, r.0.children);
      }
    }
  }

  /** One resume in any mode but ALL_DONE resumes each child at most once. */
  lemma {:induction false} EachAtMostOnce(mode: Mode, s: State, i: nat)
    requires !mode.AllDone? && s.cursor < |s.children| && i < |s.children|
    ensures var cs := Resume(mode, s).0.children; |cs| == |s.children| && Grew(s.children[i], cs[i])
  {
    hide Rounds, ResumeSequence, Pass, NextStep, AllHaveValue, Ended;
    if mode.Sequence? {
      SequenceGrows(s);
      assert GrewFrom(s.sequenceIndex, s.children, ResumeSequence(s).0.children);
    } else if !Closed(mode, s) {
      OneRound(mode, s);
      PassGrows(mode, s, s.cursor, 0, false);
    } else {
      ClosedRounds(mode, s);
    }
  }

  lemma {:induction false} ClosedRounds(mode: Mode, s: State)
    requires !mode.Sequence? && s.cursor < |s.children| && Closed(mode, s)
    ensures SamePasts(Rounds(mode, s).0.children, s.children)
    ensures mode.Latest? ==> Rounds(mode, s) == (s, Finished)
  {
  }

  // ----- LATEST can wait for nothing

  /** Every child has a value and every child that has not finished is about to end. */
  predicate Quitting(s: State) {
    && AllHaveValue(s.children)
    && forall i :: 0 <= i < |s.children| ==>
         s.children[i].done || (!s.children[i].waiting && NextStep(s.children[i]).Done?)
  }

  lemma {:induction false} OneQuits(s: State, i: nat, progressed: bool)
    requires i < |s.children| && Runnable(Latest, s, i)
    ensures var one := One(Latest, s, i, progressed);
            && (Quitting(s) ==> one == Go(one.state, progressed) && Quitting(one.state))
            && (one.Go? && Quitting(one.state) ==> Quitting(s))
  {
    var one := One(Latest, s, i, progressed);
    if Quitting(s) {
      assert one == Go(AfterResume(s, i), progressed);
    }
    if one.Go? && Quitting(one.state) {
      OneBarrier(s, i, progressed);
      assert forall j :: 0 <= j < |s.children| && j != i ==> one.state.children[j] == s.children[j];
      forall j | 0 <= j < |s.children|
        ensures s.children[j].done || (!s.children[j].waiting && NextStep(s.children[j]).Done?)
      {
        assert one.state.children[j].done || !one.state.children[j].waiting;
      }
    }
  }

  lemma {:induction false} PassQuits(s: State, start: nat, n: nat, progressed: bool)
    requires start < |s.children| && n <= |s.children|
    ensures var r := Pass(Latest, s, start, n, progressed);
            && (Quitting(s) ==> r.1 == Through(progressed) && Quitting(r.0))
            && (r.1.Through? && Quitting(r.0) ==> Quitting(s))
    decreases |s.children| - n
  {
    hide One, Turn, Runnable, Quitting;
    if n < |s.children| {
      var i := Turn(start, n, |s.children|);
      if !Runnable(Latest, s, i) {
        PassQuits(s, start, n + 1, progressed);
      } else {
        OneQuits(s, i, progressed);
        OneBreaks(Latest, s, i, progressed);
        var one := One(Latest, s, i, progressed);
        if one.Go? {
          PassQuits(one.state, start, n + 1, one.progressed);
        }
      }
    }
  }

  /** The answer of LATEST after a pass. */
  lemma {:induction false} LatestRound(s: State)
    requires s.cursor < |s.children| && !Ended(s.children)
    ensures var (s1, end) := Pass(Latest, s, s.cursor, 0, false);
            && (end.Through? ==> !AnyRunnable(Latest, s1))
            && (Rounds(Latest, s).1.Waiting? <==>
                  end.Through? && !EndedEmpty(s1.children) && !(end.progressed && Ended(s1.children)))
            && (Rounds(Latest, s).1.Waiting? ==> Rounds(Latest, s).0 == s1)
  {
    hide Pass, AllHaveValue, Ended, Remaining, AnyRunnable, EndedEmpty;
    PassExhausts(Latest, s, s.cursor, 0, false);
    PassStops(Latest, s, s.cursor, 0, false);
    RoundShrinks(Latest, s);
    var (s1, end) := Pass(Latest, s, s.cursor, 0, false);
    if end.Through? {
      PassIdle(Latest, s1, s1.cursor, 0, false);
    }
  }

  lemma {:induction false} NothingLeft(s: State)
    requires !AnyRunnable(Latest, s) && !EndedEmpty(s.children)
    ensures !SomeWaiting(s) ==> AllHaveValue(s.children) && Ended(s.children) && Quitting(s)
    ensures Quitting(s) ==> Ended(s.children) && !SomeWaiting(s)
  {
    if !SomeWaiting(s) {
      forall i | 0 <= i < |s.children| ensures s.children[i].hasValue {
        NoneRunnable(Latest, s, i);
      }
      forall i | 0 <= i < |s.children| ensures s.children[i].done {
        NoneRunnable(Latest, s, i);
      }
    }
    if Quitting(s) {
      forall i | 0 <= i < |s.children| ensures s.children[i].done {
        NoneRunnable(Latest, s, i);
      }
    }
  }

  /** LATEST answers that it waits while no child is waiting exactly when, every child having
      a value, all unfinished children end at this resume without a further one. */
  lemma {:induction false} LatestWaitsForNothing(s: State)
    requires s.cursor < |s.children| && !s.error
    ensures Resume(Latest, s).1.Waiting? && !SomeWaiting(Resume(Latest, s).0) <==> Quitting(s) && !Ended(s.children)
  {
    hide Pass, Quitting, Rounds, SomeWaiting;
    if !Ended(s.children) {
      LatestRound(s);
      PassQuits(s, s.cursor, 0, false);
      var (s1, end) := Pass(Latest, s, s.cursor, 0, false);
      QuittingHasValues(s1);
      if end.Through? && !EndedEmpty(s1.children) {
        NothingLeft(s1);
      }
    } else {
      ClosedRounds(Latest, s);
    }
  }

  lemma {:induction false} QuittingHasValues(s: State)
    ensures Quitting(s) ==> !EndedEmpty(s.children)
  {
  }
}
