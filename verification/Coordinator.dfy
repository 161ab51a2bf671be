/** The coordinator as it works in place: children's flags and value slots, the cursor and the
other fields change step by step in the resume loops. */
module Coordinator {
  import opened CoordModel

  lemma {:induction false} PassSkips(mode: Mode, s: State, start: nat, n: nat, progressed: bool)
    requires !mode.Sequence? && start < |s.children| && n < |s.children|
    requires !Runnable(mode, s, Turn(start, n, |s.children|))
    ensures Pass(mode, s, start, n, progressed) == Pass(mode, s, start, n + 1, progressed)
  {
  }

  lemma {:induction false} PassTakes(mode: Mode, s: State, start: nat, n: nat, progressed: bool)
    requires !mode.Sequence? && start < |s.children| && n < |s.children|
    requires Runnable(mode, s, Turn(start, n, |s.children|))
    ensures Pass(mode, s, start, n, progressed) ==
              match One(mode, s, Turn(start, n, |s.children|), progressed)
              case Halt(s1, end) => (s1, end)
              case Go(s1, p) => Pass(mode, s1, start, n + 1, p)
  {
    hide One, Turn, Runnable;
  }

  lemma {:induction false} PassEnds(mode: Mode, s: State, start: nat, progressed: bool)
    requires !mode.Sequence? && start < |s.children|
    ensures Pass(mode, s, start, |s.children|, progressed) == (s, Through(progressed))
  {
  }

  /** One round of the loop, given where its pass ends. */
  lemma {:induction false} RoundGoesOn(mode: Mode, s: State, s1: State, progressed: bool)
    requires !mode.Sequence? && s.cursor < |s.children|
    requires mode.All? ==> !AllHaveValue(s.children)
    requires mode.AllDone? || mode.Latest? ==> !Ended(s.children)
    requires Pass(mode, s, s.cursor, 0, false) == (s1, Through(progressed))
    ensures s1.cursor < |s1.children| == |s.children|
    ensures Rounds(mode, s) ==
              if mode.Any? && Ended(s1.children) then (s1, Finished)
              else if mode.Latest? && EndedEmpty(s1.children) then (s1, Finished)
              else if || (mode.All? && AllHaveValue(s1.children)) || (mode.AllDone? && Ended(s1.children))
                      || (progressed && !mode.Any?) || AnyRunnable(mode, s1) then Rounds(mode, s1)
              else (s1, Waiting)
    ensures || (mode.All? && AllHaveValue(s1.children)) || (mode.AllDone? && Ended(s1.children))
            || progressed || AnyRunnable(mode, s1)
            ==> Remaining(s1.children) < Remaining(s.children)
  {
    hide Pass, AllHaveValue, Ended, Remaining, AnyRunnable, EndedEmpty;
    RoundShrinks(mode, s);
  }

  lemma {:induction false} RoundStops(mode: Mode, s: State, s1: State, o: Outcome)
    requires !mode.Sequence? && s.cursor < |s.children|
    requires mode.All? ==> !AllHaveValue(s.children)
    requires mode.AllDone? || mode.Latest? ==> !Ended(s.children)
    requires Pass(mode, s, s.cursor, 0, false) == (s1, Stop(o))
    ensures Rounds(mode, s) == (s1, o)
  {
    hide Pass, AllHaveValue, Ended, Remaining, AnyRunnable, EndedEmpty;
  }

  class Coordinator {
    const mode: Mode
    const children: array<Child>
    var cursor: nat
    var sequenceIndex: nat
    var generation: nat
    var emittedAll: bool
    var error: bool
    var waiter: bool

    ghost function Abs(): State
      reads this, children
    {
      State(children[..], cursor, sequenceIndex, generation, emittedAll, error, waiter)
    }

    ghost predicate Valid()
      reads this
    {
      cursor < children.Length
    }

    constructor (mode: Mode, scripts: seq<seq<Step>>)
      requires scripts != []
      ensures Valid() && this.mode == mode && fresh(children)
      ensures Abs() == State(seq(|scripts|, i requires 0 <= i < |scripts| => Child(scripts[i], [], false, 0, false, false, false)), 0, 0, 0, false, false, false)
    {
      this.mode := mode;
      children := new Child[|scripts|](i requires 0 <= i < |scripts| => Child(scripts[i], [], false, 0, false, false, false));
      cursor, sequenceIndex, generation := 0, 0, 0;
      emittedAll, error, waiter := false, false, false;
    }

    // ----- scans

    method HaveValues() returns (r: bool)
      ensures r == AllHaveValue(children[..])
    {
      var i := 0;
      while i < children.Length
        invariant 0 <= i <= children.Length && forall k :: 0 <= k < i ==> children[k].hasValue
      {
        if !children[i].hasValue {
          assert !children[..][i].hasValue;
          return false;
        }
        i := i + 1;
      }
      return true;
    }

    method HaveEnded() returns (r: bool)
      ensures r == Ended(children[..])
    {
      var i := 0;
      while i < children.Length
        invariant 0 <= i <= children.Length && forall k :: 0 <= k < i ==> children[k].done
      {
        if !children[i].done {
          assert !children[..][i].done;
          return false;
        }
        i := i + 1;
      }
      return true;
    }

    method CanRun(i: nat) returns (r: bool)
      requires i < children.Length
      ensures r == Runnable(mode, Abs(), i)
    {
      var c := children[i];
      if c.done || c.waiting {
        return false;
      }
      match mode
      case All => return !c.hasValue;
      case AllDone => return true;
      case Any => return true;
      case Latest =>
        r := HaveValues();
        return r || !c.hasValue;
      case Sequence => return i == sequenceIndex && !c.hasValue;
    }

    method SomeCanRun() returns (r: bool)
      ensures r == AnyRunnable(mode, Abs())
    {
      hide Runnable;
      var i := 0;
      while i < children.Length
        invariant 0 <= i <= children.Length && forall k :: 0 <= k < i ==> !Runnable(mode, Abs(), k)
      {
        r := CanRun(i);
        if r {
          return;
        }
        i := i + 1;
      }
      return false;
    }

    // ----- changes of one or all children

    /** Resumes a child and moves the cursor past it. */
    method ResumeAt(i: nat) returns (step: Step)
      requires Valid() && i < children.Length
      modifies this`cursor, children
      ensures Valid() && Abs() == AfterResume(old(Abs()), i) && step == NextStep(old(children[i]))
    {
      step := NextStep(children[i]);
      children[i] := ResumeChild(children[i]);
      cursor := (i + 1) % children.Length;
    }

    method CancelExcept(winner: nat)
      modifies children
      ensures Abs() == old(Abs()).(children := CancelOthers(old(children[..]), winner))
    {
      var i := 0;
      while i < children.Length
        invariant 0 <= i <= children.Length
        invariant forall k :: 0 <= k < i ==> children[k] == (if k == winner then old(children[k]) else Finish(old(children[k])))
        invariant forall k :: i <= k < children.Length ==> children[k] == old(children[k])
      {
        if i != winner {
          children[i] := children[i].(done := true);
        }
        i := i + 1;
      }
      assert children[..] == CancelOthers(old(children[..]), winner);
    }

    // ----- the five resume loops

    method ResumeAll() returns (o: Outcome)
      requires Valid() && mode.All?
      modifies this, children
      ensures Valid() && (Abs(), o) == Rounds(All, old(Abs()))
    {
      hide Pass, Rounds, Runnable, Remaining, AllHaveValue, AnyRunnable, Turn, ResumeChild;
      while true
        invariant Valid() && Rounds(All, Abs()) == Rounds(All, old(Abs()))
        decreases Remaining(children[..])
      {
        ghost var s := Abs();
        var ready := HaveValues();
        if ready {
          AllReady(s);
          assert CancelOthers(children[..], children.Length) == CancelAll(children[..]);
          CancelExcept(children.Length);
          emittedAll, generation := true, generation + 1;
          return Joined(generation);
        }
        var start, n, progressed := cursor, 0, false;
        while n < children.Length
          invariant Valid() && n <= children.Length
          invariant Pass(All, Abs(), start, n, progressed) == Pass(All, s, start, 0, false)
        {
          var i := Turn(start, n, children.Length);
          var can := CanRun(i);
          if can {
            PassTakes(All, Abs(), start, n, progressed);
            var step := ResumeAt(i);
            if step.Error? {
              error := true;
              RoundStops(All, s, Abs(), Failed);
              return Failed;
            }
            if children[i].done && !children[i].hasValue {
              RoundStops(All, s, Abs(), Failed);
              return Failed;
            }
            progressed := progressed || Produces(step) || step.Done?;
            ready := HaveValues();
            if ready {
              progressed := true;
              break;
            }
          } else {
            PassSkips(All, Abs(), start, n, progressed);
          }
          n := n + 1;
        }
        if !ready {
          PassEnds(All, Abs(), start, progressed);
        }
        RoundGoesOn(All, s, Abs(), progressed);
        ready := HaveValues();
        if ready {
          continue;
        }
        var can := SomeCanRun();
        if !progressed && !can {
          return Waiting;
        }
      }
    }

    method ResumeAllDone() returns (o: Outcome)
      requires Valid() && mode.AllDone?
      modifies this, children
      ensures Valid() && (Abs(), o) == Rounds(AllDone, old(Abs()))
    {
      hide Pass, Rounds, Runnable, Remaining, AllHaveValue, AnyRunnable, Turn, ResumeChild, Ended, EndedEmpty, CancelOthers;
      while true
        invariant Valid() && Rounds(AllDone, Abs()) == Rounds(AllDone, old(Abs()))
        decreases Remaining(children[..])
      {
        ghost var s := Abs();
        var ended := HaveEnded();
        if ended {
          var complete := HaveValues();
          EndedReady(s);
          if !complete {
            return Failed;
          }
          emittedAll, generation := true, generation + 1;
          return Joined(generation);
        }
        var start, n, progressed := cursor, 0, false;
        while n < children.Length
          invariant Valid() && n <= children.Length
          invariant Pass(AllDone, Abs(), start, n, progressed) == Pass(AllDone, s, start, 0, false)
        {
          var i := Turn(start, n, children.Length);
          var can := CanRun(i);
          if can {
            PassTakes(AllDone, Abs(), start, n, progressed);
            var step := ResumeAt(i);
            if step.Error? {
              error := true;
              RoundStops(AllDone, s, Abs(), Failed);
              return Failed;
            }
            progressed := progressed || Produces(step) || step.Done?;
          } else {
            PassSkips(AllDone, Abs(), start, n, progressed);
          }
          n := n + 1;
        }
        PassEnds(AllDone, Abs(), start, progressed);
        RoundGoesOn(AllDone, s, Abs(), progressed);
        ended := HaveEnded();
        if ended {
          continue;
        }
        var can := SomeCanRun();
        if !progressed && !can {
          return Waiting;
        }
      }
    }

    method ResumeAny() returns (o: Outcome)
      requires Valid() && mode.Any?
      modifies this, children
      ensures Valid() && (Abs(), o) == Rounds(Any, old(Abs()))
    {
      hide Pass, Rounds, Runnable, Remaining, AllHaveValue, AnyRunnable, Turn, ResumeChild, Ended, EndedEmpty, CancelOthers;
      while true
        invariant Valid() && Rounds(Any, Abs()) == Rounds(Any, old(Abs()))
        decreases Remaining(children[..])
      {
        ghost var s := Abs();
        var start, n, progressed := cursor, 0, false;
        while n < children.Length
          invariant Valid() && n <= children.Length
          invariant Pass(Any, Abs(), start, n, progressed) == Pass(Any, s, start, 0, false)
        {
          var i := Turn(start, n, children.Length);
          var can := CanRun(i);
          if can {
            PassTakes(Any, Abs(), start, n, progressed);
            var step := ResumeAt(i);
            if step.Error? {
              error := true;
              RoundStops(Any, s, Abs(), Failed);
              return Failed;
            }
            if Produces(step) {
              CancelExcept(i);
              generation := generation + 1;
              RoundStops(Any, s, Abs(), Event(i, generation, true));
              return Event(i, generation, true);
            }
          } else {
            PassSkips(Any, Abs(), start, n, progressed);
          }
          n := n + 1;
        }
        PassEnds(Any, Abs(), start, progressed);
        RoundGoesOn(Any, s, Abs(), progressed);
        var ended := HaveEnded();
        if ended {
          return Finished;
        }
        var can := SomeCanRun();
        if !can {
          return Waiting;
        }
      }
    }

    method ResumeLatest() returns (o: Outcome)
      requires Valid() && mode.Latest?
      modifies this, children
      ensures Valid() && (Abs(), o) == Rounds(Latest, old(Abs()))
    {
      hide Pass, Rounds, Runnable, Remaining, AllHaveValue, AnyRunnable, Turn, ResumeChild, Ended, EndedEmpty, CancelOthers;
      while true
        invariant Valid() && Rounds(Latest, Abs()) == Rounds(Latest, old(Abs()))
        decreases Remaining(children[..])
      {
        ghost var s := Abs();
        var ended := HaveEnded();
        if ended {
          EndedReady(s);
          return Finished;
        }
        var start, n, progressed := cursor, 0, false;
        while n < children.Length
          invariant Valid() && n <= children.Length
          invariant Pass(Latest, Abs(), start, n, progressed) == Pass(Latest, s, start, 0, false)
        {
          var i := Turn(start, n, children.Length);
          var can := CanRun(i);
          if can {
            PassTakes(Latest, Abs(), start, n, progressed);
            var step := ResumeAt(i);
            if step.Error? {
              error := true;
              RoundStops(Latest, s, Abs(), Failed);
              return Failed;
            }
            if Produces(step) {
              progressed := true;
              var ready := HaveValues();
              if ready {
                var last := HaveEnded();
                generation := generation + 1;
                RoundStops(Latest, s, Abs(), Event(i, generation, last));
                return Event(i, generation, last);
              }
            }
          } else {
            PassSkips(Latest, Abs(), start, n, progressed);
          }
          n := n + 1;
        }
        PassEnds(Latest, Abs(), start, progressed);
        RoundGoesOn(Latest, s, Abs(), progressed);
        var i := 0;
        while i < children.Length
          invariant 0 <= i <= children.Length && forall k :: 0 <= k < i ==> !(children[k].done && !children[k].hasValue)
        {
          if children[i].done && !children[i].hasValue {
            FoundEmpty(children[..], i);
            return Finished;
          }
          i := i + 1;
        }
        NoneEmpty(children[..]);
        var can := SomeCanRun();
        if !progressed && !can {
          return Waiting;
        }
      }
    }

    method ResumeInSequence() returns (o: Outcome)
      requires Valid() && mode.Sequence?
      modifies this, children
      ensures Valid() && (Abs(), o) == ResumeSequence(old(Abs()))
    {
      hide ResumeChild, Finish;
      while sequenceIndex < children.Length
        invariant Valid() && ResumeSequence(Abs()) == ResumeSequence(old(Abs()))
        decreases children.Length - sequenceIndex
      {
        var i := sequenceIndex;
        var c := children[i];
        if c.waiting {
          return Waiting;
        }
        if c.done && !c.hasValue {
          sequenceIndex := i + 1;
          continue;
        }
        if !c.hasValue {
          var step := NextStep(c);
          children[i] := ResumeChild(c);
          if step.Error? {
            error := true;
            return Failed;
          }
          if step.Wait? {
            return Waiting;
          }
          if !Produces(step) {
            sequenceIndex := i + 1;
            continue;
          }
        }
        children[i] := Finish(children[i]);
        sequenceIndex, generation := i + 1, generation + 1;
        return Event(i, generation, i + 1 == children.Length);
      }
      return Finished;
    }

    method ResumeCoordinator() returns (o: Outcome)
      requires Valid()
      modifies this, children
      ensures Valid() && (Abs(), o) == Resume(mode, old(Abs()))
    {
      hide Rounds, ResumeSequence;
      if error {
        return Failed;
      }
      match mode
      case All =>
        if emittedAll {
          return Finished;
        }
        o := ResumeAll();
      case AllDone =>
        if emittedAll {
          return Finished;
        }
        o := ResumeAllDone();
      case Any => o := ResumeAny();
      case Latest => o := ResumeLatest();
      case Sequence => o := ResumeInSequence();
    }

    // ----- waking and arming

    method WakeChild(i: nat) returns (called: bool)
      requires i < children.Length
      modifies this`waiter, children
      ensures (Abs(), called) == Wake(old(Abs()), i)
    {
      children[i] := children[i].(waiting := false, armed := false);
      called := waiter;
      waiter := false;
    }

    method ArmCoordinator() returns (called: bool)
      modifies this`waiter, children
      ensures (Abs(), called) == Arm(mode, old(Abs()))
    {
      hide Runnable;
      if error {
        waiter := false;
        return true;
      }
      var ready := SomeCanRun();
      var i := 0;
      while i < children.Length
        invariant 0 <= i <= children.Length
        invariant forall k :: 0 <= k < i ==> children[k] == (if old(children[k]).waiting then old(children[k]).(armed := true) else old(children[k]))
        invariant forall k :: i <= k < children.Length ==> children[k] == old(children[k])
      {
        if children[i].waiting && !children[i].armed {
          children[i] := children[i].(armed := true);
        }
        i := i + 1;
      }
      assert children[..] == ArmChildren(old(children[..]));
      waiter := !ready;
      return ready;
    }
  }

  lemma {:induction false} AllReady(s: State)
    requires s.cursor < |s.children| && AllHaveValue(s.children)
    ensures Rounds(All, s) ==
              (s.(children := CancelAll(s.children), emittedAll := true, generation := s.generation + 1), Joined(s.generation + 1))
  {
    hide Pass, AllHaveValue, Remaining, AnyRunnable;
  }

  lemma {:induction false} EndedReady(s: State)
    requires s.cursor < |s.children| && Ended(s.children)
    ensures Rounds(AllDone, s) ==
              if !AllHaveValue(s.children) then (s, Failed)
              else (s.(emittedAll := true, generation := s.generation + 1), Joined(s.generation + 1))
    ensures Rounds(Latest, s) == (s, Finished)
  {
    hide Pass, AllHaveValue, Ended, Remaining, AnyRunnable, EndedEmpty;
  }

  lemma {:induction false} FoundEmpty(cs: seq<Child>, i: nat)
    requires i < |cs| && cs[i].done && !cs[i].hasValue
    ensures EndedEmpty(cs)
  {
  }

  lemma {:induction false} NoneEmpty(cs: seq<Child>)
    requires forall k :: 0 <= k < |cs| ==> !(cs[k].done && !cs[k].hasValue)
    ensures !EndedEmpty(cs)
  {
  }
}
