/** Coordination of resumable children: what one resume of the coordinator does in each mode. */
module CoordModel {

  /** What a child answers when it is resumed. */
  datatype Step = Value(v: int) | ValueAndDone(v: int) | Wait | Done | Error

  /** A child: `script` is what it will answer from now on (`Done` once that is used up) and
      `past` what it has answered so far. */
  datatype Child = Child(
    script: seq<Step>,
    past: seq<Step>,
    hasValue: bool,
    value: int,
    done: bool,
    waiting: bool,
    armed: bool)

  datatype Mode = All | AllDone | Any | Latest | Sequence

  datatype State = State(
    children: seq<Child>,
    cursor: nat,
    sequenceIndex: nat,
    generation: nat,
    emittedAll: bool,
    error: bool,
    waiter: bool)

  /** What a resume of the coordinator answers: `Joined` is the single event of the two barrier
      modes, which is always the last. */
  datatype Outcome =
    | Joined(generation: nat)
    | Event(index: nat, generation: nat, last: bool)
    | Waiting
    | Finished
    | Failed

  predicate Terminal(o: Outcome) {
    o.Joined? || (o.Event? && o.last) || o.Finished? || o.Failed?
  }

  predicate AllHaveValue(cs: seq<Child>) {
    forall i :: 0 <= i < |cs| ==> cs[i].hasValue
  }

  predicate Ended(cs: seq<Child>) {
    forall i :: 0 <= i < |cs| ==> cs[i].done
  }

  predicate Runnable(mode: Mode, s: State, i: nat)
    requires i < |s.children|
  {
    var c := s.children[i];
    && !c.done && !c.waiting
    && match mode
       case All => !c.hasValue
       case AllDone => true
       case Any => true
       case Latest => AllHaveValue(s.children) || !c.hasValue
       case Sequence => i == s.sequenceIndex && !c.hasValue
  }

  predicate AnyRunnable(mode: Mode, s: State) {
    exists i :: 0 <= i < |s.children| && Runnable(mode, s, i)
  }

  function NextStep(c: Child): Step {
    if c.script == [] then Done else c.script[0]
  }

  predicate Produces(step: Step) {
    step.Value? || step.ValueAndDone?
  }

  function ResumeChild(c: Child): Child {
    var step := NextStep(c);
    var c1 := c.(script := if c.script == [] then [] else c.script[1..], past := c.past + [step]);
    match step
    case Value(v) => c1.(hasValue := true, value := v)
    case ValueAndDone(v) => c1.(hasValue := true, value := v, done := true)
    case Wait => c1.(waiting := true)
    case Done => c1.(done := true)
    case Error => c1
  }

  function Finish(c: Child): Child {
    c.(done := true)
  }

  /** Cancels every child but the winner. */
  function CancelOthers(cs: seq<Child>, winner: nat): seq<Child> {
    seq(|cs|, i requires 0 <= i < |cs| => if i == winner then cs[i] else Finish(cs[i]))
  }

  function CancelAll(cs: seq<Child>): seq<Child> {
    seq(|cs|, i requires 0 <= i < |cs| => Finish(cs[i]))
  }

  // ----- one pass over the children

  datatype PassEnd = Through(progressed: bool) | Stop(outcome: Outcome)

  function AfterResume(s: State, i: nat): State
    requires i < |s.children|
  {
    s.(children := s.children[i := ResumeChild(s.children[i])], cursor := (i + 1) % |s.children|)
  }

  datatype Progress = Go(state: State, progressed: bool) | Halt(state: State, end: PassEnd)

  /** What a pass does with one child that can run. */
  function One(mode: Mode, s: State, i: nat, progressed: bool): (r: Progress)
    requires !mode.Sequence? && i < |s.children|
    ensures |r.state.children| == |s.children| && r.state.cursor < |s.children|
  {
    var step, s1 := NextStep(s.children[i]), AfterResume(s, i);
    var c := s1.children[i];
    if step.Error? then Halt(s1.(error := true), Stop(Failed))
    else
      match mode
      case All =>
        if c.done && !c.hasValue then Halt(s1, Stop(Failed))
        else if AllHaveValue(s1.children) then Halt(s1, Through(true))
        else Go(s1, progressed || Produces(step) || step.Done?)
      case AllDone => Go(s1, progressed || Produces(step) || step.Done?)
      case Any =>
        if Produces(step) then
          Halt(s1.(children := CancelOthers(s1.children, i), generation := s1.generation + 1), Stop(Event(i, s1.generation + 1, true)))
        else Go(s1, progressed)
      case Latest =>
        if Produces(step) && AllHaveValue(s1.children) then
          Halt(s1.(generation := s1.generation + 1), Stop(Event(i, s1.generation + 1, Ended(s1.children))))
        else Go(s1, progressed || Produces(step))
  }

  /** The child a pass looks at in its `n`-th turn. */
  function Turn(start: nat, n: nat, count: nat): (i: nat)
    requires count > 0
    ensures i < count
  {
    (start + n) % count
  }

  /** The rest of a pass that began at child `start` and has looked at `n` children. */
  function Pass(mode: Mode, s: State, start: nat, n: nat, progressed: bool): (r: (State, PassEnd))
    requires !mode.Sequence? && start < |s.children| && n <= |s.children|
    ensures |r.0.children| == |s.children| && (s.cursor < |s.children| ==> r.0.cursor < |s.children|)
    decreases |s.children| - n
  {
    if n == |s.children| then (s, Through(progressed))
    else
      var i := Turn(start, n, |s.children|);
      if !Runnable(mode, s, i) then Pass(mode, s, start, n + 1, progressed)
      else
        match One(mode, s, i, progressed)
        case Halt(s1, end) => (s1, end)
        case Go(s1, p) => Pass(mode, s1, start, n + 1, p)
  }

  // ----- how much is left to do

  function Weight(c: Child): nat {
    if c.done then 0 else |c.script| + 1
  }

  function Remaining(cs: seq<Child>): nat {
    if cs == [] then 0 else Weight(cs[0]) + Remaining(cs[1..])
  }

  lemma {:induction false} RemainingUpdate(cs: seq<Child>, i: nat, c: Child)
    requires i < |cs|
    ensures Remaining(cs[i := c]) == Remaining(cs) - Weight(cs[i]) + Weight(c)
  {
    var cs' := cs[i := c];
    if i == 0 {
      assert cs'[1..] == cs[1..];
    } else {
      assert cs'[1..] == cs[1..][i - 1 := c];
      RemainingUpdate(cs[1..], i - 1, c);
    }
  }

  lemma {:induction false} ResumeShrinks(s: State, i: nat)
    requires i < |s.children| && !s.children[i].done
    ensures Remaining(AfterResume(s, i).children) < Remaining(s.children)
  {
    RemainingUpdate(s.children, i, ResumeChild(s.children[i]));
  }

  lemma {:induction false} CancelShrinks(cs: seq<Child>, cs': seq<Child>)
    requires |cs'| == |cs| && forall i :: 0 <= i < |cs| ==> cs'[i] == cs[i] || cs'[i] == Finish(cs[i])
    ensures Remaining(cs') <= Remaining(cs)
  {
    if cs != [] {
      CancelShrinks(cs[1..], cs'[1..]);
    }
  }

  lemma {:induction false} OneShrinks(mode: Mode, s: State, i: nat, progressed: bool)
    requires !mode.Sequence? && i < |s.children| && !s.children[i].done
    ensures Remaining(One(mode, s, i, progressed).state.children) < Remaining(s.children)
  {
    hide Remaining, AllHaveValue, Ended, ResumeChild;
    var s1 := AfterResume(s, i);
    ResumeShrinks(s, i);
    CancelShrinks(s1.children, CancelOthers(s1.children, i));
  }

  /** No child that a pass looks at from its `n`-th turn on can run. */
  predicate IdleFrom(mode: Mode, s: State, start: nat, n: nat) {
    forall m :: n <= m < |s.children| ==> !Runnable(mode, s, Turn(start, m, |s.children|))
  }

  /** A pass that changes nothing met no runnable child; any other leaves less to do. */
  lemma {:induction false} PassShrinks(mode: Mode, s: State, start: nat, n: nat, progressed: bool)
    requires !mode.Sequence? && start < |s.children| && n <= |s.children|
    ensures var r := Pass(mode, s, start, n, progressed);
            || Remaining(r.0.children) < Remaining(s.children)
            || (r == (s, Through(progressed)) && IdleFrom(mode, s, start, n))
    decreases |s.children| - n
  {
    hide Remaining, One, Turn;
    if n < |s.children| {
      var i := Turn(start, n, |s.children|);
      if !Runnable(mode, s, i) {
        PassShrinks(mode, s, start, n + 1, progressed);
      } else {
        OneShrinks(mode, s, i, progressed);
        var one := One(mode, s, i, progressed);
        if one.Go? {
          PassShrinks(mode, one.state, start, n + 1, one.progressed);
        }
      }
    }
  }

  lemma {:induction false} TurnIs(start: nat, m: nat, count: nat)
    requires start < count && m < count
    ensures Turn(start, m, count) == if start + m < count then start + m else start + m - count
  {
    if start + m >= count {
      Around(start + m - count, count);
    }
  }

  lemma {:induction false} Around(x: nat, count: nat)
    requires x < count
    ensures (x + count) % count == x
  {
    assert x + count == 1 * count + x;
  }

  /** Every child is looked at in a pass. */
  lemma {:induction false} PassReaches(count: nat, start: nat, i: nat) returns (m: nat)
    requires start < count && i < count
    ensures m < count && Turn(start, m, count) == i
  {
    hide Turn;
    m := if start <= i then i - start else i + count - start;
    TurnIs(start, m, count);
  }

  lemma {:induction false} IdleMeansNone(mode: Mode, s: State, start: nat)
    requires start < |s.children|
    ensures IdleFrom(mode, s, start, 0) <==> !AnyRunnable(mode, s)
  {
    hide Runnable, Turn;
    if IdleFrom(mode, s, start, 0) && AnyRunnable(mode, s) {
      var i :| 0 <= i < |s.children| && Runnable(mode, s, i);
      var m := PassReaches(|s.children|, start, i);
    }
  }

  // ----- resuming

  /** The loop around the passes. */
  function Rounds(mode: Mode, s: State): (r: (State, Outcome))
    requires !mode.Sequence? && s.cursor < |s.children|
    ensures r.0.cursor < |r.0.children| == |s.children|
    decreases Remaining(s.children)
  {
    if mode.All? && AllHaveValue(s.children) then
      (s.(children := CancelAll(s.children), emittedAll := true, generation := s.generation + 1), Joined(s.generation + 1))
    else if mode.AllDone? && Ended(s.children) then
      if !AllHaveValue(s.children) then (s, Failed)
      else (s.(emittedAll := true, generation := s.generation + 1), Joined(s.generation + 1))
    else if mode.Latest? && Ended(s.children) then (s, Finished)
    else
      var (s1, end) := Pass(mode, s, s.cursor, 0, false);
      if end.Stop? then (s1, end.outcome)
      else if mode.Any? && Ended(s1.children) then (s1, Finished)
      else if mode.Latest? && EndedEmpty(s1.children) then (s1, Finished)
      else if || (mode.All? && AllHaveValue(s1.children)) || (mode.AllDone? && Ended(s1.children))
              || (end.progressed && !mode.Any?) || AnyRunnable(mode, s1) then
        RoundShrinks(mode, s);
        Rounds(mode, s1)
      else (s1, Waiting)
  }

  predicate EndedEmpty(cs: seq<Child>) {
    exists i :: 0 <= i < |cs| && cs[i].done && !cs[i].hasValue
  }

  lemma {:induction false} RoundShrinks(mode: Mode, s: State)
    requires !mode.Sequence? && s.cursor < |s.children|
    requires mode.All? ==> !AllHaveValue(s.children)
    requires mode.AllDone? ==> !Ended(s.children)
    ensures var (s1, end) := Pass(mode, s, s.cursor, 0, false);
            && s1.cursor < |s1.children| == |s.children|
            && (|| (mode.All? && AllHaveValue(s1.children)) || (mode.AllDone? && Ended(s1.children))
                || (end.Through? && end.progressed) || AnyRunnable(mode, s1)
                ==> Remaining(s1.children) < Remaining(s.children))
  {
    hide Pass, AllHaveValue, Ended, Remaining, Runnable, IdleFrom, AnyRunnable;
    PassShrinks(mode, s, s.cursor, 0, false);
    IdleMeansNone(mode, s, s.cursor);
  }

  function Emit(s: State): (State, Outcome)
    requires s.sequenceIndex < |s.children|
  {
    var i := s.sequenceIndex;
    (s.(children := s.children[i := Finish(s.children[i])], sequenceIndex := i + 1, generation := s.generation + 1),
     Event(i, s.generation + 1, i + 1 == |s.children|))
  }

  function ResumeSequence(s: State): (r: (State, Outcome))
    ensures |r.0.children| == |s.children| && r.0.cursor == s.cursor
    decreases |s.children| - s.sequenceIndex
  {
    if s.sequenceIndex >= |s.children| then (s, Finished)
    else
      var i := s.sequenceIndex;
      var c := s.children[i];
      if c.waiting then (s, Waiting)
      else if c.done && !c.hasValue then ResumeSequence(s.(sequenceIndex := i + 1))
      else if c.hasValue then Emit(s)
      else
        var s1 := s.(children := s.children[i := ResumeChild(c)]);
        match NextStep(c)
        case Error => (s1.(error := true), Failed)
        case Wait => (s1, Waiting)
        case Done => ResumeSequence(s1.(sequenceIndex := i + 1))
        case _ => Emit(s1)
  }

  function Resume(mode: Mode, s: State): (r: (State, Outcome))
    requires s.cursor < |s.children|
    ensures r.0.cursor < |r.0.children| == |s.children|
  {
    if s.error then (s, Failed)
    else if mode.Sequence? then ResumeSequence(s)
    else if (mode.All? || mode.AllDone?) && s.emittedAll then (s, Finished)
    else Rounds(mode, s)
  }

  // ----- waking and arming

  /** A child's waker fires: the coordinator's own waker, if stored, is taken and called. */
  function Wake(s: State, i: nat): (State, bool)
    requires i < |s.children|
  {
    (s.(children := s.children[i := s.children[i].(waiting := false, armed := false)], waiter := false), s.waiter)
  }

  function ArmChildren(cs: seq<Child>): seq<Child> {
    seq(|cs|, i requires 0 <= i < |cs| => if cs[i].waiting then cs[i].(armed := true) else cs[i])
  }

  /** Arming: the waker is called at once when a child can run, and stored otherwise. */
  function Arm(mode: Mode, s: State): (State, bool) {
    if s.error then (s.(waiter := false), true)
    else
      var s1 := s.(children := ArmChildren(s.children));
      if AnyRunnable(mode, s) then (s1.(waiter := false), true) else (s1.(waiter := true), false)
  }
}
