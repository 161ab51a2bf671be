/** The wake protocol between the watch and its Publisher.

Two locks take part: the watch's gate and the Publisher's lock, and the gate is also taken
while the lock is held. Every critical section is one step here; sections that take the gate
inside the lock are cut at the gate, so that the backend, the driver and the owner may act
between any two of their steps. A notification is counted from the moment it is prepared
under the gate until its thread is done with it. */
module WatchPublisher {
  import opened Basics
  import opened WatchCore

  /** Who holds the Publisher's lock, and what it has read under the gate. */
  datatype Lock =
    | Free
    | WakeLocked
    | WakeRead(done: bool)
    | ArmLocked(id: nat)
    | ArmRead(id: nat, ready: bool)
    | BindLocked(id: nat)
    | BindRead(id: nat, now: bool)

  /** A thread behind its critical section: the wakers it still has to invoke, whether it is
      inside the first of them, and whether it is a notification of the watch. */
  datatype Tail = Tail(pending: seq<nat>, inCall: bool, notification: bool)

  datatype Sys = Sys(
    w: State,
    waiter: Option<nat>,
    terminal: Option<nat>,
    cancelled: bool,
    cancelling: nat,
    wakeInflight: nat,
    lock: Lock,
    prepared: nat,
    tails: seq<Tail>,
    unarming: seq<nat>,
    nextId: nat,
    woken: seq<nat>,
    dropped: multiset<nat>)

  /** Critical sections of the watch alone. */
  datatype GateStep = PublishAt(detail: Detail) | LossAt | TakeAt | AcknowledgeAt | DoneAt | CloseAt

  datatype Step =
    | Gate(g: GateStep)
    | WakeLock | WakeReadDone | WakeCommit
    | ArmLock | ArmReadReady | ArmCommit
    | BindLock | BindReadDone | BindCommit
    | Cancel | CancelReturn | CancelInside(i: nat)
    | UnarmBegin | UnarmReturn(k: nat) | UnarmInside(i: nat)
    | Invoke(i: nat) | Return(i: nat) | Finish(i: nat)

  function GateNext(w: State, g: GateStep): (t: State)
    ensures t.inflight >= w.inflight
  {
    match g
    case PublishAt(d) => Publish(w, d)
    case LossAt => Loss(w)
    case TakeAt => Take(w)
    case AcknowledgeAt => Acknowledge(w)
    case DoneAt => MarkDone(w)
    case CloseAt => Close(w)
  }

  function Ids(o: Option<nat>): seq<nat> {
    if o.None? then [] else [o.value]
  }

  function Without<T>(s: seq<T>, i: nat): seq<T>
    requires i < |s|
  {
    s[..i] + s[i + 1..]
  }

  /** A thread that leaves its critical section with wakers to invoke. */
  function Launch(s: Sys, ids: seq<nat>, notification: bool): Sys {
    s.(tails := s.tails + [Tail(ids, false, notification)], wakeInflight := s.wakeInflight + |ids|)
  }

  /** The first cancel takes every waker. */
  function TakeAll(s: Sys): Sys {
    if s.cancelled then s
    else Launch(s, Ids(s.waiter) + Ids(s.terminal), false).(cancelled := true, waiter := None, terminal := None)
  }

  /** A step that is not enabled changes nothing. A cancel or unarm that was called outside every
      wake call waits for the calls under way; one called inside returns at once. */
  function Next(s: Sys, step: Step): Sys {
    match step
    case Gate(g) =>
      var t := GateNext(s.w, g);
      s.(w := t, prepared := s.prepared + (t.inflight - s.w.inflight))
    case WakeLock =>
      if s.lock.Free? && s.prepared > 0 then s.(lock := WakeLocked, prepared := s.prepared - 1) else s
    case WakeReadDone =>
      if s.lock.WakeLocked? then s.(lock := WakeRead(DoneAndEmpty(s.w))) else s
    case WakeCommit =>
      if s.lock.WakeRead? then
        var taken := Ids(s.waiter) + (if s.lock.done then Ids(s.terminal) else []);
        Launch(s, taken, true).(waiter := None, terminal := if s.lock.done then None else s.terminal, lock := Free)
      else s
    case ArmLock =>
      if s.lock.Free? && s.waiter.None?
      then s.(lock := ArmLocked(s.nextId), waiter := Some(s.nextId), nextId := s.nextId + 1)
      else s
    case ArmReadReady =>
      if s.lock.ArmLocked? then s.(lock := ArmRead(s.lock.id, s.cancelled || HasReadyOrDone(s.w))) else s
    case ArmCommit =>
      if s.lock.ArmRead? then
        if s.lock.ready then Launch(s, Ids(s.waiter), false).(waiter := None, lock := Free) else s.(lock := Free)
      else s
    case BindLock =>
      if s.lock.Free? then s.(lock := BindLocked(s.nextId), nextId := s.nextId + 1) else s
    case BindReadDone =>
      if s.lock.BindLocked? then s.(lock := BindRead(s.lock.id, s.cancelled || DoneAndEmpty(s.w))) else s
    case BindCommit =>
      if s.lock.BindRead? then
        if s.lock.now then Launch(s, [s.lock.id], false).(lock := Free)
        else s.(terminal := Some(s.lock.id), dropped := s.dropped + multiset(Ids(s.terminal)), lock := Free)
      else s
    case Cancel => if s.lock.Free? then TakeAll(s).(cancelling := s.cancelling + 1) else s
    case CancelReturn =>
      if s.lock.Free? && s.wakeInflight == 0 && s.cancelling > 0 then s.(cancelling := s.cancelling - 1) else s
    case CancelInside(i) => if s.lock.Free? && i < |s.tails| && s.tails[i].inCall then TakeAll(s) else s
    case UnarmBegin =>
      if s.lock.Free? then
        s.(waiter := None, dropped := s.dropped + multiset(Ids(s.waiter)), unarming := s.unarming + [s.nextId])
      else s
    case UnarmReturn(k) =>
      if s.lock.Free? && s.wakeInflight == 0 && k < |s.unarming| then s.(unarming := Without(s.unarming, k)) else s
    case UnarmInside(i) =>
      if s.lock.Free? && i < |s.tails| && s.tails[i].inCall then
        s.(waiter := None, dropped := s.dropped + multiset(Ids(s.waiter)))
      else s
    case Invoke(i) =>
      if i < |s.tails| && !s.tails[i].inCall && s.tails[i].pending != [] then
        s.(woken := s.woken + [s.tails[i].pending[0]], tails := s.tails[i := s.tails[i].(inCall := true)])
      else s
    case Return(i) =>
      if i < |s.tails| && s.tails[i].inCall && s.tails[i].pending != [] && s.lock.Free? && s.wakeInflight > 0 then
        s.(wakeInflight := s.wakeInflight - 1,
           tails := s.tails[i := s.tails[i].(inCall := false, pending := s.tails[i].pending[1..])])
      else s
    case Finish(i) =>
      if i < |s.tails| && s.tails[i].pending == [] && (s.tails[i].notification ==> s.w.inflight > 0) then
        s.(tails := Without(s.tails, i),
           w := if s.tails[i].notification then s.w.(inflight := s.w.inflight - 1) else s.w)
      else s
  }

  function Initial(capacity: nat): Sys {
    Sys(State(capacity, [], false, false, false, false, false, 0, 0, 0, 0, true, 0),
        None, None, false, 0, 0, Free, 0, [], [], 0, [], multiset{})
  }

  function After(s: Sys, steps: seq<Step>): Sys
    decreases |steps|
  {
    if steps == [] then s else After(Next(s, steps[0]), steps[1..])
  }

  // ----- no wakeup is lost

  /** Notifications that have not yet taken the waiter. */
  function Unspent(s: Sys): nat {
    s.prepared + (if s.lock.WakeLocked? || s.lock.WakeRead? then 1 else 0)
  }

  /** A waker is armed, and its arming will not wake it any more. */
  predicate Armed(s: Sys) {
    s.waiter.Some? && !s.lock.ArmLocked? && !(s.lock.ArmRead? && s.lock.ready)
  }

  predicate NoLostWakeup(s: Sys) {
    Armed(s) && HasReadyOrDone(s.w) ==> Unspent(s) > 0
  }

  predicate WatchShape(s: Sys) {
    s.w.capacity > 0 && s.w.notifying
  }

  /** The wake invariant survives every critical section of the watch, the queue-full path,
      which notifies nobody, included. */
  lemma {:induction false} GateKeepsWakeup(s: Sys, g: GateStep)
    requires WatchShape(s) && NoLostWakeup(s)
    ensures WatchShape(Next(s, Gate(g))) && NoLostWakeup(Next(s, Gate(g)))
  {
  }

  lemma {:induction false} StepKeepsWakeup(s: Sys, step: Step)
    requires WatchShape(s) && NoLostWakeup(s)
    ensures WatchShape(Next(s, step)) && NoLostWakeup(Next(s, step))
  {
    if step.Gate? {
      GateKeepsWakeup(s, step.g);
    }
  }

  lemma {:induction false} RunKeepsWakeup(s: Sys, steps: seq<Step>)
    requires WatchShape(s) && NoLostWakeup(s)
    ensures WatchShape(After(s, steps)) && NoLostWakeup(After(s, steps))
    decreases |steps|
  {
    hide Next, NoLostWakeup, WatchShape;
    if steps != [] {
      StepKeepsWakeup(s, steps[0]);
      RunKeepsWakeup(Next(s, steps[0]), steps[1..]);
    }
  }

  /** Main result: in every reachable state an armed waker with something to wake for has a
      notification on its way that has not taken it yet. */
  lemma {:induction false} NeverLost(capacity: nat, steps: seq<Step>)
    requires capacity > 0
    ensures NoLostWakeup(After(Initial(capacity), steps))
  {
    RunKeepsWakeup(Initial(capacity), steps);
  }

  lemma {:induction false} AfterCons(s: Sys, step: Step, rest: seq<Step>)
    ensures After(s, [step] + rest) == After(Next(s, step), rest)
  {
    assert ([step] + rest)[1..] == rest;
  }

  lemma {:induction false} AfterOne(s: Sys, a: Step)
    ensures After(s, [a]) == Next(s, a)
  {
    assert [a][1..] == [];
  }

  lemma {:induction false} AfterTwo(s: Sys, a: Step, b: Step)
    ensures After(s, [a, b]) == Next(Next(s, a), b)
  {
    assert [a, b][1..] == [b];
    AfterOne(Next(s, a), b);
  }

  lemma {:induction false} AfterAppend(s: Sys, a: seq<Step>, b: seq<Step>)
    ensures After(s, a + b) == After(After(s, a), b)
    decreases |a|
  {
    hide Next;
    if a == [] {
      assert a + b == b;
    } else {
      assert (a + b)[0] == a[0] && (a + b)[1..] == a[1..] + b;
      AfterAppend(Next(s, a[0]), a[1..], b);
    }
  }

  /** The steps by which the holder of the lock, if any, lets go of it. */
  function Release(l: Lock): seq<Step> {
    match l
    case Free => []
    case WakeLocked => [WakeReadDone, WakeCommit]
    case WakeRead(_) => [WakeCommit]
    case ArmLocked(_) => [ArmReadReady, ArmCommit]
    case ArmRead(_, _) => [ArmCommit]
    case BindLocked(_) => [BindReadDone, BindCommit]
    case BindRead(_, _) => [BindCommit]
  }

  lemma {:induction false} ReleaseReleases(s: Sys)
    ensures After(s, Release(s.lock)).lock.Free?
    ensures Armed(s) && !s.lock.WakeLocked? && !s.lock.WakeRead? ==>
              var t := After(s, Release(s.lock)); t.prepared == s.prepared && t.waiter == s.waiter
    ensures (s.lock.WakeLocked? || s.lock.WakeRead?) && s.waiter.Some? ==>
              var t := After(s, Release(s.lock));
              |t.tails| == |s.tails| + 1 && var last := t.tails[|s.tails|];
              !last.inCall && last.pending != [] && last.pending[0] == s.waiter.value
  {
    match s.lock
    case Free =>
    case WakeLocked => AfterTwo(s, WakeReadDone, WakeCommit);
    case WakeRead(_) => AfterOne(s, WakeCommit);
    case ArmLocked(_) => AfterTwo(s, ArmReadReady, ArmCommit);
    case ArmRead(_, _) => AfterOne(s, ArmCommit);
    case BindLocked(_) => AfterTwo(s, BindReadDone, BindCommit);
    case BindRead(_, _) => AfterOne(s, BindCommit);
  }

  /** A notification that holds the lock invokes the waiter once it has let go. */
  lemma {:induction false} WakeLockedFires(s: Sys, id: nat)
    requires (s.lock.WakeLocked? || s.lock.WakeRead?) && s.waiter == Some(id)
    ensures id in After(s, Release(s.lock) + [Invoke(|s.tails|)]).woken
  {
    ReleaseReleases(s);
    var t := After(s, Release(s.lock));
    AfterAppend(s, Release(s.lock), [Invoke(|s.tails|)]);
    AfterOne(t, Invoke(|s.tails|));
    assert Next(t, Invoke(|s.tails|)).woken[|t.woken|] == id;
  }

  /** With the lock free, the next notification invokes the armed waker in four steps. */
  lemma {:induction false} WakeFires(s: Sys, id: nat)
    requires s.lock.Free? && s.prepared > 0 && s.waiter == Some(id)
    ensures id in After(s, [WakeLock] + ([WakeReadDone, WakeCommit] + [Invoke(|s.tails|)])).woken
  {
    var t := Next(s, WakeLock);
    WakeLockedFires(t, id);
    AfterCons(s, WakeLock, Release(t.lock) + [Invoke(|t.tails|)]);
  }

  /** Steps of threads that hold the Publisher's lock, have wakers to invoke or carry a
      notification of the watch: nobody calls anything new. */
  predicate Ongoing(step: Step) {
    || step.WakeLock? || step.WakeReadDone? || step.WakeCommit? || step.Invoke?
    || step.ArmReadReady? || step.ArmCommit? || step.BindReadDone? || step.BindCommit?
  }

  predicate AllOngoing(steps: seq<Step>) {
    forall i :: 0 <= i < |steps| ==> Ongoing(steps[i])
  }

  /** No waiting for ever: from every reachable state with an armed waker and something to
      wake for, at most six steps of threads that are already under way invoke that waker. */
  lemma {:induction false} ArmedCanFire(capacity: nat, steps: seq<Step>, id: nat)
    requires capacity > 0
    requires var s := After(Initial(capacity), steps);
             Armed(s) && HasReadyOrDone(s.w) && s.waiter == Some(id)
    ensures exists more: seq<Step> ::
              |more| <= 6 && AllOngoing(more) && id in After(After(Initial(capacity), steps), more).woken
  {
    hide Next, After;
    var s := After(Initial(capacity), steps);
    NeverLost(capacity, steps);
    if s.lock.WakeLocked? || s.lock.WakeRead? {
      WakeLockedFires(s, id);
      var more := Release(s.lock) + [Invoke(|s.tails|)];
      assert |more| <= 6 && AllOngoing(more) && id in After(s, more).woken;
    } else {
      var t := After(s, Release(s.lock));
      ReleaseReleases(s);
      WakeFires(t, id);
      var fire := [WakeLock] + ([WakeReadDone, WakeCommit] + [Invoke(|t.tails|)]);
      AfterAppend(s, Release(s.lock), fire);
      var more := Release(s.lock) + fire;
      assert |more| <= 6 && AllOngoing(more) && id in After(s, more).woken;
    }
  }

  // ----- every waker is accounted for exactly once

  /** Wakers a thread has still to call. */
  function Uncalled(t: Tail): seq<nat> {
    if t.inCall && t.pending != [] then t.pending[1..] else t.pending
  }

  function Occurs(s: seq<nat>, id: nat): nat {
    multiset(s)[id]
  }

  function Outstanding(ts: seq<Tail>): nat {
    if ts == [] then 0 else |ts[0].pending| + Outstanding(ts[1..])
  }

  function Notifications(ts: seq<Tail>): nat {
    if ts == [] then 0 else (if ts[0].notification then 1 else 0) + Notifications(ts[1..])
  }

  function UncalledOf(ts: seq<Tail>, id: nat): nat {
    if ts == [] then 0 else Occurs(Uncalled(ts[0]), id) + UncalledOf(ts[1..], id)
  }

  lemma {:induction false} TailReplaced(ts: seq<Tail>, i: nat, t: Tail, id: nat)
    requires i < |ts| && t.notification == ts[i].notification
    ensures Outstanding(ts[i := t]) + |ts[i].pending| == Outstanding(ts) + |t.pending|
    ensures Notifications(ts[i := t]) == Notifications(ts)
    ensures UncalledOf(ts[i := t], id) + Occurs(Uncalled(ts[i]), id) == UncalledOf(ts, id) + Occurs(Uncalled(t), id)
  {
    hide Occurs, Uncalled;
    if i == 0 {
      assert ts[i := t][1..] == ts[1..];
    } else {
      assert ts[i := t][1..] == ts[1..][i - 1 := t];
      TailReplaced(ts[1..], i - 1, t, id);
    }
  }

  lemma {:induction false} TailGone(ts: seq<Tail>, i: nat, id: nat)
    requires i < |ts| && ts[i].pending == []
    ensures Outstanding(Without(ts, i)) == Outstanding(ts)
    ensures Notifications(Without(ts, i)) + (if ts[i].notification then 1 else 0) == Notifications(ts)
    ensures UncalledOf(Without(ts, i), id) == UncalledOf(ts, id)
  {
    if i == 0 {
      assert Without(ts, 0) == ts[1..];
    } else {
      assert Without(ts, i)[0] == ts[0] && Without(ts, i)[1..] == Without(ts[1..], i - 1);
      TailGone(ts[1..], i - 1, id);
    }
  }

  lemma {:induction false} TailAdded(ts: seq<Tail>, t: Tail, id: nat)
    ensures Outstanding(ts + [t]) == Outstanding(ts) + |t.pending|
    ensures Notifications(ts + [t]) == Notifications(ts) + (if t.notification then 1 else 0)
    ensures UncalledOf(ts + [t], id) == UncalledOf(ts, id) + Occurs(Uncalled(t), id)
  {
    hide Occurs, Uncalled;
    if ts == [] {
      assert ts + [t] == [t] && [t][1..] == [];
    } else {
      assert (ts + [t])[1..] == ts[1..] + [t];
      TailAdded(ts[1..], t, id);
    }
  }

  function LockIds(l: Lock): seq<nat> {
    if l.BindLocked? || l.BindRead? then [l.id] else []
  }

  /** In how many places waker `id` is: armed, bound, about to be bound, about to be called,
      called, or dropped. */
  function Places(s: Sys, id: nat): nat {
    Occurs(Ids(s.waiter), id) + Occurs(Ids(s.terminal), id) + Occurs(LockIds(s.lock), id)
    + UncalledOf(s.tails, id) + Occurs(s.woken, id) + s.dropped[id]
  }

  predicate Accounted(s: Sys, id: nat) {
    && s.wakeInflight == Outstanding(s.tails)
    && s.w.inflight == Unspent(s) + Notifications(s.tails)
    && Places(s, id) == (if id < s.nextId then 1 else 0)
    && (forall i :: 0 <= i < |s.tails| && s.tails[i].inCall ==> s.tails[i].pending != [])
  }

  lemma {:induction false} LaunchAdds(s: Sys, ids: seq<nat>, notification: bool, id: nat)
    ensures var t := Launch(s, ids, notification);
            && Outstanding(t.tails) == Outstanding(s.tails) + |ids|
            && Notifications(t.tails) == Notifications(s.tails) + (if notification then 1 else 0)
            && UncalledOf(t.tails, id) == UncalledOf(s.tails, id) + Occurs(ids, id)
  {
    TailAdded(s.tails, Tail(ids, false, notification), id);
  }

  lemma {:induction false} OccursConcat(a: seq<nat>, b: seq<nat>, id: nat)
    ensures Occurs(a + b, id) == Occurs(a, id) + Occurs(b, id)
    ensures Occurs([], id) == 0
    ensures forall x :: Occurs([x], id) == if x == id then 1 else 0
  {
  }

  /** Steps that may take wakers to invoke. */
  predicate Takes(step: Step) {
    step.WakeCommit? || step.ArmCommit? || step.BindCommit? || step.Cancel? || step.CancelInside?
  }

  lemma {:induction false} WakeCommitKeepsAccount(s: Sys, id: nat)
    requires Accounted(s, id)
    ensures Accounted(Next(s, WakeCommit), id)
  {
    hide Outstanding, Notifications, UncalledOf, Occurs;
    OccursConcat(Ids(s.waiter), Ids(s.terminal), id);
    OccursConcat(Ids(s.waiter), [], id);
    if s.lock.WakeRead? {
      LaunchAdds(s, Ids(s.waiter) + (if s.lock.done then Ids(s.terminal) else []), true, id);
    }
  }

  lemma {:induction false} ArmCommitKeepsAccount(s: Sys, id: nat)
    requires Accounted(s, id)
    ensures Accounted(Next(s, ArmCommit), id)
  {
    hide Outstanding, Notifications, UncalledOf, Occurs;
    OccursConcat([], [], id);
    LaunchAdds(s, Ids(s.waiter), false, id);
  }

  lemma {:induction false} BindCommitKeepsAccount(s: Sys, id: nat)
    requires Accounted(s, id)
    ensures Accounted(Next(s, BindCommit), id)
  {
    hide Outstanding, Notifications, UncalledOf, Occurs;
    OccursConcat([], [], id);
    if s.lock.BindRead? {
      LaunchAdds(s, [s.lock.id], false, id);
      DropCount(s.dropped, s.terminal, id);
    }
  }

  lemma {:induction false} CancelKeepsAccount(s: Sys, step: Step, id: nat)
    requires Accounted(s, id) && (step.Cancel? || step.CancelInside?)
    ensures Accounted(Next(s, step), id)
  {
    hide Outstanding, Notifications, UncalledOf, Occurs;
    OccursConcat(Ids(s.waiter), Ids(s.terminal), id);
    LaunchAdds(s, Ids(s.waiter) + Ids(s.terminal), false, id);
  }

  lemma {:induction false} CommitKeepsAccount(s: Sys, step: Step, id: nat)
    requires Accounted(s, id) && Takes(step)
    ensures Accounted(Next(s, step), id)
  {
    hide Accounted, Next;
    match step
    case WakeCommit => WakeCommitKeepsAccount(s, id);
    case ArmCommit => ArmCommitKeepsAccount(s, id);
    case BindCommit => BindCommitKeepsAccount(s, id);
    case _ => CancelKeepsAccount(s, step, id);
  }

  lemma {:induction false} DropCount(m: multiset<nat>, o: Option<nat>, id: nat)
    ensures (m + multiset(Ids(o)))[id] == m[id] + Occurs(Ids(o), id)
  {
  }

  lemma {:induction false} UnarmKeepsAccount(s: Sys, step: Step, id: nat)
    requires Accounted(s, id) && (step.UnarmBegin? || step.UnarmInside?)
    ensures Accounted(Next(s, step), id)
  {
    hide Outstanding, Notifications, UncalledOf, Occurs;
    OccursConcat([], [], id);
    DropCount(s.dropped, s.waiter, id);
  }

  lemma {:induction false} GateKeepsAccount(s: Sys, g: GateStep, id: nat)
    requires Accounted(s, id)
    ensures Accounted(Next(s, Gate(g)), id)
  {
    hide Outstanding, Notifications, UncalledOf, Occurs, GateNext;
  }

  lemma {:induction false} LockStepKeepsAccount(s: Sys, step: Step, id: nat)
    requires Accounted(s, id) && !step.Invoke? && !step.Return? && !step.Finish?
    requires !Takes(step)
    ensures Accounted(Next(s, step), id)
  {
    hide Outstanding, Notifications, UncalledOf, Occurs, GateNext, DoneAndEmpty, HasReadyOrDone;
    if step.Gate? {
      GateKeepsAccount(s, step.g, id);
    } else if step.UnarmBegin? || step.UnarmInside? {
      UnarmKeepsAccount(s, step, id);
    } else {
      OccursConcat([], [], id);
    }
  }

  lemma {:induction false} TailStepKeepsAccount(s: Sys, step: Step, id: nat)
    requires Accounted(s, id) && (step.Invoke? || step.Return? || step.Finish?)
    ensures Accounted(Next(s, step), id)
  {
    hide Outstanding, Notifications, UncalledOf, Occurs;
    if step.i < |s.tails| {
      var t := s.tails[step.i];
      if step.Invoke? && !t.inCall && t.pending != [] {
        TailReplaced(s.tails, step.i, t.(inCall := true), id);
        OccursConcat([t.pending[0]], t.pending[1..], id);
        assert t.pending == [t.pending[0]] + t.pending[1..];
        OccursConcat(s.woken, [t.pending[0]], id);
      } else if step.Return? && t.inCall && t.pending != [] {
        TailReplaced(s.tails, step.i, t.(inCall := false, pending := t.pending[1..]), id);
      } else if step.Finish? && t.pending == [] {
        TailGone(s.tails, step.i, id);
        var rest := Without(s.tails, step.i);
        forall j | 0 <= j < |rest| && rest[j].inCall ensures rest[j].pending != [] {
          assert rest[j] == if j < step.i then s.tails[j] else s.tails[j + 1];
        }
      }
    }
  }

  lemma {:induction false} RunKeepsAccount(s: Sys, steps: seq<Step>, id: nat)
    requires Accounted(s, id)
    ensures Accounted(After(s, steps), id)
    decreases |steps|
  {
    hide Next, Accounted;
    if steps != [] {
      var step := steps[0];
      if step.Invoke? || step.Return? || step.Finish? {
        TailStepKeepsAccount(s, step, id);
      } else if Takes(step) {
        CommitKeepsAccount(s, step, id);
      } else {
        LockStepKeepsAccount(s, step, id);
      }
      RunKeepsAccount(Next(s, step), steps[1..], id);
    }
  }

  /** Every waker handed in is in exactly one place, and the counters of calls and
      notifications under way are exact. */
  lemma {:induction false} EveryWakerAccounted(capacity: nat, steps: seq<Step>, id: nat)
    ensures Accounted(After(Initial(capacity), steps), id)
  {
    RunKeepsAccount(Initial(capacity), steps, id);
  }

  /** Wakers are one-shot: none is invoked twice, and none that was invoked is still armed,
      bound or on its way. */
  lemma {:induction false} OneShot(capacity: nat, steps: seq<Step>, id: nat)
    ensures var s := After(Initial(capacity), steps);
            && Occurs(s.woken, id) <= 1
            && (id in s.woken ==> id < s.nextId && s.waiter != Some(id) && s.terminal != Some(id) && id !in s.dropped)
  {
    EveryWakerAccounted(capacity, steps, id);
  }

  /** A watch that reports quiescence has no notification thread left behind it. */
  lemma {:induction false} QuiescentMeansStopped(capacity: nat, steps: seq<Step>)
    requires Quiescent(After(Initial(capacity), steps).w)
    ensures var s := After(Initial(capacity), steps); Unspent(s) == 0 && Notifications(s.tails) == 0
  {
    EveryWakerAccounted(capacity, steps, 0);
  }

  // ----- unarming

  /** A waker that is armed now was armed after every unarm still under way began. */
  predicate UnarmsBehind(s: Sys) {
    && (forall k :: 0 <= k < |s.unarming| ==> s.unarming[k] <= s.nextId)
    && (forall k :: 0 <= k < |s.unarming| && s.waiter.Some? ==> s.unarming[k] <= s.waiter.value)
  }

  lemma {:induction false} StepKeepsUnarms(s: Sys, step: Step)
    requires UnarmsBehind(s)
    ensures UnarmsBehind(Next(s, step))
  {
    if step.UnarmReturn? && step.k < |s.unarming| {
      var rest := Without(s.unarming, step.k);
      assert forall j :: 0 <= j < |rest| ==> rest[j] == if j < step.k then s.unarming[j] else s.unarming[j + 1];
    }
  }

  lemma {:induction false} RunKeepsUnarms(s: Sys, steps: seq<Step>)
    requires UnarmsBehind(s)
    ensures UnarmsBehind(After(s, steps))
    decreases |steps|
  {
    hide Next, UnarmsBehind;
    if steps != [] {
      StepKeepsUnarms(s, steps[0]);
      RunKeepsUnarms(Next(s, steps[0]), steps[1..]);
    }
  }

  lemma {:induction false} NothingOutstanding(ts: seq<Tail>, id: nat)
    requires Outstanding(ts) == 0
    ensures UncalledOf(ts, id) == 0 && forall i :: 0 <= i < |ts| ==> ts[i].pending == []
  {
    if ts != [] {
      NothingOutstanding(ts[1..], id);
      forall i | 0 <= i < |ts| ensures ts[i].pending == [] {
        if i > 0 {
          assert ts[i] == ts[1..][i - 1];
        }
      }
    }
  }

  /** When an unarm that had to wait returns, no wake call is under way, and no waker armed
      before it began can ever be called as a waiter: it was called already, was dropped, or is
      a terminal waker. */
  lemma {:induction false} UnarmIsFinal(capacity: nat, steps: seq<Step>, k: nat, id: nat)
    requires var s := After(Initial(capacity), steps);
             s.lock.Free? && s.wakeInflight == 0 && k < |s.unarming| && id < s.unarming[k]
    ensures var s := After(Initial(capacity), steps);
            && (forall i :: 0 <= i < |s.tails| ==> !s.tails[i].inCall && s.tails[i].pending == [])
            && s.waiter != Some(id)
            && (id in s.woken || id in s.dropped || s.terminal == Some(id))
  {
    var s := After(Initial(capacity), steps);
    EveryWakerAccounted(capacity, steps, id);
    RunKeepsUnarms(Initial(capacity), steps);
    NothingOutstanding(s.tails, id);
  }

  // ----- unarming from inside a wake call

  /** How many threads are inside a wake call. */
  function Calling(ts: seq<Tail>): nat {
    if ts == [] then 0 else (if ts[0].inCall then 1 else 0) + Calling(ts[1..])
  }

  /** Some waker was taken and is still to be called. */
  predicate CallsToCome(s: Sys) {
    exists i :: 0 <= i < |s.tails| && Uncalled(s.tails[i]) != []
  }

  lemma {:induction false} OutstandingCalls(ts: seq<Tail>)
    requires forall i :: 0 <= i < |ts| && ts[i].inCall ==> ts[i].pending != []
    ensures Outstanding(ts) >= Calling(ts)
    ensures Outstanding(ts) == Calling(ts) <==> forall i :: 0 <= i < |ts| ==> Uncalled(ts[i]) == []
  {
    if ts != [] {
      var rest := ts[1..];
      assert forall i :: 0 <= i < |rest| ==> rest[i] == ts[i + 1];
      OutstandingCalls(rest);
      assert |ts[0].pending| == |Uncalled(ts[0])| + (if ts[0].inCall then 1 else 0);
      if forall i :: 0 <= i < |ts| ==> Uncalled(ts[i]) == [] {
        forall i | 0 <= i < |rest| ensures Uncalled(rest[i]) == [] {
          assert Uncalled(ts[i + 1]) == [];
        }
      }
      if Uncalled(ts[0]) == [] && forall i :: 0 <= i < |rest| ==> Uncalled(rest[i]) == [] {
        forall i | 0 <= i < |ts| ensures Uncalled(ts[i]) == [] {
          assert i > 0 ==> ts[i] == rest[i - 1];
        }
      }
    }
  }

  /** An unarm called from inside a wake call of this Publisher does not wait. It disarms the
      waiter, and wakers taken before are still to be called exactly when there are more
      outstanding calls than threads inside one. */
  lemma {:induction false} UnarmInsideLeavesCalls(capacity: nat, steps: seq<Step>, i: nat)
    requires var s := After(Initial(capacity), steps); s.lock.Free? && i < |s.tails| && s.tails[i].inCall
    ensures var t := Next(After(Initial(capacity), steps), UnarmInside(i));
            && t.waiter.None? && t.wakeInflight > 0
            && (CallsToCome(t) <==> t.wakeInflight > Calling(t.tails))
  {
    hide After, Places;
    var s := After(Initial(capacity), steps);
    EveryWakerAccounted(capacity, steps, 0);
    OutstandingCalls(s.tails);
    OutstandingHas(s.tails, i);
  }

  /** The two ways an unarm returns. */
  predicate UnarmReturns(s: Sys, step: Step) {
    && s.lock.Free?
    && match step
       case UnarmReturn(k) => k < |s.unarming| && s.wakeInflight == 0
       case UnarmInside(i) => i < |s.tails| && s.tails[i].inCall
       case _ => false
  }

  /** A returning unarm leaves wakers still to be called exactly when it was called from inside
      a wake call and some outstanding call has not begun. */
  lemma {:induction false} UnarmReturnExact(capacity: nat, steps: seq<Step>, step: Step)
    requires UnarmReturns(After(Initial(capacity), steps), step)
    ensures var s := After(Initial(capacity), steps);
            CallsToCome(Next(s, step)) <==> step.UnarmInside? && s.wakeInflight > Calling(s.tails)
  {
    hide After, Places;
    var s := After(Initial(capacity), steps);
    if step.UnarmInside? {
      UnarmInsideLeavesCalls(capacity, steps, step.i);
    } else {
      EveryWakerAccounted(capacity, steps, 0);
      NothingOutstanding(s.tails, 0);
    }
  }

  lemma {:induction false} OutstandingHas(ts: seq<Tail>, i: nat)
    requires i < |ts|
    ensures Outstanding(ts) >= |ts[i].pending|
  {
    if i > 0 {
      OutstandingHas(ts[1..], i - 1);
    }
  }

  function InsideRun(): seq<Step> {
    [BindLock, BindReadDone, BindCommit] + [ArmLock, ArmReadReady, ArmCommit]
    + ([Gate(DoneAt)] + [WakeLock, WakeReadDone, WakeCommit])
  }

  /** A terminal waker and a waiter are taken by one notification; the waiter's call unarms and
      returns, and the terminal waker is called after that. */
  lemma {:induction false} CalledAfterInsideUnarm()
    ensures var s := After(Initial(1), InsideRun());
            var inside := Next(s, Invoke(0));
            var unarmed := Next(inside, UnarmInside(0));
            && inside.tails == [Tail([1, 0], true, true)] && unarmed == inside
            && 0 !in unarmed.woken && 0 in Next(Next(unarmed, Return(0)), Invoke(0)).woken
  {
    hide After, Next;
    var s0 := Initial(1);
    var s1 := s0.(terminal := Some(0), nextId := 1);
    var s2 := s1.(waiter := Some(1), nextId := 2);
    var s3 := s2.(w := s2.w.(backendDone := true, inflight := 1), prepared := 1);
    var s4 := s3.(prepared := 0, waiter := None, terminal := None, wakeInflight := 2, tails := [Tail([1, 0], false, true)]);
    var wakes := [WakeLock, WakeReadDone, WakeCommit];
    var rest := [Gate(DoneAt)] + wakes;
    assert InsideRun() == [BindLock, BindReadDone, BindCommit] + ([ArmLock, ArmReadReady, ArmCommit] + rest);
    AfterAppend(s0, [BindLock, BindReadDone, BindCommit], [ArmLock, ArmReadReady, ArmCommit] + rest);
    AfterCons(s0, BindLock, [BindReadDone, BindCommit]);
    assert [BindLock] + [BindReadDone, BindCommit] == [BindLock, BindReadDone, BindCommit];
    MissBind(s0);
    AfterAppend(s1, [ArmLock, ArmReadReady, ArmCommit], rest);
    ArmThree(s1);
    AfterCons(s2, Gate(DoneAt), wakes);
    MissDone(s2);
    WakeThree(s3);
    InsideCalls(s4);
  }

  lemma {:induction false} ArmThree(s: Sys)
    requires s.lock.Free? && s.waiter.None? && s.nextId == 1 && !s.cancelled && !HasReadyOrDone(s.w)
    ensures After(s, [ArmLock, ArmReadReady, ArmCommit]) == s.(waiter := Some(1), nextId := 2)
  {
    AfterCons(s, ArmLock, [ArmReadReady, ArmCommit]);
    assert [ArmLock] + [ArmReadReady, ArmCommit] == [ArmLock, ArmReadReady, ArmCommit];
    AfterTwo(Next(s, ArmLock), ArmReadReady, ArmCommit);
  }

  lemma {:induction false} WakeThree(s: Sys)
    requires s.lock.Free? && s.prepared == 1 && s.waiter == Some(1) && s.terminal == Some(0) && DoneAndEmpty(s.w)
    requires s.tails == [] && s.wakeInflight == 0
    ensures After(s, [WakeLock, WakeReadDone, WakeCommit]) ==
            s.(prepared := 0, waiter := None, terminal := None, wakeInflight := 2, tails := [Tail([1, 0], false, true)])
  {
    AfterCons(s, WakeLock, [WakeReadDone, WakeCommit]);
    assert [WakeLock] + [WakeReadDone, WakeCommit] == [WakeLock, WakeReadDone, WakeCommit];
    AfterTwo(Next(s, WakeLock), WakeReadDone, WakeCommit);
    assert Ids(s.waiter) + Ids(s.terminal) == [1, 0];
  }

  lemma {:induction false} InvokeOnly(s: Sys, ids: seq<nat>, notification: bool)
    requires s.tails == [Tail(ids, false, notification)] && ids != []
    ensures Next(s, Invoke(0)) == s.(woken := s.woken + [ids[0]], tails := [Tail(ids, true, notification)])
  {
    assert s.tails[0 := s.tails[0].(inCall := true)] == [Tail(ids, true, notification)];
  }

  lemma {:induction false} ReturnOnly(s: Sys, ids: seq<nat>, notification: bool)
    requires s.tails == [Tail(ids, true, notification)] && ids != [] && s.lock.Free? && s.wakeInflight > 0
    ensures Next(s, Return(0)) == s.(wakeInflight := s.wakeInflight - 1, tails := [Tail(ids[1..], false, notification)])
  {
    assert s.tails[0 := s.tails[0].(inCall := false, pending := ids[1..])] == [Tail(ids[1..], false, notification)];
  }

  lemma {:induction false} UnarmInsideOnly(s: Sys)
    requires s.waiter.None?
    ensures Next(s, UnarmInside(0)) == s
  {
    assert s.dropped + multiset(Ids(s.waiter)) == s.dropped;
  }

  lemma {:induction false} InsideCalls(s: Sys)
    requires s.lock.Free? && s.waiter.None? && s.wakeInflight == 2 && s.woken == [] && s.tails == [Tail([1, 0], false, true)]
    ensures var inside := Next(s, Invoke(0));
            var unarmed := Next(inside, UnarmInside(0));
            && inside.tails == [Tail([1, 0], true, true)] && unarmed == inside
            && 0 !in unarmed.woken && 0 in Next(Next(unarmed, Return(0)), Invoke(0)).woken
  {
    hide Next;
    var inside := Next(s, Invoke(0));
    InvokeOnly(s, [1, 0], true);
    assert inside.woken == [1];
    UnarmInsideOnly(inside);
    ReturnOnly(inside, [1, 0], true);
    assert [1, 0][1..] == [0];
    var returned := Next(inside, Return(0));
    InvokeOnly(returned, [0], true);
    assert Next(returned, Invoke(0)).woken[1] == 0;
  }

  // ----- cancelling

  /** Once cancelled, a waker is armed only within the call that will wake it at once, and no
      terminal waker is bound. */
  predicate CancelledIsEmpty(s: Sys) {
    && (s.cancelling > 0 ==> s.cancelled)
    && (s.cancelled ==>
          && (s.waiter.Some? ==> s.lock.ArmLocked? || (s.lock.ArmRead? && s.lock.ready))
          && s.terminal.None? && (s.lock.BindRead? ==> s.lock.now))
  }

  lemma {:induction false} StepKeepsCancelled(s: Sys, step: Step)
    requires CancelledIsEmpty(s)
    ensures CancelledIsEmpty(Next(s, step))
  {
  }

  lemma {:induction false} RunKeepsCancelled(s: Sys, steps: seq<Step>)
    requires CancelledIsEmpty(s)
    ensures CancelledIsEmpty(After(s, steps))
    decreases |steps|
  {
    hide Next, CancelledIsEmpty;
    if steps != [] {
      StepKeepsCancelled(s, steps[0]);
      RunKeepsCancelled(Next(s, steps[0]), steps[1..]);
    }
  }

  /** When a cancel that had to wait returns, every waker ever handed in was called or
      dropped: none is armed, bound or on its way. */
  lemma {:induction false} CancelIsFinal(capacity: nat, steps: seq<Step>, id: nat)
    requires var s := After(Initial(capacity), steps); s.cancelling > 0 && s.lock.Free? && s.wakeInflight == 0
    ensures var s := Next(After(Initial(capacity), steps), CancelReturn);
            && s.waiter.None? && s.terminal.None? && !CallsToCome(s)
            && (id < s.nextId ==> id in s.woken || id in s.dropped)
  {
    var s := After(Initial(capacity), steps);
    EveryWakerAccounted(capacity, steps, id);
    RunKeepsCancelled(Initial(capacity), steps);
    NothingOutstanding(s.tails, id);
  }

  // ----- the terminal waker

  /** Notifications that will see the watch done and empty if it is so now. */
  function UnspentForTerminal(s: Sys): nat {
    s.prepared + (if s.lock.WakeLocked? || (s.lock.WakeRead? && s.lock.done) then 1 else 0)
  }

  predicate TerminalBound(s: Sys) {
    s.terminal.Some? || (s.lock.BindRead? && !s.lock.now)
  }

  /** The watch is done and empty, a terminal waker waits for that, and nobody will tell it. */
  predicate TerminalMissed(s: Sys) {
    TerminalBound(s) && DoneAndEmpty(s.w) && UnspentForTerminal(s) == 0
  }

  /** The delivery that takes the last item of a watch whose backend is done. */
  predicate LastDelivery(w: State) {
    w.backendDone && ((|w.queue| == 1 && !w.pending) || (w.queue == [] && w.pending))
  }

  /** Exactly one step can miss the terminal waker: the driver taking the last item after the
      backend is done, with no notification left that has yet to look. */
  lemma {:induction false} MissedExactlyByLastDelivery(s: Sys, step: Step)
    requires WatchShape(s) && !TerminalMissed(s)
    ensures TerminalMissed(Next(s, step)) <==>
              step == Gate(TakeAt) && LastDelivery(s.w) && TerminalBound(s) && UnspentForTerminal(s) == 0
  {
    if step.Gate? {
      GateMissed(s, step.g);
    }
  }

  lemma {:induction false} GateMissed(s: Sys, g: GateStep)
    requires WatchShape(s) && !TerminalMissed(s)
    ensures TerminalMissed(Next(s, Gate(g))) <==>
              g == TakeAt && LastDelivery(s.w) && TerminalBound(s) && UnspentForTerminal(s) == 0
  {
  }

  function MissingRun(): seq<Step> {
    [BindLock, BindReadDone, BindCommit,
     Gate(PublishAt(Detail(Created, "a", "", FileEntry))), WakeLock, WakeReadDone, WakeCommit, Finish(0),
     Gate(DoneAt), WakeLock, WakeReadDone, WakeCommit, Finish(0),
     Gate(TakeAt)]
  }

  const WAKE_CALL: seq<Step> := [WakeLock] + ([WakeReadDone, WakeCommit] + [Finish(0)])

  /** The terminal waker can indeed be missed: bind it, queue one detail, let the backend end
      while it is queued, then deliver it. No thread is left to invoke the waker. */
  lemma {:induction false} TerminalCanBeMissed()
    ensures var s := After(Initial(1), MissingRun());
            TerminalMissed(s) && s.terminal.Some? && s.prepared == 0 && s.lock.Free? && s.tails == []
  {
    hide After, Next;
    var d := Detail(Created, "a", "", FileEntry);
    var rest := [Gate(DoneAt)] + (WAKE_CALL + [Gate(TakeAt)]);
    assert MissingRun() == [BindLock] + ([BindReadDone, BindCommit] + ([Gate(PublishAt(d))] + (WAKE_CALL + rest)));
    var s0 := Initial(1);
    var s1 := s0.(terminal := Some(0), nextId := 1);
    MissBind(s0);
    AfterCons(s0, BindLock, [BindReadDone, BindCommit] + ([Gate(PublishAt(d))] + (WAKE_CALL + rest)));
    AfterAppend(Next(s0, BindLock), [BindReadDone, BindCommit], [Gate(PublishAt(d))] + (WAKE_CALL + rest));
    var s2 := s1.(w := s1.w.(queue := [d], inflight := 1), prepared := 1);
    MissPublish(s1, d);
    AfterCons(s1, Gate(PublishAt(d)), WAKE_CALL + rest);
    EmptyWake(s2);
    AfterAppend(s2, WAKE_CALL, rest);
    var s3 := s2.(w := s2.w.(inflight := 0), prepared := 0);
    MissDone(s3);
    AfterCons(s3, Gate(DoneAt), WAKE_CALL + [Gate(TakeAt)]);
    var s4 := s3.(w := s3.w.(backendDone := true, inflight := 1), prepared := 1);
    EmptyWake(s4);
    AfterAppend(s4, WAKE_CALL, [Gate(TakeAt)]);
    var s5 := s4.(w := s4.w.(inflight := 0), prepared := 0);
    AfterOne(s5, Gate(TakeAt));
    MissTake(s5, d);
  }

  lemma {:induction false} MissBind(s: Sys)
    requires s.lock.Free? && s.nextId == 0 && s.terminal.None? && !s.cancelled && !DoneAndEmpty(s.w)
    ensures After(Next(s, BindLock), [BindReadDone, BindCommit]) == s.(terminal := Some(0), nextId := 1)
  {
    AfterTwo(Next(s, BindLock), BindReadDone, BindCommit);
    assert s.dropped + multiset(Ids(s.terminal)) == s.dropped;
  }

  lemma {:induction false} MissPublish(s: Sys, d: Detail)
    requires PublishStatus(s.w) == Ok && s.w.notifying && s.w.queue == [] && s.prepared == 0 && s.w.inflight == 0
    ensures Next(s, Gate(PublishAt(d))) == s.(w := s.w.(queue := [d], inflight := 1), prepared := 1)
  {
    assert s.w.queue + [d] == [d];
  }

  lemma {:induction false} MissDone(s: Sys)
    requires s.w.notifying && s.prepared == 0 && s.w.inflight == 0
    ensures Next(s, Gate(DoneAt)) == s.(w := s.w.(backendDone := true, inflight := 1), prepared := 1)
  {
  }

  lemma {:induction false} MissTake(s: Sys, d: Detail)
    requires s.w.queue == [d]
    ensures Next(s, Gate(TakeAt)) == s.(w := s.w.(queue := []))
  {
    assert [d][1..] == [];
  }

  /** A lone notification that finds no waiter and no reason to wake the terminal waker. */
  lemma {:induction false} EmptyWake(s: Sys)
    requires s.lock.Free? && s.prepared == 1 && s.w.inflight == 1 && s.tails == [] && s.waiter.None? && !DoneAndEmpty(s.w)
    ensures After(s, WAKE_CALL) ==
            s.(prepared := 0, w := s.w.(inflight := 0))
  {
    var s1 := Next(s, WakeLock);
    AfterCons(s, WakeLock, [WakeReadDone, WakeCommit] + [Finish(0)]);
    AfterAppend(s1, [WakeReadDone, WakeCommit], [Finish(0)]);
    AfterTwo(s1, WakeReadDone, WakeCommit);
    var s3 := Next(Next(s1, WakeReadDone), WakeCommit);
    assert s3.tails == [Tail([], false, true)];
    AfterOne(s3, Finish(0));
    assert Without(s3.tails, 0) == [];
  }
}
