/** No accepted request of the filesystem service is stuck: from every reachable state the
threads already at work can bring it to its callback. */
module FsProgress {
  import opened FsService

  /** Steps of workers, of the driver, whose call may be a new one, and of whoever holds the
      gate. Nobody submits, posts, cancels anew or closes. */
  predicate Helping(step: Step) {
    || IsWork(step) || IsDriver(step) || IsScan(step)
    || step.SubmitCount? || step.RejectUncount? || step.CancelFlag? || step.CancelDecide?
  }

  predicate AllHelping(steps: seq<Step>) {
    forall i :: 0 <= i < |steps| ==> Helping(steps[i])
  }

  /** At most `n` helping steps lead to the callback of `id`. */
  ghost predicate Reaches(s: Service, id: nat, n: nat) {
    exists more: seq<Step> :: |more| <= n && AllHelping(more) && CallsOf(After(s, more).callbacks, id) == 1
  }

  lemma {:induction false} ReachesNow(s: Service, id: nat, n: nat)
    requires CallsOf(s.callbacks, id) == 1
    ensures Reaches(s, id, n)
  {
    var none: seq<Step> := [];
    assert |none| <= n && AllHelping(none) && After(s, none) == s;
  }

  lemma {:induction false} ReachesBy(s: Service, step: Step, id: nat, n: nat)
    requires Helping(step) && n > 0 && Reaches(Next(s, step), id, n - 1)
    ensures Reaches(s, id, n)
  {
    hide Next, CallsOf;
    var more: seq<Step> :| |more| <= n - 1 && AllHelping(more) && CallsOf(After(Next(s, step), more).callbacks, id) == 1;
    var all := [step] + more;
    assert all[1..] == more;
    assert |all| <= n && AllHelping(all) && CallsOf(After(s, all).callbacks, id) == 1;
  }

  lemma {:induction false} ReachesLater(s: Service, id: nat, n: nat, m: nat)
    requires Reaches(s, id, n) && n <= m
    ensures Reaches(s, id, m)
  {
  }

  /** Request `id` was accepted and waits for its callback. */
  predicate Waits(s: Service, id: nat) {
    id in s.acceptedIds && CallsOf(s.callbacks, id) == 0
  }

  lemma {:induction false} WaitsInSlot(s: Service, id: nat) returns (i: nat)
    requires Inv(s, id) && Waits(s, id)
    ensures i < |s.slots| && Live(s.slots[i], id) == 1
  {
    i := LiveSlot(s.slots, id);
  }

  lemma {:induction false} LiveSlot(cs: seq<Slot>, id: nat) returns (i: nat)
    requires LiveSum(cs, id) > 0
    ensures i < |cs| && Live(cs[i], id) == 1
  {
    if Live(cs[0], id) == 1 {
      i := 0;
    } else {
      i := LiveSlot(cs[1..], id);
      i := i + 1;
    }
  }

  /** A step keeps a waiting request waiting or calls it back. */
  lemma {:induction false} StillOrDone(s: Service, step: Step, id: nat)
    requires Inv(s, id) && id != 0 && Waits(s, id)
    ensures Inv(Next(s, step), id) && (Waits(Next(s, step), id) || CallsOf(Next(s, step).callbacks, id) == 1)
  {
    hide Inv;
    StepKeeps(s, step, id);
    AcceptedStays(s, step, id);
    CallsAtMostOne(Next(s, step), id);
  }

  lemma {:induction false} AcceptedStays(s: Service, step: Step, id: nat)
    requires id in s.acceptedIds
    ensures id in Next(s, step).acceptedIds
  {
    hide WorkSlot, DriverSlot, FirstFree, ScanStep;
    ScanAccepts(s, step);
  }

  lemma {:induction false} ScanAccepts(s: Service, step: Step)
    ensures ScanStep(s, step).acceptedIds == s.acceptedIds
  {
  }

  lemma {:induction false} CallsAtMostOne(s: Service, id: nat)
    requires Inv(s, id)
    ensures CallsOf(s.callbacks, id) <= 1
  {
    hide Shape, Counters, Ledger, OneDriven, Register, CancelHonoured, CallsOf, HoldsSum, LiveSum;
  }

  // ----- the driver's loop

  /** How far the driver is with a slot, of five steps. */
  function Spent(c: Slot): nat {
    match c.driver
    case NoDriver => 0
    case Taken => 1
    case Called => 2
    case Counted => 3
    case Emptied => 4
  }

  /** A finished request that waits for the driver, or for its call. */
  predicate Ready(c: Slot, id: nat) {
    c.id == id && SlotShape(c) && (c.phase.Complete? || (c.phase.Delivering? && c.driver.Taken?))
  }

  /** Nobody but the driver is in the driver's way. */
  predicate Calm(s: Service) {
    || s.gate.GateFree?
    || (s.scan.Scanning? && s.scan.index < |s.slots| && s.gate == DriverHolds(s.scan.index) && s.slots[s.scan.index].driver.Emptied?)
  }

  function SpentNow(s: Service): nat {
    if s.scan.Scanning? && s.scan.index < |s.slots| then Spent(s.slots[s.scan.index]) else 0
  }

  /** How many steps of the driver the callback of slot `i` may take: five for each slot before
      it, and, when the running loop is past it or may stop before it, the rest of that loop and
      the beginning of a new one as well. */
  function Distance(s: Service, i: nat): int {
    var n := |s.slots|;
    match s.scan
    case Idle => 5 * i + 3
    case Scanning(index, delivered, max) =>
      if index <= i && max - delivered >= n - index then 5 * (i - index) + 2 - SpentNow(s)
      else 5 * (n - index) - SpentNow(s) + 5 * i + 4
  }

  /** What the driver does next. */
  function DriverNext(s: Service): Step {
    match s.scan
    case Idle => DriverBegin(|s.slots|)
    case Scanning(index, delivered, max) =>
      if index >= |s.slots| then DriverEnd
      else
        match s.slots[index].driver
        case Taken => DriverCall(index)
        case Called => DriverCount(index)
        case Counted => DriverReset(index)
        case Emptied => DriverUncount(index)
        case NoDriver =>
          if delivered >= max then DriverEnd
          else if s.slots[index].phase.Complete? then DriverTake(index)
          else DriverSkip
  }

  lemma {:induction false} EmptiedInUse(s: Service, id: nat, j: nat)
    requires Inv(s, id) && j < |s.slots| && s.slots[j].driver.Emptied?
    ensures s.inUse > 0 && s.gate == DriverHolds(j)
  {
    hide Ledger, OneDriven, Register, CancelHonoured, CalledOnce, UseSum, SlotShape, GateShape;
    SumsHave(s.slots, j, id);
    ShapeAt(s, j);
  }

  /** Facts about the slot the driver's loop is at. */
  lemma {:induction false} AtIndex(s: Service, id: nat, i: nat)
    requires Inv(s, id) && i < |s.slots| && Ready(s.slots[i], id)
    ensures s.scan.Idle? ==> forall j :: 0 <= j < |s.slots| ==> s.slots[j].driver.NoDriver?
    ensures s.scan.Scanning? ==>
              && s.scan.index <= |s.slots|
              && (forall j :: 0 <= j < |s.slots| && j != s.scan.index ==> s.slots[j].driver.NoDriver?)
              && (SpentNow(s) > 0 ==> s.scan.delivered < s.scan.max)
              && (s.scan.index == i ==> SpentNow(s) <= 1)
  {
    hide Shape, Counters, Ledger, Register, CancelHonoured, CalledOnce;
  }

  lemma {:induction false} DistancePositive(s: Service, id: nat, i: nat)
    requires Inv(s, id) && i < |s.slots| && Ready(s.slots[i], id)
    ensures 0 < Distance(s, i) <= 10 * |s.slots| - 1
  {
    hide Inv;
    AtIndex(s, id, i);
  }

  /** The driver starts a new loop. */
  lemma {:induction false} BeginAdvances(s: Service, id: nat, i: nat)
    requires Inv(s, id) && i < |s.slots| && Ready(s.slots[i], id) && Calm(s) && s.scan.Idle?
    ensures var t := Next(s, DriverNext(s));
            t == s.(scan := Scanning(0, 0, |s.slots|)) && Calm(t) && Distance(t, i) < Distance(s, i)
  {
    hide Inv;
    AtIndex(s, id, i);
  }

  /** The driver's loop moves on without a delivery, or ends. */
  lemma {:induction false} LoopAdvances(s: Service, id: nat, i: nat)
    requires Inv(s, id) && i < |s.slots| && Ready(s.slots[i], id) && Calm(s) && s.scan.Scanning?
    requires DriverNext(s).DriverSkip? || DriverNext(s).DriverEnd?
    ensures var t := Next(s, DriverNext(s));
            t == s.(scan := t.scan) && Calm(t) && Distance(t, i) < Distance(s, i)
  {
    hide Inv;
    AtIndex(s, id, i);
    NotHeld(s, id);
  }

  lemma {:induction false} NotHeld(s: Service, id: nat)
    requires Inv(s, id) && Calm(s)
    ensures SpentNow(s) == 0 ==> s.gate.GateFree?
  {
    hide Inv;
  }

  /** The driver takes its next step with the slot its loop is at. */
  lemma {:induction false} SlotAdvances(s: Service, id: nat, i: nat)
    requires Inv(s, id) && i < |s.slots| && Ready(s.slots[i], id) && Calm(s) && s.scan.Scanning?
    requires IsDriver(DriverNext(s)) && !(s.scan.index == i && DriverNext(s).DriverCall?)
    ensures var t := Next(s, DriverNext(s));
            && |t.slots| == |s.slots| && Ready(t.slots[i], id) && Calm(t) && Distance(t, i) < Distance(s, i)
  {
    hide Inv, SlotShape;
    AtIndex(s, id, i);
    var j := s.scan.index;
    if s.slots[j].driver.Emptied? {
      EmptiedInUse(s, id, j);
    }
    if j == i {
      TakenIsReady(s.slots[i], id);
    }
  }

  lemma {:induction false} TakenIsReady(c: Slot, id: nat)
    requires Ready(c, id) && c.driver.NoDriver?
    ensures c.phase.Complete? && Ready(DriverSlot(c, DriverTake(0)), id)
    ensures forall i :: DriverSlot(c, DriverTake(i)) == DriverSlot(c, DriverTake(0))
  {
  }

  lemma {:induction false} CallReaches(s: Service, id: nat, i: nat, n: nat)
    requires Inv(s, id) && i < |s.slots| && Ready(s.slots[i], id) && s.scan.Scanning? && s.scan.index == i
    requires Waits(s, id) && DriverNext(s).DriverCall? && n > 0
    ensures Reaches(s, id, n)
  {
    hide Inv, Reaches;
    var t := Next(s, DriverNext(s));
    CallsSnoc(s.callbacks, Completion(id, s.slots[i].operation, s.slots[i].result), id);
    ReachesNow(t, id, n - 1);
    ReachesBy(s, DriverNext(s), id, n);
  }

  lemma {:induction false} FromReady(s: Service, i: nat, id: nat)
    requires Inv(s, id) && id != 0 && Waits(s, id) && Calm(s) && i < |s.slots| && Ready(s.slots[i], id)
    ensures 0 < Distance(s, i) && Reaches(s, id, Distance(s, i))
    decreases Distance(s, i)
  {
    hide Inv, CallsOf, Reaches, Ready, Calm, Distance, DriverNext, Next;
    DistancePositive(s, id, i);
    var step := DriverNext(s);
    var t := Next(s, step);
    StepKind(s);
    if s.scan.Scanning? && s.scan.index == i && step.DriverCall? {
      CallReaches(s, id, i, Distance(s, i));
    } else {
      StillOrDone(s, step, id);
      if CallsOf(t.callbacks, id) == 1 {
        ReachesNow(t, id, Distance(s, i) - 1);
      } else {
        if s.scan.Idle? {
          BeginAdvances(s, id, i);
        } else if IsDriver(step) {
          SlotAdvances(s, id, i);
        } else {
          LoopAdvances(s, id, i);
        }
        FromReady(t, i, id);
        ReachesLater(t, id, Distance(t, i), Distance(s, i) - 1);
      }
      ReachesBy(s, step, id, Distance(s, i));
    }
  }

  lemma {:induction false} StepKind(s: Service)
    ensures Helping(DriverNext(s))
    ensures s.scan.Scanning? ==> IsDriver(DriverNext(s)) || DriverNext(s).DriverSkip? || DriverNext(s).DriverEnd?
  {
  }

  // ----- the worker

  function WorkLeft(c: Slot): nat {
    match c.work
    case Posted => 4
    case Claimed => 3
    case FlagRead(_) => 2
    case ClaimedCancel => 2
    case ResultSet => 1
    case NoTask => 0
  }

  function WorkNext(c: Slot, i: nat): Step {
    match c.work
    case Posted => RunClaim(i)
    case Claimed => RunLoadFlag(i)
    case FlagRead(_) => RunExecute(i, Succeeded)
    case ClaimedCancel => CancelResult(i)
    case ResultSet => PublishResult(i)
    case NoTask => PublishResult(i)
  }

  /** An accepted request the driver has not taken: queued with its task posted, running, or
      complete. */
  predicate AtWork(c: Slot, id: nat) {
    && c.id == id && SlotShape(c) && c.submitter.NoSubmitter?
    && (c.phase.Queued? || c.phase.Running? || c.phase.Complete?)
  }

  lemma {:induction false} WorkAdvances(c: Slot, i: nat, id: nat)
    requires AtWork(c, id) && WorkLeft(c) > 0
    ensures var d := WorkSlot(c, WorkNext(c, i)); AtWork(d, id) && WorkLeft(d) + 1 == WorkLeft(c)
    ensures IsWork(WorkNext(c, i)) && WorkNext(c, i).i == i
  {
  }

  lemma {:induction false} FromWork(s: Service, i: nat, id: nat)
    requires Inv(s, id) && id != 0 && Waits(s, id) && Calm(s) && i < |s.slots| && AtWork(s.slots[i], id)
    ensures Reaches(s, id, WorkLeft(s.slots[i]) + 10 * |s.slots| - 1)
    decreases WorkLeft(s.slots[i])
  {
    hide Inv, CallsOf, WorkSlot, WorkNext, AtWork, Reaches, Ready, Calm, Distance, Next;
    var c := s.slots[i];
    if WorkLeft(c) == 0 {
      DoneIsReady(c, id);
      FromReady(s, i, id);
      DistancePositive(s, id, i);
      ReachesLater(s, id, Distance(s, i), 10 * |s.slots| - 1);
    } else {
      WorkAdvances(c, i, id);
      var step := WorkNext(c, i);
      var t := Next(s, step);
      WorkIsNext(s, step);
      StepKeeps(s, step, id);
      CalmStays(s, t, i, id, step);
      AcceptedStays(s, step, id);
      FromWork(t, i, id);
      ReachesBy(s, step, id, WorkLeft(c) + 10 * |s.slots| - 1);
    }
  }

  lemma {:induction false} DoneIsReady(c: Slot, id: nat)
    requires AtWork(c, id) && WorkLeft(c) == 0
    ensures Ready(c, id)
  {
  }

  lemma {:induction false} CalmStays(s: Service, t: Service, i: nat, id: nat, step: Step)
    requires Calm(s) && i < |s.slots| && AtWork(s.slots[i], id)
    requires t.scan == s.scan && t.gate == s.gate && t.slots == s.slots[i := WorkSlot(s.slots[i], step)]
    ensures Calm(t)
  {
  }

  lemma {:induction false} WorkIsNext(s: Service, step: Step)
    requires IsWork(step) && step.i < |s.slots|
    ensures var t := Next(s, step);
            && t.slots == s.slots[step.i := WorkSlot(s.slots[step.i], step)]
            && t.scan == s.scan && t.gate == s.gate && t.callbacks == s.callbacks
  {
    hide WorkSlot;
  }

  // ----- any state

  lemma {:induction false} LiveKinds(c: Slot, id: nat)
    requires Live(c, id) == 1 && SlotShape(c)
    ensures Ready(c, id) || (AtWork(c, id) && WorkLeft(c) <= 4)
  {
  }

  lemma {:induction false} FromCalm(s: Service, id: nat)
    requires Inv(s, id) && id != 0 && Waits(s, id) && Calm(s)
    ensures Reaches(s, id, 10 * |s.slots| + 3)
  {
    hide CallsOf, Reaches, Inv, Calm, Distance, Ready, AtWork;
    var i := WaitsInSlot(s, id);
    InvShape(s, id, i);
    LiveKinds(s.slots[i], id);
    if Ready(s.slots[i], id) {
      FromReady(s, i, id);
      DistancePositive(s, id, i);
      ReachesLater(s, id, Distance(s, i), 10 * |s.slots| + 3);
    } else {
      FromWork(s, i, id);
      ReachesLater(s, id, WorkLeft(s.slots[i]) + 10 * |s.slots| - 1, 10 * |s.slots| + 3);
    }
  }

  lemma {:induction false} InvShape(s: Service, id: nat, i: nat)
    requires Inv(s, id) && i < |s.slots|
    ensures SlotShape(s.slots[i])
  {
    hide Shape, Counters, Ledger, OneDriven, Register, CalledOnce, CancelHonoured, SlotShape, GateShape;
    ShapeAt(s, i);
  }

  /** What a holder of the gate other than the driver does next. */
  function GateNext(g: Gate): Step {
    match g
    case SubmitHolds(i) => SubmitCount(i)
    case RejectHolds(i) => RejectUncount(i)
    case CancelHolds(_, _, flagged) => if flagged then CancelDecide else CancelFlag
    case _ => CancelDecide
  }

  lemma {:induction false} DriverIsCalm(s: Service, id: nat)
    requires Inv(s, id) && s.gate.DriverHolds?
    ensures Calm(s)
  {
    hide Counters, Ledger, Register, CalledOnce, CancelHonoured;
  }

  lemma {:induction false} GateAdvances(s: Service, id: nat)
    requires Inv(s, id) && !s.gate.GateFree? && !s.gate.DriverHolds?
    ensures var t := Next(s, GateNext(s.gate));
            && Helping(GateNext(s.gate)) && |t.slots| == |s.slots|
            && (t.gate.GateFree? || (s.gate.CancelHolds? && !s.gate.flagged && t.gate.CancelHolds? && t.gate.flagged))
  {
    hide Counters, Ledger, OneDriven, Register, CalledOnce, CancelHonoured;
    if s.gate.RejectHolds? {
      GateInUse(s, id);
    }
  }

  lemma {:induction false} GateInUse(s: Service, id: nat)
    requires Inv(s, id) && s.gate.RejectHolds?
    ensures s.inUse > 0
  {
    hide Ledger, OneDriven, Register, CalledOnce, CancelHonoured, UseSum;
    SumsHave(s.slots, s.gate.slot, id);
    assert SlotShape(s.slots[s.gate.slot]);
  }

  /** With the gate held for `n` more steps at most. */
  lemma {:induction false} FromGate(s: Service, id: nat, n: nat)
    requires Inv(s, id) && id != 0 && Waits(s, id)
    requires Calm(s) || (!s.gate.GateFree? && n >= (if s.gate.CancelHolds? && !s.gate.flagged then 2 else 1))
    ensures Reaches(s, id, 10 * |s.slots| + 3 + n)
    decreases n
  {
    hide CallsOf, Reaches, Inv, Next;
    if s.gate.DriverHolds? {
      DriverIsCalm(s, id);
    }
    if Calm(s) {
      FromCalm(s, id);
      ReachesLater(s, id, 10 * |s.slots| + 3, 10 * |s.slots| + 3 + n);
    } else {
      var step := GateNext(s.gate);
      var t := Next(s, step);
      GateAdvances(s, id);
      StillOrDone(s, step, id);
      if CallsOf(t.callbacks, id) == 1 {
        ReachesNow(t, id, 10 * |s.slots| + 2 + n);
      } else {
        FromGate(t, id, n - 1);
      }
      ReachesBy(s, step, id, 10 * |s.slots| + 3 + n);
    }
  }

  lemma {:induction false} SlotsStay(s: Service, step: Step)
    ensures |Next(s, step).slots| == |s.slots|
  {
    hide WorkSlot, DriverSlot, FirstFree;
  }

  lemma {:induction false} RunSlots(s: Service, steps: seq<Step>)
    ensures |After(s, steps).slots| == |s.slots|
    decreases |steps|
  {
    hide Next;
    if steps != [] {
      SlotsStay(s, steps[0]);
      RunSlots(Next(s, steps[0]), steps[1..]);
    }
  }

  /** Main result: in every interleaving, an accepted request without a callback can be brought
      to it by workers, the driver and the holder of the gate. The number of steps is bounded by
      the capacity: two for the gate, four for the worker, the rest of the driver's running loop
      and one loop more, at five steps a slot. */
  lemma {:induction false} AcceptedCanComplete(capacity: nat, steps: seq<Step>, id: nat)
    requires id != 0 && Waits(After(Initial(capacity), steps), id)
    ensures Reaches(After(Initial(capacity), steps), id, 10 * capacity + 5)
  {
    hide CallsOf, Reaches, Inv, Next, After;
    var s := After(Initial(capacity), steps);
    RunSlots(Initial(capacity), steps);
    EveryRun(capacity, steps, id);
    FromGate(s, id, 2);
  }

  // ----- what is admitted and what is granted

  ghost predicate SomeFree(s: Service) {
    exists i :: 0 <= i < |s.slots| && s.slots[i].phase.FreeSlot?
  }

  lemma {:induction false} FirstFreeExact(slots: seq<Slot>, k: nat)
    requires k <= |slots|
    ensures forall i :: k <= i < FirstFree(slots, k) ==> !slots[i].phase.FreeSlot?
    decreases |slots| - k
  {
    if k < |slots| && !slots[k].phase.FreeSlot? {
      FirstFreeExact(slots, k + 1);
    }
  }

  /** A submission that finds the gate free is admitted exactly when the service is not closing,
      an id is left and a slot is free. It takes the first free slot, under a new id. */
  lemma {:induction false} AdmittedExactly(s: Service, operation: nat)
    requires s.gate.GateFree?
    ensures var t := Next(s, Submit(operation));
            && (t.lastId == s.lastId + 1 <==> !s.closeRequested && s.lastId < ID_LIMIT && SomeFree(s))
            && (t.lastId != s.lastId + 1 ==> t == s)
            && (t.lastId == s.lastId + 1 ==>
                  exists i :: 0 <= i < |s.slots| && s.slots[i].phase.FreeSlot? && t.gate == SubmitHolds(i)
                    && (forall j :: 0 <= j < i ==> !s.slots[j].phase.FreeSlot?)
                    && t.slots == s.slots[i := t.slots[i]] && t.slots[i].id == t.lastId
                    && t.slots[i].operation == operation && t.slots[i].phase.Queued? && !t.slots[i].cancelRequested)
  {
    hide FirstFree;
    FirstFreeExact(s.slots, 0);
  }

  lemma {:induction false} AfterMore(s: Service, steps: seq<Step>, more: seq<Step>)
    ensures After(s, steps + more) == After(After(s, steps), more)
    decreases |steps|
  {
    hide Next;
    if steps == [] {
      assert steps + more == more;
    } else {
      assert (steps + more)[1..] == steps[1..] + more;
      AfterMore(Next(s, steps[0]), steps[1..], more);
    }
  }

  lemma {:induction false} AfterThree(s: Service, a: Step, b: Step, c: Step)
    ensures After(s, [a, b, c]) == Next(Next(Next(s, a), b), c)
  {
    hide Next;
    assert [a, b, c][1..] == [b, c] && [b, c][1..] == [c] && [c][1..] == [];
    assert After(Next(Next(s, a), b), [c]) == Next(Next(Next(s, a), b), c);
  }

  function Submission(i: nat, operation: nat): seq<Step> {
    [Submit(operation), SubmitCount(i), PostAccepted(i)]
  }

  lemma {:induction false} SubmissionAccepts(s: Service, operation: nat)
    requires s.gate.GateFree? && !s.closeRequested && s.lastId < ID_LIMIT && SomeFree(s)
    ensures var i := FirstFree(s.slots, 0);
            var t := After(s, Submission(i, operation));
            i < |s.slots| && s.lastId + 1 in t.acceptedIds && t.callbacks == s.callbacks && t.gate.GateFree?
  {
    hide FirstFree, After;
    FirstFreeExact(s.slots, 0);
    var i := FirstFree(s.slots, 0);
    AfterThree(s, Submit(operation), SubmitCount(i), PostAccepted(i));
  }

  /** Main result: in every reachable state in which the gate is free, the service is not closing,
      an id is left and a slot is free, a submission that the executor takes is accepted under
      the next id, and can be brought to its callback. */
  lemma {:induction false} SubmissionCompletes(capacity: nat, steps: seq<Step>, operation: nat)
    requires var s := After(Initial(capacity), steps);
             s.gate.GateFree? && !s.closeRequested && s.lastId < ID_LIMIT && SomeFree(s)
    ensures var s := After(Initial(capacity), steps);
            var all := steps + Submission(FirstFree(s.slots, 0), operation);
            var t := After(Initial(capacity), all);
            && Waits(t, s.lastId + 1)
            && Reaches(t, s.lastId + 1, 10 * capacity + 5)
  {
    hide Next, After, CallsOf, Reaches, FirstFree, SomeFree;
    var s := After(Initial(capacity), steps);
    var id := s.lastId + 1;
    SubmissionAccepts(s, operation);
    AfterMore(Initial(capacity), steps, Submission(FirstFree(s.slots, 0), operation));
    EveryRun(capacity, steps, id);
    NeverCalled(s, id);
    AcceptedCanComplete(capacity, steps + Submission(FirstFree(s.slots, 0), operation), id);
  }

  lemma {:induction false} NeverCalled(s: Service, id: nat)
    requires Inv(s, id) && id > s.lastId
    ensures CallsOf(s.callbacks, id) == 0
  {
    hide Shape, Counters, Ledger, OneDriven, Register, CancelHonoured, CallsOf, HoldsSum, LiveSum;
  }

  /** A cancellation that finds the gate free and is not overtaken by a worker is granted exactly
      when the request is still queued; nobody else's request is. */
  lemma {:induction false} CancelGrants(s: Service, i: nat, id: nat)
    requires s.gate.GateFree? && i < |s.slots| && id != 0 && s.slots[i].id == id && id !in s.requested
    ensures var t := After(s, [CancelScan(i, id), CancelFlag, CancelDecide]);
            && t.gate.GateFree?
            && (id in t.requested <==> s.slots[i].phase.Queued?)
            && t.requested - {id} == s.requested - {id}
            && (s.slots[i].phase.Queued? ==> t.slots == s.slots[i := s.slots[i].(cancelRequested := true)])
            && (!s.slots[i].phase.Queued? ==> t == s)
  {
    hide After;
    AfterThree(s, CancelScan(i, id), CancelFlag, CancelDecide);
  }
}
