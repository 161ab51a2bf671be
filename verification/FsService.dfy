/** The bounded filesystem service: submitters, executor workers, cancellers and one driver
race over a fixed table of slots.

Every atomic load, store, compare-and-swap and counter update that another thread can
observe is its own step, and the gate is a lock that a thread holds over several of its
steps. Of the executor it is only assumed that an accepted task is run once or cancelled
once. */
module FsService {

  datatype Phase = FreeSlot | Queued | Running | Complete | Delivering

  datatype Outcome = Succeeded | Cancelled | Failed(code: int)

  /** The executor's task for a slot, and the worker that has taken it. */
  datatype Work =
    | NoTask
    | Posted
    | Claimed
    | FlagRead(cancelled: bool)
    | ClaimedCancel
    | ResultSet

  /** The submitter that is still busy with a slot. */
  datatype Submitter = NoSubmitter | Stored | Unposted | Rejected | Resetting

  /** The driver's progress with a slot. */
  datatype Driver = NoDriver | Taken | Called | Counted | Emptied

  datatype Slot = Slot(
    phase: Phase,
    cancelRequested: bool,
    id: nat,
    operation: nat,
    result: Outcome,
    work: Work,
    submitter: Submitter,
    driver: Driver)

  /** Who holds the gate. */
  datatype Gate =
    | GateFree
    | SubmitHolds(slot: nat)
    | RejectHolds(slot: nat)
    | CancelHolds(slot: nat, id: nat, flagged: bool)
    | DriverHolds(slot: nat)

  /** The driver's loop over the slots, between raising and lowering its flag: where it is, and
      how many of at most `max` requests it has delivered. */
  datatype Scan = Idle | Scanning(index: nat, delivered: nat, max: nat)

  datatype Completion = Completion(id: nat, operation: nat, result: Outcome)

  datatype Service = Service(
    slots: seq<Slot>,
    gate: Gate,
    lastId: nat,
    scan: Scan,
    closeRequested: bool,
    closing: bool,
    inUse: nat,
    uncountedAccepts: nat,
    accepted: nat,
    completed: nat,
    cancelled: nat,
    acceptedIds: set<nat>,
    requested: set<nat>,
    executed: set<nat>,
    callbacks: seq<Completion>)

  const ID_LIMIT: nat := 0xFFFF_FFFF_FFFF_FFFF

  const EMPTY_SLOT := Slot(FreeSlot, false, 0, 0, Succeeded, NoTask, NoSubmitter, NoDriver)

  datatype Step =
    | Submit(operation: nat)
    | SubmitCount(i: nat)
    | PostAccepted(i: nat)
    | PostRejected(i: nat)
    | CountAccept
    | RejectReset(i: nat)
    | RejectUncount(i: nat)
    | RunClaim(i: nat)
    | RunLoadFlag(i: nat)
    | RunExecute(i: nat, outcome: Outcome)
    | CancelClaim(i: nat)
    | CancelResult(i: nat)
    | PublishResult(i: nat)
    | CancelScan(i: nat, id: nat)
    | CancelFlag
    | CancelDecide
    | DriverBegin(max: nat)
    | DriverSkip
    | DriverEnd
    | DriverTake(i: nat)
    | DriverCall(i: nat)
    | DriverCount(i: nat)
    | DriverReset(i: nat)
    | DriverUncount(i: nat)
    | CloseService
    | CloseSettles(ok: bool)

  /** The first free slot, as the submitter's scan finds it. */
  function FirstFree(slots: seq<Slot>, k: nat): (r: nat)
    requires k <= |slots|
    ensures k <= r <= |slots|
    ensures r < |slots| ==> slots[r].phase.FreeSlot?
    decreases |slots| - k
  {
    if k == |slots| || slots[k].phase.FreeSlot? then k else FirstFree(slots, k + 1)
  }

  function Put(s: Service, i: nat, slot: Slot): Service
    requires i < |s.slots|
  {
    s.(slots := s.slots[i := slot])
  }

  /** What a step of a submitter does to its slot. */
  function SubmitStep(s: Service, step: Step): Service {
    match step
    case Submit(operation) =>
      var i := FirstFree(s.slots, 0);
      if s.gate.GateFree? && !s.closeRequested && s.lastId < ID_LIMIT && i < |s.slots| then
        Put(s, i, Slot(Queued, false, s.lastId + 1, operation, Succeeded, NoTask, Stored, NoDriver))
        .(gate := SubmitHolds(i), lastId := s.lastId + 1)
      else s
    case SubmitCount(i) =>
      if i < |s.slots| && s.gate == SubmitHolds(i) then
        Put(s, i, s.slots[i].(submitter := Unposted)).(gate := GateFree, inUse := s.inUse + 1)
      else s
    case PostAccepted(i) =>
      if i < |s.slots| && s.slots[i].submitter.Unposted? then
        Put(s, i, s.slots[i].(submitter := NoSubmitter, work := Posted))
        .(acceptedIds := s.acceptedIds + {s.slots[i].id}, uncountedAccepts := s.uncountedAccepts + 1)
      else s
    case PostRejected(i) =>
      if i < |s.slots| && s.slots[i].submitter.Unposted? then Put(s, i, s.slots[i].(submitter := Rejected)) else s
    case CountAccept =>
      if s.uncountedAccepts > 0
      then s.(uncountedAccepts := s.uncountedAccepts - 1, accepted := s.accepted + 1)
      else s
    case RejectReset(i) =>
      if i < |s.slots| && s.slots[i].submitter.Rejected? && s.gate.GateFree? then
        Put(s, i, EMPTY_SLOT.(submitter := Resetting)).(gate := RejectHolds(i))
      else s
    case RejectUncount(i) =>
      if i < |s.slots| && s.gate == RejectHolds(i) && s.inUse > 0 then
        Put(s, i, s.slots[i].(submitter := NoSubmitter)).(gate := GateFree, inUse := s.inUse - 1)
      else s
    case _ => s
  }

  /** What a worker does to a slot. A compare-and-swap that fails abandons the task. */
  function WorkSlot(c: Slot, step: Step): Slot {
    match step
    case RunClaim(_) =>
      if !c.work.Posted? then c
      else if c.phase.Queued? then c.(phase := Running, work := Claimed)
      else c.(work := NoTask)
    case RunLoadFlag(_) => if c.work.Claimed? then c.(work := FlagRead(c.cancelRequested)) else c
    case RunExecute(_, outcome) =>
      if c.work.FlagRead?
      then c.(result := if c.work.cancelled then Cancelled else outcome, work := ResultSet)
      else c
    case CancelClaim(_) =>
      if !c.work.Posted? then c
      else if c.phase.Queued? then c.(phase := Running, work := ClaimedCancel)
      else c.(work := NoTask)
    case CancelResult(_) => if c.work.ClaimedCancel? then c.(result := Cancelled, work := ResultSet) else c
    case PublishResult(_) => if c.work.ResultSet? then c.(phase := Complete, work := NoTask) else c
    case _ => c
  }

  predicate IsWork(step: Step) {
    || step.RunClaim? || step.RunLoadFlag? || step.RunExecute?
    || step.CancelClaim? || step.CancelResult? || step.PublishResult?
  }

  /** The worker performs the filesystem operation itself. */
  predicate Executes(c: Slot, step: Step) {
    step.RunExecute? && c.work == FlagRead(false)
  }

  function WorkStep(s: Service, step: Step): Service {
    if IsWork(step) && step.i < |s.slots| then
      Put(s, step.i, WorkSlot(s.slots[step.i], step))
      .(executed := if Executes(s.slots[step.i], step) then s.executed + {s.slots[step.i].id} else s.executed)
    else s
  }

  /** A canceller, which holds the gate from its scan to its answer. The answer REQUESTED is
      given, and recorded, when the slot is still queued after the flag was stored. */
  function CancelStep(s: Service, step: Step): Service {
    match step
    case CancelScan(i, id) =>
      if s.gate.GateFree? && i < |s.slots| && id != 0 && s.slots[i].id == id && s.slots[i].phase.Queued?
      then s.(gate := CancelHolds(i, id, false))
      else s
    case CancelFlag =>
      if s.gate.CancelHolds? && !s.gate.flagged && s.gate.slot < |s.slots| then
        Put(s, s.gate.slot, s.slots[s.gate.slot].(cancelRequested := true)).(gate := s.gate.(flagged := true))
      else s
    case CancelDecide =>
      if s.gate.CancelHolds? && s.gate.flagged && s.gate.slot < |s.slots| then
        s.(gate := GateFree,
           requested := if s.slots[s.gate.slot].phase.Queued? then s.requested + {s.gate.id} else s.requested)
      else s
    case _ => s
  }

  predicate IsDriver(step: Step) {
    step.DriverTake? || step.DriverCall? || step.DriverCount? || step.DriverReset? || step.DriverUncount?
  }

  /** What the driver does to a slot. */
  function DriverSlot(c: Slot, step: Step): Slot {
    match step
    case DriverTake(_) => c.(phase := Delivering, driver := Taken)
    case DriverCall(_) => c.(driver := Called)
    case DriverCount(_) => c.(driver := Counted)
    case DriverReset(_) => EMPTY_SLOT.(driver := Emptied)
    case _ => c.(driver := NoDriver)
  }

  predicate DriverEnabled(s: Service, step: Step) {
    && IsDriver(step) && step.i < |s.slots| && s.scan.Scanning? && step.i == s.scan.index
    && match step
       case DriverTake(i) => s.scan.delivered < s.scan.max && s.slots[i].phase.Complete?
       case DriverCall(i) => s.slots[i].driver.Taken?
       case DriverCount(i) => s.slots[i].driver.Called?
       case DriverReset(i) => s.slots[i].driver.Counted? && s.gate.GateFree?
       case _ => s.gate == DriverHolds(step.i) && s.inUse > 0
  }

  function DriverStep(s: Service, step: Step): Service {
    if !DriverEnabled(s, step) then s
    else
      var c := s.slots[step.i];
      var t := Put(s, step.i, DriverSlot(c, step));
      match step
      case DriverTake(_) => t
      case DriverCall(_) => t.(callbacks := s.callbacks + [Completion(c.id, c.operation, c.result)])
      case DriverCount(_) =>
        if c.result.Cancelled? then t.(cancelled := s.cancelled + 1) else t.(completed := s.completed + 1)
      case DriverReset(i) => t.(gate := DriverHolds(i))
      case _ =>
        t.(gate := GateFree, inUse := s.inUse - 1,
           scan := Scanning(s.scan.index + 1, s.scan.delivered + 1, s.scan.max))
  }

  predicate IsScan(step: Step) {
    step.DriverBegin? || step.DriverSkip? || step.DriverEnd?
  }

  /** The driver's loop around its work on slots: one call at a time, slots in order, those that
      are not complete passed over, at most `max` delivered. */
  function ScanStep(s: Service, step: Step): Service {
    match step
    case DriverBegin(max) => if s.scan.Idle? && max > 0 then s.(scan := Scanning(0, 0, max)) else s
    case DriverSkip =>
      if s.scan.Scanning? && s.scan.index < |s.slots| && s.scan.delivered < s.scan.max
         && s.slots[s.scan.index].driver.NoDriver? && !s.slots[s.scan.index].phase.Complete?
      then s.(scan := s.scan.(index := s.scan.index + 1))
      else s
    case DriverEnd =>
      if s.scan.Scanning? && (s.scan.index >= |s.slots| || s.scan.delivered >= s.scan.max)
      then s.(scan := Idle)
      else s
    case _ => s
  }

  function Next(s: Service, step: Step): Service {
    match step
    case Submit(_) => SubmitStep(s, step)
    case SubmitCount(_) => SubmitStep(s, step)
    case PostAccepted(_) => SubmitStep(s, step)
    case PostRejected(_) => SubmitStep(s, step)
    case CountAccept => SubmitStep(s, step)
    case RejectReset(_) => SubmitStep(s, step)
    case RejectUncount(_) => SubmitStep(s, step)
    case RunClaim(_) => WorkStep(s, step)
    case RunLoadFlag(_) => WorkStep(s, step)
    case RunExecute(_, _) => WorkStep(s, step)
    case CancelClaim(_) => WorkStep(s, step)
    case CancelResult(_) => WorkStep(s, step)
    case PublishResult(_) => WorkStep(s, step)
    case CancelScan(_, _) => CancelStep(s, step)
    case CancelFlag => CancelStep(s, step)
    case CancelDecide => CancelStep(s, step)
    case DriverTake(_) => DriverStep(s, step)
    case DriverCall(_) => DriverStep(s, step)
    case DriverCount(_) => DriverStep(s, step)
    case DriverReset(_) => DriverStep(s, step)
    case DriverUncount(_) => DriverStep(s, step)
    case DriverBegin(_) => ScanStep(s, step)
    case DriverSkip => ScanStep(s, step)
    case DriverEnd => ScanStep(s, step)
    case CloseService => if s.closeRequested then s else s.(closeRequested := true, closing := true)
    case CloseSettles(ok) => if s.closing then s.(closeRequested := ok, closing := false) else s
  }

  function Initial(capacity: nat): Service {
    Service(seq(capacity, i => EMPTY_SLOT), GateFree, 0, Idle, false, false, 0, 0, 0, 0, 0, {}, {}, {}, [])
  }

  function After(s: Service, steps: seq<Step>): Service
    decreases |steps|
  {
    if steps == [] then s else After(Next(s, steps[0]), steps[1..])
  }

  // ----- the life of one slot

  /** Which combinations of phase, worker, submitter and driver occur. */
  predicate SlotShape(c: Slot) {
    match c.phase
    case FreeSlot =>
      c.id == 0 && c.work.NoTask? && (c.submitter.NoSubmitter? || c.submitter.Resetting?)
      && (c.driver.NoDriver? || c.driver.Emptied?)
      && !(c.submitter.Resetting? && c.driver.Emptied?)
    case Queued =>
      c.driver.NoDriver?
      && (if c.submitter.NoSubmitter? then c.work.Posted? else c.work.NoTask? && !c.submitter.Resetting?)
    case Running =>
      c.driver.NoDriver? && c.submitter.NoSubmitter?
      && (c.work.Claimed? || c.work.FlagRead? || c.work.ClaimedCancel? || c.work.ResultSet?)
    case Complete => c.driver.NoDriver? && c.submitter.NoSubmitter? && c.work.NoTask?
    case Delivering =>
      c.submitter.NoSubmitter? && c.work.NoTask? && (c.driver.Taken? || c.driver.Called? || c.driver.Counted?)
  }

  /** The slot's share of the `in_use` counter. */
  function Use(c: Slot): nat {
    (if !c.phase.FreeSlot? && !c.submitter.Stored? then 1 else 0)
    + (if c.submitter.Resetting? then 1 else 0)
    + (if c.driver.Emptied? then 1 else 0)
  }

  /** The slot holds request `id`, accepted and not yet called back. */
  function Live(c: Slot, id: nat): nat {
    if c.id == id && !c.phase.FreeSlot? && c.submitter.NoSubmitter? && !c.driver.Called? && !c.driver.Counted?
    then 1 else 0
  }

  /** The slot holds request `id` at all. */
  function Holds(c: Slot, id: nat): nat {
    if c.id == id && !c.phase.FreeSlot? then 1 else 0
  }

  function CalledCount(c: Slot): nat {
    if c.driver.Called? then 1 else 0
  }

  /** A request whose cancellation was granted carries the flag until a worker has read it,
      and the result afterwards. */
  predicate CancelKept(c: Slot) {
    match c.phase
    case FreeSlot => false
    case Queued => c.cancelRequested
    case Running =>
      (match c.work
       case Claimed => c.cancelRequested
       case FlagRead(flag) => flag
       case ClaimedCancel => true
       case _ => c.result.Cancelled?)
    case Complete => c.result.Cancelled?
    case Delivering => c.result.Cancelled?
  }

  // ----- sums over the table

  function UseSum(cs: seq<Slot>): nat {
    if cs == [] then 0 else Use(cs[0]) + UseSum(cs[1..])
  }

  function LiveSum(cs: seq<Slot>, id: nat): nat {
    if cs == [] then 0 else Live(cs[0], id) + LiveSum(cs[1..], id)
  }

  function HoldsSum(cs: seq<Slot>, id: nat): nat {
    if cs == [] then 0 else Holds(cs[0], id) + HoldsSum(cs[1..], id)
  }

  function CalledSum(cs: seq<Slot>): nat {
    if cs == [] then 0 else CalledCount(cs[0]) + CalledSum(cs[1..])
  }

  lemma {:induction false} SumsPut(cs: seq<Slot>, i: nat, c: Slot, id: nat)
    requires i < |cs|
    ensures UseSum(cs[i := c]) + Use(cs[i]) == UseSum(cs) + Use(c)
    ensures LiveSum(cs[i := c], id) + Live(cs[i], id) == LiveSum(cs, id) + Live(c, id)
    ensures HoldsSum(cs[i := c], id) + Holds(cs[i], id) == HoldsSum(cs, id) + Holds(c, id)
    ensures CalledSum(cs[i := c]) + CalledCount(cs[i]) == CalledSum(cs) + CalledCount(c)
  {
    hide Use, Live, Holds, CalledCount;
    if i == 0 {
      assert cs[i := c][1..] == cs[1..];
    } else {
      assert cs[i := c][1..] == cs[1..][i - 1 := c];
      SumsPut(cs[1..], i - 1, c, id);
    }
  }

  lemma {:induction false} SumsHave(cs: seq<Slot>, i: nat, id: nat)
    requires i < |cs|
    ensures UseSum(cs) >= Use(cs[i])
    ensures LiveSum(cs, id) >= Live(cs[i], id)
    ensures HoldsSum(cs, id) >= Holds(cs[i], id)
  {
    if i > 0 {
      SumsHave(cs[1..], i - 1, id);
    }
  }

  lemma {:induction false} LiveImpliesUse(cs: seq<Slot>, id: nat)
    ensures LiveSum(cs, id) <= UseSum(cs)
    ensures LiveSum(cs, id) <= HoldsSum(cs, id)
  {
    if cs != [] {
      LiveImpliesUse(cs[1..], id);
    }
  }

  function CallsOf(callbacks: seq<Completion>, id: nat): nat {
    if callbacks == [] then 0
    else CallsOf(callbacks[..|callbacks| - 1], id) + (if callbacks[|callbacks| - 1].id == id then 1 else 0)
  }

  lemma {:induction false} CallsSnoc(callbacks: seq<Completion>, c: Completion, id: nat)
    ensures CallsOf(callbacks + [c], id) == CallsOf(callbacks, id) + (if c.id == id then 1 else 0)
  {
    assert (callbacks + [c])[..|callbacks|] == callbacks;
  }

  // ----- the invariant

  /** The gate's holder and the slot it works on agree. */
  predicate GateShape(s: Service) {
    && (s.gate.SubmitHolds? ==> s.gate.slot < |s.slots| && s.slots[s.gate.slot].submitter.Stored?)
    && (s.gate.RejectHolds? ==> s.gate.slot < |s.slots| && s.slots[s.gate.slot].submitter.Resetting?)
    && (s.gate.DriverHolds? ==> s.gate.slot < |s.slots| && s.slots[s.gate.slot].driver.Emptied?)
    && (s.gate.CancelHolds? ==>
          && s.gate.slot < |s.slots| && s.gate.id != 0
          && s.slots[s.gate.slot].id == s.gate.id && !s.slots[s.gate.slot].phase.FreeSlot?
          && (s.gate.flagged ==> s.slots[s.gate.slot].cancelRequested))
  }

  predicate Shape(s: Service) {
    && GateShape(s)
    && (forall i :: 0 <= i < |s.slots| ==> SlotShape(s.slots[i]))
    && (forall i :: 0 <= i < |s.slots| && s.slots[i].submitter.Stored? ==> s.gate == SubmitHolds(i))
    && (forall i :: 0 <= i < |s.slots| && s.slots[i].submitter.Resetting? ==> s.gate == RejectHolds(i))
    && (forall i :: 0 <= i < |s.slots| && s.slots[i].driver.Emptied? ==> s.gate == DriverHolds(i))
    && (forall i :: 0 <= i < |s.slots| && !s.slots[i].phase.FreeSlot? ==> 0 < s.slots[i].id <= s.lastId)
  }

  lemma {:induction false} ShapeAt(s: Service, i: nat)
    requires Shape(s) && i < |s.slots|
    ensures SlotShape(s.slots[i]) && GateShape(s)
    ensures s.slots[i].submitter.Stored? ==> s.gate == SubmitHolds(i)
    ensures s.slots[i].submitter.Resetting? ==> s.gate == RejectHolds(i)
    ensures s.slots[i].driver.Emptied? ==> s.gate == DriverHolds(i)
    ensures !s.slots[i].phase.FreeSlot? ==> 0 < s.slots[i].id <= s.lastId
  {
  }

  lemma {:induction false} ShapePut(s: Service, i: nat, c: Slot, t: Service)
    requires Shape(s) && i < |s.slots| && SlotShape(c)
    requires t.slots == s.slots[i := c] && t.lastId >= s.lastId
    requires GateShape(t)
    requires c.submitter.Stored? ==> t.gate == SubmitHolds(i)
    requires c.submitter.Resetting? ==> t.gate == RejectHolds(i)
    requires c.driver.Emptied? ==> t.gate == DriverHolds(i)
    requires !c.phase.FreeSlot? ==> 0 < c.id <= t.lastId
    requires t.gate == s.gate || s.gate.GateFree? || (!s.gate.CancelHolds? && s.gate.slot == i) || s.gate.CancelHolds?
    ensures Shape(t)
  {
    hide SlotShape, GateShape;
    forall j | 0 <= j < |t.slots| && j != i
      ensures t.slots[j] == s.slots[j]
      ensures t.slots[j].submitter.Stored? ==> t.gate == SubmitHolds(j)
      ensures t.slots[j].submitter.Resetting? ==> t.gate == RejectHolds(j)
      ensures t.slots[j].driver.Emptied? ==> t.gate == DriverHolds(j)
    {
    }
  }

  lemma {:induction false} SameShape(s: Service, t: Service)
    requires Shape(s) && t.slots == s.slots && t.gate == s.gate && t.lastId == s.lastId
    ensures Shape(t)
  {
  }

  lemma {:induction false} AdmitKeepsShape(s: Service, step: Step)
    requires Shape(s) && (step.Submit? || step.SubmitCount? || step.PostAccepted?)
    ensures Shape(SubmitStep(s, step))
  {
    hide Shape;
    var t := SubmitStep(s, step);
    if t != s {
      var i := if step.Submit? then FirstFree(s.slots, 0) else step.i;
      ShapeAt(s, i);
      ShapePut(s, i, t.slots[i], t);
    }
  }

  lemma {:induction false} RejectKeepsShape(s: Service, step: Step)
    requires Shape(s) && (step.PostRejected? || step.RejectReset? || step.RejectUncount?)
    ensures Shape(SubmitStep(s, step))
  {
    hide Shape;
    var t := SubmitStep(s, step);
    if t != s {
      ShapeAt(s, step.i);
      ShapePut(s, step.i, t.slots[step.i], t);
    }
  }

  lemma {:induction false} SubmitKeepsShape(s: Service, step: Step)
    requires Shape(s)
    ensures Shape(SubmitStep(s, step))
  {
    hide Shape, FirstFree;
    if step.Submit? || step.SubmitCount? || step.PostAccepted? {
      AdmitKeepsShape(s, step);
    } else if step.PostRejected? || step.RejectReset? || step.RejectUncount? {
      RejectKeepsShape(s, step);
    } else {
      SameShape(s, SubmitStep(s, step));
    }
  }

  lemma {:induction false} WorkSlotFacts(c: Slot, step: Step, id: nat)
    requires SlotShape(c)
    ensures var d := WorkSlot(c, step);
            && SlotShape(d) && d.id == c.id && d.phase.FreeSlot? == c.phase.FreeSlot? && d.cancelRequested == c.cancelRequested
            && d.submitter == c.submitter && d.driver == c.driver
            && Use(d) == Use(c) && CalledCount(d) == CalledCount(c) && Live(d, id) == Live(c, id) && Holds(d, id) == Holds(c, id)
  {
  }

  lemma {:induction false} WorkSlotCancel(c: Slot, step: Step)
    requires SlotShape(c)
    ensures CancelKept(c) ==> CancelKept(WorkSlot(c, step)) && !Executes(c, step)
    ensures var d := WorkSlot(c, step);
            && (d.phase.Queued? ==> c.phase.Queued?)
            && (Executes(c, step) ==> !c.phase.FreeSlot? && d.phase.Running? && d.work.ResultSet?)
            && (!c.phase.Queued? && !(c.phase.Running? && !c.work.ResultSet?) ==>
                  !d.phase.Queued? && !(d.phase.Running? && !d.work.ResultSet?))
  {
  }

  lemma {:induction false} WorkKeepsShape(s: Service, step: Step)
    requires Shape(s)
    ensures Shape(WorkStep(s, step))
  {
    hide Shape, WorkSlot, SlotShape;
    if IsWork(step) && step.i < |s.slots| {
      ShapeAt(s, step.i);
      var t, i := WorkStep(s, step), step.i;
      WorkSlotFacts(s.slots[i], step, 0);
      ShapePut(s, i, t.slots[i], t);
    }
  }

  lemma {:induction false} CancelKeepsShape(s: Service, step: Step)
    requires Shape(s)
    ensures Shape(CancelStep(s, step))
  {
    var t := CancelStep(s, step);
    match step
    case CancelScan(i, id) => if t != s { assert SlotShape(s.slots[i]); }
    case CancelFlag =>
      if t != s {
        var i := s.gate.slot;
        assert SlotShape(s.slots[i]);
        ShapePut(s, i, t.slots[i], t);
      }
    case _ =>
  }

  lemma {:induction false} DriverSlotFacts(s: Service, step: Step, id: nat)
    requires DriverEnabled(s, step) && SlotShape(s.slots[step.i]) && GateShape(s)
    ensures var c := s.slots[step.i];
            var d := DriverSlot(c, step);
            && SlotShape(d)
            && d.submitter.NoSubmitter? && c.submitter.NoSubmitter?
            && (d.driver.Emptied? <==> step.DriverReset?)
            && (!d.phase.FreeSlot? ==> d.id == c.id && !c.phase.FreeSlot?)
            && (step.DriverReset? || step.DriverUncount? ==> d.phase.FreeSlot?)
            && (!step.DriverReset? && !step.DriverUncount? ==>
                  d.phase.FreeSlot? == c.phase.FreeSlot? && d.id == c.id && d.cancelRequested == c.cancelRequested)
            && Use(c) == Use(d) + (if step.DriverUncount? then 1 else 0)
            && CalledCount(d) + (if step.DriverCount? then 1 else 0) == CalledCount(c) + (if step.DriverCall? then 1 else 0)
            && Live(c, id) == Live(d, id) + (if step.DriverCall? && c.id == id then 1 else 0)
            && Holds(d, id) <= Holds(c, id) <= 1
  {
  }

  lemma {:induction false} DriverSlotCancel(s: Service, step: Step, id: nat)
    requires DriverEnabled(s, step) && SlotShape(s.slots[step.i]) && GateShape(s)
    ensures var c := s.slots[step.i];
            var d := DriverSlot(c, step);
            && (Holds(d, id) == 1 && CancelKept(c) ==> CancelKept(d))
            && !d.phase.Queued? && !d.phase.Running?
            && (step.DriverCall? && CancelKept(c) ==> c.result.Cancelled?)
            && (step.DriverCall? && c.id == id ==> Holds(c, id) == 1 && Live(c, id) == 1)
  {
  }

  lemma {:induction false} DriverKeepsShape(s: Service, step: Step)
    requires Shape(s)
    ensures Shape(DriverStep(s, step))
  {
    hide Shape, DriverSlot, SlotShape;
    if DriverEnabled(s, step) {
      ShapeAt(s, step.i);
      var t, i := DriverStep(s, step), step.i;
      DriverSlotFacts(s, step, 0);
      ShapePut(s, i, t.slots[i], t);
    }
  }

  lemma {:induction false} StepKeepsShape(s: Service, step: Step)
    requires Shape(s)
    ensures Shape(Next(s, step))
  {
    hide Shape, SubmitStep, WorkStep, CancelStep, DriverStep;
    SubmitKeepsShape(s, step);
    WorkKeepsShape(s, step);
    CancelKeepsShape(s, step);
    DriverKeepsShape(s, step);
    OuterKeepsShape(s, Next(s, step));
  }

  /** Steps that touch neither slots nor gate: those of the driver's loop and of closing. */
  predicate OuterOnly(s: Service, t: Service) {
    t == s.(scan := t.scan, closeRequested := t.closeRequested, closing := t.closing)
  }

  lemma {:induction false} OuterKeepsShape(s: Service, t: Service)
    requires Shape(s)
    ensures OuterOnly(s, t) ==> Shape(t)
  {
  }

  // ----- counters

  predicate Counters(s: Service) {
    && s.inUse == UseSum(s.slots)
    && s.completed + s.cancelled + CalledSum(s.slots) == |s.callbacks|
  }

  lemma {:induction false} SubmitKeepsCounters(s: Service, step: Step)
    requires Shape(s) && Counters(s)
    ensures Counters(SubmitStep(s, step))
  {
    hide Shape, UseSum, CalledSum;
    var t := SubmitStep(s, step);
    if t != s && !step.CountAccept? {
      var i := if step.Submit? then FirstFree(s.slots, 0) else step.i;
      ShapeAt(s, i);
      SumsPut(s.slots, i, t.slots[i], 0);
    }
  }

  lemma {:induction false} WorkKeepsCounters(s: Service, step: Step)
    requires Shape(s) && Counters(s)
    ensures Counters(WorkStep(s, step))
  {
    hide Shape, UseSum, CalledSum, WorkSlot, SlotShape, Use, CalledCount;
    if IsWork(step) && step.i < |s.slots| {
      ShapeAt(s, step.i);
      WorkSlotFacts(s.slots[step.i], step, 0);
      SumsPut(s.slots, step.i, WorkSlot(s.slots[step.i], step), 0);
    }
  }

  lemma {:induction false} CancelKeepsCounters(s: Service, step: Step)
    requires Shape(s) && Counters(s)
    ensures Counters(CancelStep(s, step))
  {
    hide Shape, UseSum, CalledSum;
    var t := CancelStep(s, step);
    if step.CancelFlag? && t != s {
      var i := s.gate.slot;
      ShapeAt(s, i);
      SumsPut(s.slots, i, t.slots[i], 0);
    }
  }

  lemma {:induction false} DriverKeepsCounters(s: Service, step: Step)
    requires Shape(s) && Counters(s)
    ensures Counters(DriverStep(s, step))
  {
    hide Shape, UseSum, CalledSum, DriverSlot, SlotShape, Use, CalledCount, GateShape, Live, Holds;
    if DriverEnabled(s, step) {
      ShapeAt(s, step.i);
      DriverSlotFacts(s, step, 0);
      SumsPut(s.slots, step.i, DriverSlot(s.slots[step.i], step), 0);
    }
  }

  // ----- every accepted request is called back once

  /** Request `id` is in at most one slot; if it was accepted it is either waiting in that
      slot or was called back, and never both; otherwise it is not called back at all. */
  predicate CalledOnce(s: Service, id: nat) {
    && HoldsSum(s.slots, id) <= 1
    && (id > s.lastId ==> HoldsSum(s.slots, id) == 0 && id !in s.acceptedIds && CallsOf(s.callbacks, id) == 0)
    && CallsOf(s.callbacks, id) + LiveSum(s.slots, id) == (if id in s.acceptedIds then 1 else 0)
    && (forall i :: 0 <= i < |s.slots| && Holds(s.slots[i], id) == 1 && !s.slots[i].submitter.NoSubmitter? ==>
          id !in s.acceptedIds)
  }

  lemma {:induction false} SubmitKeepsOnce(s: Service, step: Step, id: nat)
    requires Shape(s) && CalledOnce(s, id) && id != 0
    ensures CalledOnce(SubmitStep(s, step), id)
  {
    hide Shape, HoldsSum, LiveSum, CallsOf;
    var t := SubmitStep(s, step);
    if t != s && !step.CountAccept? {
      var i := if step.Submit? then FirstFree(s.slots, 0) else step.i;
      ShapeAt(s, i);
      SumsPut(s.slots, i, t.slots[i], id);
      SumsHave(s.slots, i, id);
      forall j | 0 <= j < |t.slots| && Holds(t.slots[j], id) == 1 && !t.slots[j].submitter.NoSubmitter?
        ensures id !in t.acceptedIds
      {
        if j != i {
          assert Holds(s.slots[j], id) == 1;
          TwoHolders(s.slots, i, j, id);
        }
      }
    }
  }

  lemma {:induction false} TwoHolders(cs: seq<Slot>, i: nat, j: nat, id: nat)
    requires i < |cs| && j < |cs| && i != j
    ensures Holds(cs[i], id) + Holds(cs[j], id) <= HoldsSum(cs, id)
  {
    SumsPut(cs, i, EMPTY_SLOT, id);
    SumsHave(cs[i := EMPTY_SLOT], j, id);
  }

  lemma {:induction false} WorkKeepsOnce(s: Service, step: Step, id: nat)
    requires Shape(s) && CalledOnce(s, id) && id != 0
    ensures CalledOnce(WorkStep(s, step), id)
  {
    hide Shape, HoldsSum, LiveSum, CallsOf, WorkSlot, SlotShape, Live, Holds;
    if IsWork(step) && step.i < |s.slots| {
      ShapeAt(s, step.i);
      WorkSlotFacts(s.slots[step.i], step, id);
      SumsPut(s.slots, step.i, WorkSlot(s.slots[step.i], step), id);
    }
  }

  lemma {:induction false} CancelKeepsOnce(s: Service, step: Step, id: nat)
    requires Shape(s) && CalledOnce(s, id) && id != 0
    ensures CalledOnce(CancelStep(s, step), id)
  {
    hide Shape, HoldsSum, LiveSum, CallsOf;
    var t := CancelStep(s, step);
    if step.CancelFlag? && t != s {
      var i := s.gate.slot;
      ShapeAt(s, i);
      SumsPut(s.slots, i, t.slots[i], id);
    }
  }

  lemma {:induction false} DriverKeepsOnce(s: Service, step: Step, id: nat)
    requires Shape(s) && CalledOnce(s, id) && id != 0
    ensures CalledOnce(DriverStep(s, step), id)
  {
    hide Shape, HoldsSum, LiveSum, CallsOf, DriverSlot, SlotShape, Live, Holds, GateShape, Use, CalledCount;
    if DriverEnabled(s, step) {
      ShapeAt(s, step.i);
      var c := s.slots[step.i];
      DriverSlotFacts(s, step, id);
      SumsPut(s.slots, step.i, DriverSlot(c, step), id);
      CallsSnoc(s.callbacks, Completion(c.id, c.operation, c.result), id);
    }
  }

  // ----- a granted cancellation is honoured

  /** Once cancellation of `id` was granted, its slot keeps the fact until the callback, which
      carries it, and the request is never executed. */
  predicate CancelHonoured(s: Service, id: nat) {
    && (id in s.requested ==> id !in s.executed && id <= s.lastId)
    && (id in s.executed ==> id <= s.lastId)
    && (id in s.requested ==>
          forall i :: 0 <= i < |s.slots| && Holds(s.slots[i], id) == 1 ==> CancelKept(s.slots[i]))
    && (id in s.executed ==>
          forall i :: 0 <= i < |s.slots| && Holds(s.slots[i], id) == 1 ==>
            !s.slots[i].phase.Queued? && !(s.slots[i].phase.Running? && !s.slots[i].work.ResultSet?))
    && (id in s.requested ==>
          forall k :: 0 <= k < |s.callbacks| && s.callbacks[k].id == id ==> s.callbacks[k].result.Cancelled?)
    && (id in s.requested ==> forall k :: 0 <= k < |s.callbacks| && s.callbacks[k].id == id ==> id in s.acceptedIds)
  }

  lemma {:induction false} SubmitKeepsCancel(s: Service, step: Step, id: nat)
    requires Shape(s) && CancelHonoured(s, id) && id != 0
    ensures CancelHonoured(SubmitStep(s, step), id)
  {
    var t := SubmitStep(s, step);
    if t != s && !step.CountAccept? {
      var i := if step.Submit? then FirstFree(s.slots, 0) else step.i;
      assert SlotShape(s.slots[i]);
    }
  }

  lemma {:induction false} WorkKeepsCancel(s: Service, step: Step, id: nat)
    requires Shape(s) && CancelHonoured(s, id) && CalledOnce(s, id) && id != 0
    ensures CancelHonoured(WorkStep(s, step), id)
  {
    hide Shape, HoldsSum, LiveSum, CallsOf, WorkSlot, SlotShape, CancelKept;
    var t := WorkStep(s, step);
    if IsWork(step) && step.i < |s.slots| {
      ShapeAt(s, step.i);
      var i := step.i;
      WorkSlotFacts(s.slots[i], step, id);
      WorkSlotCancel(s.slots[i], step);
      forall j | 0 <= j < |t.slots| && j != i && Holds(t.slots[j], id) == 1
        ensures Holds(s.slots[i], id) == 0
      {
        TwoHolders(s.slots, i, j, id);
      }
    }
  }

  lemma {:induction false} CancelKeepsCancel(s: Service, step: Step, id: nat)
    requires Shape(s) && CancelHonoured(s, id) && CalledOnce(s, id) && id != 0
    requires forall k :: 0 <= k < |s.callbacks| && s.callbacks[k].id == id ==> CallsOf(s.callbacks, id) >= 1
    ensures CancelHonoured(CancelStep(s, step), id)
  {
    hide Shape, HoldsSum, LiveSum, CallsOf;
    var t := CancelStep(s, step);
    if step.CancelDecide? && t != s && s.gate.id == id && s.slots[s.gate.slot].phase.Queued? {
      var i := s.gate.slot;
      ShapeAt(s, i);
      forall j | 0 <= j < |t.slots| && Holds(t.slots[j], id) == 1 ensures j == i {
        if j != i {
          TwoHolders(s.slots, i, j, id);
        }
      }
      QueuedNotCalled(s, i, id);
    }
  }

  lemma {:induction false} QueuedNotCalled(s: Service, i: nat, id: nat)
    requires CalledOnce(s, id) && i < |s.slots| && s.slots[i].id == id && s.slots[i].phase.Queued?
    requires SlotShape(s.slots[i])
    ensures CallsOf(s.callbacks, id) == 0
  {
    hide HoldsSum, LiveSum, CallsOf;
    SumsHave(s.slots, i, id);
    assert Holds(s.slots[i], id) == 1;
  }

  lemma {:induction false} DriverKeepsCancel(s: Service, step: Step, id: nat)
    requires Shape(s) && CancelHonoured(s, id) && CalledOnce(s, id) && id != 0
    ensures CancelHonoured(DriverStep(s, step), id)
  {
    hide Shape, HoldsSum, LiveSum, CallsOf, DriverSlot, SlotShape, CancelKept, Live, Holds;
    if DriverEnabled(s, step) {
      ShapeAt(s, step.i);
      var c, t := s.slots[step.i], DriverStep(s, step);
      DriverSlotFacts(s, step, id);
      DriverSlotCancel(s, step, id);
      if step.DriverCall? && c.id == id {
        SumsHave(s.slots, step.i, id);
      }
    }
  }

  lemma {:induction false} CalledIsCounted(callbacks: seq<Completion>, k: nat)
    requires k < |callbacks|
    ensures CallsOf(callbacks, callbacks[k].id) >= 1
    decreases |callbacks|
  {
    if k < |callbacks| - 1 {
      CalledIsCounted(callbacks[..|callbacks| - 1], k);
    }
  }

  // ----- the accepted counter and the driver flag

  /** The slot holds an accepted request that was not called back yet. */
  function Pending(c: Slot): nat {
    if !c.phase.FreeSlot? && c.submitter.NoSubmitter? && !c.driver.Called? && !c.driver.Counted? then 1 else 0
  }

  function PendingSum(cs: seq<Slot>): nat {
    if cs == [] then 0 else Pending(cs[0]) + PendingSum(cs[1..])
  }

  lemma {:induction false} LedgerPut(cs: seq<Slot>, i: nat, c: Slot)
    requires i < |cs|
    ensures PendingSum(cs[i := c]) + Pending(cs[i]) == PendingSum(cs) + Pending(c)
  {
    hide Pending;
    if i == 0 {
      assert cs[i := c][1..] == cs[1..];
    } else {
      assert cs[i := c][1..] == cs[1..][i - 1 := c];
      LedgerPut(cs[1..], i - 1, c);
    }
  }

  lemma {:induction false} PendingImpliesUse(cs: seq<Slot>)
    ensures PendingSum(cs) <= UseSum(cs)
  {
    if cs != [] {
      PendingImpliesUse(cs[1..]);
    }
  }

  /** Acceptances, counted or about to be, are callbacks plus requests still waiting for
      theirs. */
  predicate Ledger(s: Service) {
    s.accepted + s.uncountedAccepts == |s.callbacks| + PendingSum(s.slots)
  }

  lemma {:induction false} SubmitKeepsLedger(s: Service, step: Step)
    requires Shape(s) && Ledger(s)
    ensures Ledger(SubmitStep(s, step))
  {
    hide Shape, PendingSum;
    var t := SubmitStep(s, step);
    if t != s && !step.CountAccept? {
      var i := if step.Submit? then FirstFree(s.slots, 0) else step.i;
      ShapeAt(s, i);
      LedgerPut(s.slots, i, t.slots[i]);
    }
  }

  lemma {:induction false} WorkKeepsLedger(s: Service, step: Step)
    requires Shape(s) && Ledger(s)
    ensures Ledger(WorkStep(s, step))
  {
    hide Shape, PendingSum, WorkSlot, SlotShape;
    if IsWork(step) && step.i < |s.slots| {
      ShapeAt(s, step.i);
      WorkSlotFacts(s.slots[step.i], step, 0);
      LedgerPut(s.slots, step.i, WorkSlot(s.slots[step.i], step));
    }
  }

  lemma {:induction false} CancelKeepsLedger(s: Service, step: Step)
    requires Shape(s) && Ledger(s)
    ensures Ledger(CancelStep(s, step))
  {
    hide Shape, PendingSum;
    var t := CancelStep(s, step);
    if step.CancelFlag? && t != s {
      LedgerPut(s.slots, s.gate.slot, t.slots[s.gate.slot]);
    }
  }

  lemma {:induction false} DriverSlotLedger(s: Service, step: Step)
    requires DriverEnabled(s, step) && SlotShape(s.slots[step.i]) && GateShape(s)
    ensures var c := s.slots[step.i];
            var d := DriverSlot(c, step);
            && Pending(c) == Pending(d) + (if step.DriverCall? then 1 else 0)
            && (d.driver.NoDriver? <==> step.DriverUncount?)
  {
  }

  lemma {:induction false} DriverKeepsLedger(s: Service, step: Step)
    requires Shape(s) && Ledger(s)
    ensures Ledger(DriverStep(s, step))
  {
    hide Shape, PendingSum, DriverSlot, SlotShape, GateShape, Pending;
    if DriverEnabled(s, step) {
      ShapeAt(s, step.i);
      DriverSlotLedger(s, step);
      LedgerPut(s.slots, step.i, DriverSlot(s.slots[step.i], step));
    }
  }

  // ----- one driver at one slot

  /** At most one slot is in the driver's hands, and one only while its flag is up: the one its
      loop is at, within the number it may deliver. */
  predicate OneDriven(s: Service) {
    && (s.scan.Scanning? ==> s.scan.index <= |s.slots|)
    && forall i :: 0 <= i < |s.slots| && !s.slots[i].driver.NoDriver? ==>
         s.scan.Scanning? && i == s.scan.index && s.scan.delivered < s.scan.max
  }

  lemma {:induction false} SubmitKeepsDriven(s: Service, step: Step)
    requires Shape(s) && OneDriven(s)
    ensures OneDriven(SubmitStep(s, step))
  {
    hide SlotShape, GateShape;
    var t := SubmitStep(s, step);
    if t != s && !step.CountAccept? {
      var i := if step.Submit? then FirstFree(s.slots, 0) else step.i;
      assert forall j :: 0 <= j < |s.slots| && j != i ==> t.slots[j] == s.slots[j];
      assert t.slots[i].driver == s.slots[i].driver || t.slots[i].driver.NoDriver?;
    }
  }

  lemma {:induction false} OthersKeepDriven(s: Service, step: Step)
    requires Shape(s) && OneDriven(s)
    ensures OneDriven(WorkStep(s, step)) && OneDriven(CancelStep(s, step))
  {
    hide Shape, SlotShape, GateShape, WorkSlot;
    if IsWork(step) && step.i < |s.slots| {
      ShapeAt(s, step.i);
      WorkSlotFacts(s.slots[step.i], step, 0);
    }
  }

  lemma {:induction false} DriverKeepsDriven(s: Service, step: Step)
    requires Shape(s) && OneDriven(s)
    ensures OneDriven(DriverStep(s, step)) && OneDriven(ScanStep(s, step))
  {
    hide Shape, SlotShape, GateShape, DriverSlot, Pending;
    if DriverEnabled(s, step) {
      ShapeAt(s, step.i);
      DriverSlotLedger(s, step);
      DriverHasBudget(s, step);
    }
  }

  lemma {:induction false} DriverHasBudget(s: Service, step: Step)
    requires DriverEnabled(s, step) && OneDriven(s) && GateShape(s)
    ensures s.scan.delivered < s.scan.max
  {
  }

  /** Acceptances are counted per request: no two slots hold one request, and a request whose
      task was not posted yet is not among the accepted ones. */
  predicate Register(s: Service) {
    && s.accepted + s.uncountedAccepts == |s.acceptedIds|
    && (forall a :: a in s.acceptedIds ==> a <= s.lastId)
    && (forall i, j :: 0 <= i < j < |s.slots| && !s.slots[i].phase.FreeSlot? && !s.slots[j].phase.FreeSlot? ==>
          s.slots[i].id != s.slots[j].id)
    && (forall i :: 0 <= i < |s.slots| && !s.slots[i].phase.FreeSlot? && !s.slots[i].submitter.NoSubmitter? ==>
          s.slots[i].id !in s.acceptedIds)
  }

  lemma {:induction false} SubmitKeepsRegister(s: Service, step: Step)
    requires Shape(s) && Register(s)
    ensures Register(SubmitStep(s, step))
  {
    hide SlotShape, GateShape;
    var t := SubmitStep(s, step);
    if t != s && !step.CountAccept? {
      var i := if step.Submit? then FirstFree(s.slots, 0) else step.i;
      ShapeAt(s, i);
      SlotShapeFacts(s.slots[i]);
    }
  }

  lemma {:induction false} SlotShapeFacts(c: Slot)
    requires SlotShape(c)
    ensures c.submitter.Unposted? || c.submitter.Rejected? || c.submitter.Stored? ==> !c.phase.FreeSlot?
    ensures c.submitter.Resetting? ==> c.phase.FreeSlot?
  {
  }

  /** A step that changes one slot but neither its request nor whether it is taken. */
  lemma {:induction false} SameRegister(s: Service, t: Service, i: nat)
    requires Register(s) && i < |s.slots| == |t.slots|
    requires forall j :: 0 <= j < |s.slots| && j != i ==> t.slots[j] == s.slots[j]
    requires t.slots[i].phase.FreeSlot? || (!s.slots[i].phase.FreeSlot? && t.slots[i].id == s.slots[i].id && t.slots[i].submitter == s.slots[i].submitter)
    requires t.acceptedIds == s.acceptedIds && t.lastId == s.lastId
    requires t.accepted == s.accepted && t.uncountedAccepts == s.uncountedAccepts
    ensures Register(t)
  {
  }

  lemma {:induction false} WorkKeepsRegister(s: Service, step: Step)
    requires Shape(s) && Register(s)
    ensures Register(WorkStep(s, step))
  {
    hide Shape, Register, WorkSlot, SlotShape, GateShape;
    if IsWork(step) && step.i < |s.slots| && WorkSlot(s.slots[step.i], step) != s.slots[step.i] {
      ShapeAt(s, step.i);
      WorkSlotFacts(s.slots[step.i], step, 0);
      SameRegister(s, WorkStep(s, step), step.i);
    } else {
      SameTable(s, WorkStep(s, step));
    }
  }

  lemma {:induction false} CancelKeepsRegister(s: Service, step: Step)
    requires Shape(s) && Register(s)
    ensures Register(CancelStep(s, step))
  {
    hide Shape, Register, SlotShape, GateShape;
    var t := CancelStep(s, step);
    if step.CancelFlag? && t != s {
      ShapeAt(s, s.gate.slot);
      CancelGate(s);
      SameRegister(s, t, s.gate.slot);
    } else {
      SameTable(s, t);
    }
  }

  lemma {:induction false} DriverKeepsRegister(s: Service, step: Step)
    requires Shape(s) && Register(s)
    ensures Register(DriverStep(s, step))
  {
    hide Shape, Register, DriverSlot, SlotShape, GateShape, Live, Holds, Use, CalledCount;
    if DriverEnabled(s, step) {
      ShapeAt(s, step.i);
      DriverSlotFacts(s, step, 0);
      SameRegister(s, DriverStep(s, step), step.i);
    }
  }

  lemma {:induction false} CancelGate(s: Service)
    requires GateShape(s) && s.gate.CancelHolds?
    ensures s.gate.slot < |s.slots| && !s.slots[s.gate.slot].phase.FreeSlot?
  {
  }

  lemma {:induction false} SameTable(s: Service, t: Service)
    requires Register(s) && t.slots == s.slots && t.acceptedIds == s.acceptedIds && t.lastId == s.lastId
    requires t.accepted == s.accepted && t.uncountedAccepts == s.uncountedAccepts
    ensures Register(t)
  {
  }

  // ----- runs

  predicate Inv(s: Service, id: nat) {
    Shape(s) && Counters(s) && Ledger(s) && OneDriven(s) && Register(s) && CalledOnce(s, id) && CancelHonoured(s, id)
  }

  lemma {:induction false} OuterKeepsCounts(s: Service, t: Service)
    requires OuterOnly(s, t)
    ensures Counters(s) ==> Counters(t)
    ensures Ledger(s) ==> Ledger(t)
    ensures Register(s) ==> Register(t)
  {
    hide UseSum, CalledSum, PendingSum;
  }

  lemma {:induction false} OuterKeepsRequest(s: Service, t: Service, id: nat)
    requires OuterOnly(s, t)
    ensures CalledOnce(s, id) ==> CalledOnce(t, id)
    ensures CancelHonoured(s, id) ==> CancelHonoured(t, id)
  {
    hide HoldsSum, LiveSum, CallsOf, CancelKept;
  }

  lemma {:induction false} OuterKeeps(s: Service, t: Service, id: nat)
    requires Inv(s, id) && OuterOnly(s, t) && OneDriven(t)
    ensures Inv(t, id)
  {
    hide Shape, Counters, Ledger, Register, OneDriven, CalledOnce, CancelHonoured;
    OuterKeepsShape(s, t);
    OuterKeepsCounts(s, t);
    OuterKeepsRequest(s, t, id);
  }

  lemma {:induction false} StepKeeps(s: Service, step: Step, id: nat)
    requires Inv(s, id) && id != 0
    ensures Inv(Next(s, step), id)
  {
    hide Shape, Counters, Ledger, OneDriven, Register, CalledOnce, CancelHonoured, SubmitStep, WorkStep, CancelStep, DriverStep, ScanStep, CallsOf;
    StepKeepsShape(s, step);
    SubmitKeepsLedger(s, step);
    WorkKeepsLedger(s, step);
    CancelKeepsLedger(s, step);
    DriverKeepsLedger(s, step);
    SubmitKeepsRegister(s, step);
    WorkKeepsRegister(s, step);
    CancelKeepsRegister(s, step);
    DriverKeepsRegister(s, step);
    forall k | 0 <= k < |s.callbacks| && s.callbacks[k].id == id ensures CallsOf(s.callbacks, id) >= 1 {
      CalledIsCounted(s.callbacks, k);
    }
    SubmitKeepsCounters(s, step);
    WorkKeepsCounters(s, step);
    CancelKeepsCounters(s, step);
    DriverKeepsCounters(s, step);
    SubmitKeepsOnce(s, step, id);
    WorkKeepsOnce(s, step, id);
    CancelKeepsOnce(s, step, id);
    DriverKeepsOnce(s, step, id);
    SubmitKeepsCancel(s, step, id);
    WorkKeepsCancel(s, step, id);
    CancelKeepsCancel(s, step, id);
    DriverKeepsCancel(s, step, id);
    SubmitKeepsDriven(s, step);
    OthersKeepDriven(s, step);
    DriverKeepsDriven(s, step);
    if IsScan(step) || step.CloseService? || step.CloseSettles? {
      OuterSteps(s, step);
      OuterKeeps(s, Next(s, step), id);
    }
  }

  lemma {:induction false} OuterSteps(s: Service, step: Step)
    requires OneDriven(s) && (IsScan(step) || step.CloseService? || step.CloseSettles?)
    ensures OuterOnly(s, Next(s, step)) && OneDriven(Next(s, step))
  {
  }

  lemma {:induction false} RunKeeps(s: Service, steps: seq<Step>, id: nat)
    requires Inv(s, id) && id != 0
    ensures Inv(After(s, steps), id)
    decreases |steps|
  {
    hide Inv, Next;
    if steps != [] {
      StepKeeps(s, steps[0], id);
      RunKeeps(Next(s, steps[0]), steps[1..], id);
    }
  }

  lemma {:induction false} EmptySums(n: nat, id: nat)
    requires id != 0
    ensures var cs := seq(n, i => EMPTY_SLOT);
            && UseSum(cs) == 0 && LiveSum(cs, id) == 0 && HoldsSum(cs, id) == 0 && CalledSum(cs) == 0
            && PendingSum(cs) == 0
  {
    if n > 0 {
      EmptySums(n - 1, id);
      assert seq(n, i => EMPTY_SLOT)[1..] == seq(n - 1, i => EMPTY_SLOT);
    }
  }

  lemma {:induction false} EveryRun(capacity: nat, steps: seq<Step>, id: nat)
    requires id != 0
    ensures Inv(After(Initial(capacity), steps), id)
  {
    hide Inv;
    InitialInv(capacity, id);
    RunKeeps(Initial(capacity), steps, id);
  }

  lemma {:induction false} InitialInv(capacity: nat, id: nat)
    requires id != 0
    ensures Inv(Initial(capacity), id)
  {
    hide UseSum, LiveSum, HoldsSum, CalledSum, PendingSum;
    EmptySums(capacity, id);
  }

  /** Main result: in every interleaving no request is called back twice, only accepted ones
      are called back, and an accepted one that was not called back yet still sits in a slot. */
  lemma {:induction false} AtMostOneCallback(capacity: nat, steps: seq<Step>, id: nat)
    requires id != 0
    ensures var s := After(Initial(capacity), steps);
            && CallsOf(s.callbacks, id) <= 1
            && (CallsOf(s.callbacks, id) == 1 ==> id in s.acceptedIds)
            && (id in s.acceptedIds && CallsOf(s.callbacks, id) == 0 ==> LiveSum(s.slots, id) == 1)
  {
    EveryRun(capacity, steps, id);
  }

  /** What quiescence promises: with nothing in use, every accepted request was called back
      exactly once, and the statistics account for all of them. */
  lemma {:induction false} QuiescentMeansAllCalled(capacity: nat, steps: seq<Step>, id: nat)
    requires id != 0 && After(Initial(capacity), steps).inUse == 0
    ensures var s := After(Initial(capacity), steps);
            && (id in s.acceptedIds ==> CallsOf(s.callbacks, id) == 1)
            && s.completed + s.cancelled == |s.callbacks|
            && s.accepted + s.uncountedAccepts == |s.acceptedIds| == s.completed + s.cancelled
  {
    var s := After(Initial(capacity), steps);
    EveryRun(capacity, steps, id);
    LiveImpliesUse(s.slots, id);
    PendingImpliesUse(s.slots);
    CalledImpliesUse(s.slots);
  }

  lemma {:induction false} CalledImpliesUse(cs: seq<Slot>)
    requires forall i :: 0 <= i < |cs| ==> SlotShape(cs[i])
    ensures CalledSum(cs) <= UseSum(cs)
  {
    if cs != [] {
      assert SlotShape(cs[0]);
      CalledImpliesUse(cs[1..]);
    }
  }

  /** Main result: once cancellation of a request was granted, it is never executed, and its
      callback, if it gets one, reports the cancellation. */
  lemma {:induction false} GrantedMeansCancelled(capacity: nat, steps: seq<Step>, id: nat, k: nat)
    requires id != 0 && id in After(Initial(capacity), steps).requested
    ensures var s := After(Initial(capacity), steps);
            && id !in s.executed
            && (k < |s.callbacks| && s.callbacks[k].id == id ==> s.callbacks[k].result.Cancelled?)
  {
    EveryRun(capacity, steps, id);
  }
}
