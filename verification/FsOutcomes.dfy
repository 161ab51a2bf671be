/** What the callbacks of the filesystem service tell: the operation that was submitted, and the
outcome of performing it or a cancellation with a reason. The history is kept beside the
service, from the steps alone. */
module FsOutcomes {
  import opened FsService

  /** What was submitted under each id, what performing it gave, whose cancel flag a canceller
      raised, and whose queued task the executor cancelled. */
  datatype History = History(
    submitted: map<nat, nat>,
    outcomes: map<nat, Outcome>,
    flagged: set<nat>,
    withdrawn: set<nat>)

  const NO_HISTORY := History(map[], map[], {}, {})

  function Note(h: History, s: Service, step: Step): History {
    match step
    case Submit(operation) =>
      if Next(s, step).lastId > s.lastId then h.(submitted := h.submitted[Next(s, step).lastId := operation]) else h
    case RunExecute(i, outcome) =>
      if i < |s.slots| && Executes(s.slots[i], step) then h.(outcomes := h.outcomes[s.slots[i].id := outcome]) else h
    case CancelFlag =>
      if s.gate.CancelHolds? && !s.gate.flagged then h.(flagged := h.flagged + {s.gate.id}) else h
    case CancelClaim(i) =>
      if i < |s.slots| && s.slots[i].work.Posted? && s.slots[i].phase.Queued?
      then h.(withdrawn := h.withdrawn + {s.slots[i].id})
      else h
    case _ => h
  }

  function Chronicle(s: Service, h: History, steps: seq<Step>): History
    decreases |steps|
  {
    if steps == [] then h else Chronicle(Next(s, steps[0]), Note(h, s, steps[0]), steps[1..])
  }

  /** A truthful report on request `id`: its own operation, and the outcome if the operation was
      performed, otherwise a cancellation that a canceller or the executor caused. */
  predicate Reported(h: History, id: nat, operation: nat, result: Outcome) {
    && id in h.submitted && h.submitted[id] == operation
    && if id in h.outcomes then result == h.outcomes[id]
       else result.Cancelled? && (id in h.flagged || id in h.withdrawn)
  }

  /** The worker has stored the result. */
  predicate Settled(c: Slot) {
    c.phase.Complete? || c.phase.Delivering? || (c.phase.Running? && c.work.ResultSet?)
  }

  /** What a slot in use says about its request. */
  predicate SlotTold(c: Slot, h: History) {
    && c.id in h.submitted && h.submitted[c.id] == c.operation
    && (c.cancelRequested ==> c.id in h.flagged)
    && (c.work == FlagRead(true) ==> c.id in h.flagged)
    && (c.work.ClaimedCancel? ==> c.id in h.withdrawn)
    && (if Settled(c) then Reported(h, c.id, c.operation, c.result) else c.id !in h.outcomes)
  }

  predicate Told(s: Service, h: History, id: nat) {
    && (id in h.submitted ==> id <= s.lastId)
    && (id in h.outcomes ==> id in h.submitted)
    && (id in s.executed <==> id in h.outcomes)
    && (forall i :: 0 <= i < |s.slots| && Holds(s.slots[i], id) == 1 ==> SlotTold(s.slots[i], h))
    && (forall k :: 0 <= k < |s.callbacks| && s.callbacks[k].id == id ==>
          Reported(h, id, s.callbacks[k].operation, s.callbacks[k].result))
  }

  /** Histories that agree on `id`. */
  predicate Agree(g: History, h: History, id: nat) {
    && (id in g.submitted <==> id in h.submitted) && (id in g.submitted ==> g.submitted[id] == h.submitted[id])
    && (id in g.outcomes <==> id in h.outcomes) && (id in g.outcomes ==> g.outcomes[id] == h.outcomes[id])
    && (id in g.flagged ==> id in h.flagged) && (id in g.withdrawn ==> id in h.withdrawn)
  }

  lemma {:induction false} AgreeTold(c: Slot, g: History, h: History)
    requires SlotTold(c, g) && Agree(g, h, c.id)
    ensures SlotTold(c, h)
  {
  }

  /** A step that changes one slot, adds at most one callback and nothing else about `id`. */
  lemma {:induction false} ToldPut(s: Service, g: History, t: Service, h: History, i: nat, id: nat)
    requires Told(s, g, id) && Agree(g, h, id) && i < |s.slots| == |t.slots|
    requires forall j :: 0 <= j < |s.slots| && j != i ==> t.slots[j] == s.slots[j]
    requires Holds(t.slots[i], id) == 1 ==> SlotTold(t.slots[i], h)
    requires t.executed == s.executed && t.lastId >= s.lastId
    requires s.callbacks <= t.callbacks
    requires forall k :: |s.callbacks| <= k < |t.callbacks| && t.callbacks[k].id == id ==>
               Reported(h, id, t.callbacks[k].operation, t.callbacks[k].result)
    ensures Told(t, h, id)
  {
    hide SlotTold, Reported;
    forall j | 0 <= j < |t.slots| && Holds(t.slots[j], id) == 1 ensures SlotTold(t.slots[j], h) {
      if j != i {
        AgreeTold(s.slots[j], g, h);
      }
    }
    forall k | 0 <= k < |t.callbacks| && t.callbacks[k].id == id
      ensures Reported(h, id, t.callbacks[k].operation, t.callbacks[k].result)
    {
      if k < |s.callbacks| {
        AgreeReported(g, h, id, s.callbacks[k].operation, s.callbacks[k].result);
      }
    }
  }

  lemma {:induction false} AgreeReported(g: History, h: History, id: nat, operation: nat, result: Outcome)
    requires Reported(g, id, operation, result) && Agree(g, h, id)
    ensures Reported(h, id, operation, result)
  {
  }

  lemma {:induction false} NotCalled(s: Service, i: nat, id: nat)
    requires CalledOnce(s, id) && i < |s.slots| && Holds(s.slots[i], id) == 1
    requires !s.slots[i].submitter.NoSubmitter? || Live(s.slots[i], id) == 1
    ensures forall k :: 0 <= k < |s.callbacks| ==> s.callbacks[k].id != id
    ensures forall j :: 0 <= j < |s.slots| && j != i ==> Holds(s.slots[j], id) == 0
  {
    hide HoldsSum, LiveSum, CallsOf;
    SumsHave(s.slots, i, id);
    forall k | 0 <= k < |s.callbacks| ensures s.callbacks[k].id != id {
      if s.callbacks[k].id == id {
        CalledIsCounted(s.callbacks, k);
      }
    }
    forall j | 0 <= j < |s.slots| && j != i ensures Holds(s.slots[j], id) == 0 {
      TwoHolders(s.slots, i, j, id);
    }
  }

  /** A request that no slot holds and no callback names yet. */
  lemma {:induction false} NewId(s: Service, id: nat)
    requires CalledOnce(s, id) && id > s.lastId
    ensures forall k :: 0 <= k < |s.callbacks| ==> s.callbacks[k].id != id
    ensures forall j :: 0 <= j < |s.slots| ==> Holds(s.slots[j], id) == 0
  {
    hide HoldsSum, LiveSum, CallsOf;
    forall k | 0 <= k < |s.callbacks| ensures s.callbacks[k].id != id {
      if s.callbacks[k].id == id {
        CalledIsCounted(s.callbacks, k);
      }
    }
    forall j | 0 <= j < |s.slots| ensures Holds(s.slots[j], id) == 0 {
      SumsHave(s.slots, j, id);
    }
  }

  lemma {:induction false} SubmitTells(s: Service, h: History, step: Step, id: nat)
    requires Shape(s) && CalledOnce(s, id) && Told(s, h, id) && step.Submit?
    ensures Told(SubmitStep(s, step), Note(h, s, step), id)
  {
    hide Shape, CalledOnce, SlotShape, GateShape;
    var t, g := SubmitStep(s, step), Note(h, s, step);
    if t != s {
      var i := FirstFree(s.slots, 0);
      if id == s.lastId + 1 {
        NewId(s, id);
      }
      if Holds(t.slots[i], id) == 1 {
        assert id == s.lastId + 1;
        assert SlotTold(t.slots[i], g);
      }
    }
  }

  lemma {:induction false} AdmissionTells(s: Service, h: History, step: Step, id: nat)
    requires Shape(s) && Told(s, h, id) && !step.Submit? && id != 0
    ensures Told(SubmitStep(s, step), h, id)
  {
    hide Shape, SlotShape, GateShape, Told;
    var t := SubmitStep(s, step);
    if t != s && !step.CountAccept? {
      ShapeAt(s, step.i);
      AdmissionSlot(s, h, step, id);
      ToldPut(s, h, t, h, step.i, id);
    } else {
      ToldSame(s, h, t, id);
    }
  }

  lemma {:induction false} AdmissionSlot(s: Service, h: History, step: Step, id: nat)
    requires Told(s, h, id) && !step.Submit? && !step.CountAccept? && SubmitStep(s, step) != s && id != 0
    requires SlotShape(s.slots[step.i])
    ensures Holds(SubmitStep(s, step).slots[step.i], id) == 1 ==> SlotTold(SubmitStep(s, step).slots[step.i], h)
  {
    hide FirstFree;
  }

  lemma {:induction false} ToldSame(s: Service, h: History, t: Service, id: nat)
    requires Told(s, h, id) && t.slots == s.slots && t.callbacks == s.callbacks
    requires t.executed == s.executed && t.lastId == s.lastId
    ensures Told(t, h, id)
  {
  }

  /** What a worker's step leaves in its slot agrees with what the step adds to the history. */
  lemma {:induction false} WorkSlotTells(s: Service, h: History, step: Step)
    requires IsWork(step) && step.i < |s.slots|
    requires var c := s.slots[step.i]; SlotShape(c) && !c.phase.FreeSlot? && SlotTold(c, h)
    ensures SlotTold(WorkSlot(s.slots[step.i], step), Note(h, s, step))
  {
  }

  lemma {:induction false} NoteElsewhere(s: Service, h: History, step: Step, id: nat)
    requires !step.Submit?
    requires step.RunExecute? && step.i < |s.slots| ==> s.slots[step.i].id != id || !Executes(s.slots[step.i], step)
    ensures Agree(h, Note(h, s, step), id)
  {
  }

  lemma {:induction false} WorkTells(s: Service, h: History, step: Step, id: nat)
    requires Shape(s) && CalledOnce(s, id) && Told(s, h, id) && IsWork(step)
    ensures Told(WorkStep(s, step), Note(h, s, step), id)
  {
    hide Shape, CalledOnce, SlotShape, GateShape, WorkSlot, Note, SlotTold, Reported, Live;
    var t, g := WorkStep(s, step), Note(h, s, step);
    if step.i < |s.slots| {
      var i, c := step.i, s.slots[step.i];
      ShapeAt(s, i);
      WorkSlotFacts(c, step, id);
      if Holds(c, id) == 1 {
        WorkSlotTells(s, h, step);
      }
      if Executes(c, step) {
        ExecutesLive(c, step);
        NoteExecute(s, h, step);
        if c.id == id {
          NotCalled(s, i, id);
          ExecutedTold(s, h, t, g, i, id);
        } else {
          NoteElsewhere(s, h, step, id);
          ToldPut(s, h, t.(executed := s.executed), g, i, id);
        }
      } else {
        NoteElsewhere(s, h, step, id);
        ToldPut(s, h, t, g, i, id);
      }
    } else {
      NoteOutside(s, h, step);
    }
  }

  lemma {:induction false} ExecutedTold(s: Service, h: History, t: Service, g: History, i: nat, id: nat)
    requires Told(s, h, id) && i < |s.slots| == |t.slots| && s.slots[i].id == id && Holds(s.slots[i], id) == 1
    requires forall k :: 0 <= k < |s.callbacks| ==> s.callbacks[k].id != id
    requires forall j :: 0 <= j < |s.slots| && j != i ==> Holds(s.slots[j], id) == 0 && t.slots[j] == s.slots[j]
    requires SlotTold(t.slots[i], g) && t.callbacks == s.callbacks && t.lastId == s.lastId
    requires t.executed == s.executed + {id} && g.submitted == h.submitted && id in g.outcomes
    ensures Told(t, g, id)
  {
  }

  lemma {:induction false} ExecutesLive(c: Slot, step: Step)
    requires SlotShape(c) && Executes(c, step)
    ensures Holds(c, c.id) == 1 && Live(c, c.id) == 1
  {
  }

  lemma {:induction false} NoteExecute(s: Service, h: History, step: Step)
    requires step.RunExecute? && step.i < |s.slots| && Executes(s.slots[step.i], step)
    ensures Note(h, s, step) == h.(outcomes := h.outcomes[s.slots[step.i].id := step.outcome])
  {
  }

  lemma {:induction false} NoteOutside(s: Service, h: History, step: Step)
    requires IsWork(step) && step.i >= |s.slots|
    ensures Note(h, s, step) == h
  {
  }

  lemma {:induction false} CancelTells(s: Service, h: History, step: Step, id: nat)
    requires Shape(s) && Told(s, h, id) && (step.CancelScan? || step.CancelFlag? || step.CancelDecide?)
    ensures Told(CancelStep(s, step), Note(h, s, step), id)
  {
    hide Shape, SlotShape, Told, SlotTold, Reported;
    var t, g := CancelStep(s, step), Note(h, s, step);
    if step.CancelFlag? && t != s {
      var i := s.gate.slot;
      ShapeAt(s, i);
      NoteElsewhere(s, h, step, id);
      if s.slots[i].id == id {
        FlagTold(s, h, id);
      }
      ToldPut(s, h, t, g, i, id);
    } else {
      ShapeGate(s);
      ToldSame(s, h, t, id);
    }
  }

  lemma {:induction false} ShapeGate(s: Service)
    requires Shape(s)
    ensures GateShape(s)
  {
  }

  lemma {:induction false} FlagTold(s: Service, h: History, id: nat)
    requires GateShape(s) && Told(s, h, id) && s.gate.CancelHolds? && !s.gate.flagged && s.slots[s.gate.slot].id == id
    ensures SlotTold(s.slots[s.gate.slot].(cancelRequested := true), h.(flagged := h.flagged + {s.gate.id}))
  {
    assert Holds(s.slots[s.gate.slot], id) == 1;
  }

  lemma {:induction false} DriverTells(s: Service, h: History, step: Step, id: nat)
    requires Shape(s) && Told(s, h, id) && IsDriver(step) && id != 0
    ensures Told(DriverStep(s, step), h, id)
  {
    hide Shape, SlotShape, GateShape, Told, DriverSlot, SlotTold, Reported;
    if DriverEnabled(s, step) {
      ShapeAt(s, step.i);
      DriverSlotTells(s, h, step, id);
      ToldPut(s, h, DriverStep(s, step), h, step.i, id);
    }
  }

  lemma {:induction false} DriverSlotTells(s: Service, h: History, step: Step, id: nat)
    requires DriverEnabled(s, step) && SlotShape(s.slots[step.i]) && GateShape(s) && Told(s, h, id) && id != 0
    ensures Holds(DriverSlot(s.slots[step.i], step), id) == 1 ==> SlotTold(DriverSlot(s.slots[step.i], step), h)
    ensures var c := s.slots[step.i]; step.DriverCall? && c.id == id ==> Reported(h, id, c.operation, c.result)
  {
    assert step.DriverCall? && s.slots[step.i].id == id ==> Holds(s.slots[step.i], id) == 1;
  }

  lemma {:induction false} StepTells(s: Service, h: History, step: Step, id: nat)
    requires Inv(s, id) && Told(s, h, id) && id != 0
    ensures Told(Next(s, step), Note(h, s, step), id)
  {
    hide Shape, Counters, Ledger, OneDriven, Register, CalledOnce, CancelHonoured, Told;
    hide SubmitStep, WorkStep, CancelStep, DriverStep, ScanStep, Note;
    if step.Submit? {
      SubmitTells(s, h, step, id);
    } else if IsWork(step) {
      WorkTells(s, h, step, id);
    } else if step.CancelScan? || step.CancelFlag? || step.CancelDecide? {
      CancelTells(s, h, step, id);
    } else {
      NoteNothing(s, h, step);
      if IsDriver(step) {
        DriverTells(s, h, step, id);
      } else if IsScan(step) || step.CloseService? || step.CloseSettles? {
        OuterSteps(s, step);
        ToldSame(s, h, Next(s, step), id);
      } else {
        AdmissionTells(s, h, step, id);
      }
    }
  }

  lemma {:induction false} NoteNothing(s: Service, h: History, step: Step)
    requires !step.Submit? && !IsWork(step) && !step.CancelFlag?
    ensures Note(h, s, step) == h
  {
  }

  lemma {:induction false} RunTells(s: Service, h: History, steps: seq<Step>, id: nat)
    requires Inv(s, id) && Told(s, h, id) && id != 0
    ensures Told(After(s, steps), Chronicle(s, h, steps), id)
    decreases |steps|
  {
    hide Inv, Told, Next, Note;
    if steps != [] {
      StepKeeps(s, steps[0], id);
      StepTells(s, h, steps[0], id);
      RunTells(Next(s, steps[0]), Note(h, s, steps[0]), steps[1..], id);
    }
  }

  lemma {:induction false} EveryRunTells(capacity: nat, steps: seq<Step>, id: nat)
    requires id != 0
    ensures Told(After(Initial(capacity), steps), Chronicle(Initial(capacity), NO_HISTORY, steps), id)
  {
    hide Inv;
    InitialInv(capacity, id);
    RunTells(Initial(capacity), NO_HISTORY, steps, id);
  }

  // ----- no callback for no request

  predicate Named(s: Service) {
    forall k :: 0 <= k < |s.callbacks| ==> s.callbacks[k].id != 0
  }

  lemma {:induction false} OnlyDriverCalls(s: Service, step: Step)
    requires !IsDriver(step)
    ensures Next(s, step).callbacks == s.callbacks
  {
    hide FirstFree, WorkSlot;
  }

  lemma {:induction false} StepNames(s: Service, step: Step)
    requires Shape(s) && Named(s)
    ensures Named(Next(s, step))
  {
    hide Shape, GateShape, DriverSlot, Next;
    if !IsDriver(step) {
      OnlyDriverCalls(s, step);
    } else {
      DriverIsNext(s, step);
      if DriverEnabled(s, step) {
        ShapeAt(s, step.i);
      }
    }
  }

  lemma {:induction false} DriverIsNext(s: Service, step: Step)
    requires IsDriver(step)
    ensures Next(s, step) == DriverStep(s, step)
  {
    hide DriverStep;
  }

  lemma {:induction false} RunNames(s: Service, steps: seq<Step>)
    requires Shape(s) && Named(s)
    ensures Named(After(s, steps))
    decreases |steps|
  {
    hide Shape, Named, Next;
    if steps != [] {
      StepKeepsShape(s, steps[0]);
      StepNames(s, steps[0]);
      RunNames(Next(s, steps[0]), steps[1..]);
    }
  }

  /** Main result: in every interleaving a callback names the operation that was submitted under
      its id. If the operation was performed the callback carries the outcome of performing it;
      if not, it reports a cancellation, and then a canceller had raised the request's flag or
      the executor had cancelled its task. */
  lemma {:induction false} CallbackTellsOutcome(capacity: nat, steps: seq<Step>, k: nat)
    requires k < |After(Initial(capacity), steps).callbacks|
    ensures var s := After(Initial(capacity), steps);
            var h := Chronicle(Initial(capacity), NO_HISTORY, steps);
            var c := s.callbacks[k];
            && c.id in h.submitted && c.operation == h.submitted[c.id]
            && (c.id in s.executed <==> c.id in h.outcomes)
            && (c.id in h.outcomes ==> c.result == h.outcomes[c.id])
            && (c.id !in h.outcomes ==> c.result.Cancelled? && (c.id in h.flagged || c.id in h.withdrawn))
  {
    hide After, Chronicle, Next, Note;
    RunNames(Initial(capacity), steps);
    EveryRunTells(capacity, steps, After(Initial(capacity), steps).callbacks[k].id);
  }

  // ----- the two counters of the statistics

  function CancelledCalls(callbacks: seq<Completion>): nat {
    if callbacks == [] then 0
    else CancelledCalls(callbacks[..|callbacks| - 1]) + (if callbacks[|callbacks| - 1].result.Cancelled? then 1 else 0)
  }

  /** The slot's request was called back as cancelled and is not counted yet. */
  function Uncounted(c: Slot): nat {
    if c.driver.Called? && c.result.Cancelled? then 1 else 0
  }

  function UncountedSum(cs: seq<Slot>): nat {
    if cs == [] then 0 else Uncounted(cs[0]) + UncountedSum(cs[1..])
  }

  lemma {:induction false} UncountedPut(cs: seq<Slot>, i: nat, c: Slot)
    requires i < |cs|
    ensures UncountedSum(cs[i := c]) + Uncounted(cs[i]) == UncountedSum(cs) + Uncounted(c)
  {
    hide Uncounted;
    if i == 0 {
      assert cs[i := c][1..] == cs[1..];
    } else {
      assert cs[i := c][1..] == cs[1..][i - 1 := c];
      UncountedPut(cs[1..], i - 1, c);
    }
  }

  lemma {:induction false} UncountedInUse(cs: seq<Slot>)
    ensures UncountedSum(cs) <= CalledSum(cs)
  {
    if cs != [] {
      UncountedInUse(cs[1..]);
    }
  }

  /** Cancellations, counted or about to be, are the callbacks that reported one. */
  predicate Tally(s: Service) {
    s.cancelled + UncountedSum(s.slots) == CancelledCalls(s.callbacks)
  }

  /** Steps of anyone but the driver: no slot is called back, and no result of a called one changes. */
  lemma {:induction false} OthersTally(s: Service, step: Step)
    requires Shape(s) && Tally(s) && !IsDriver(step)
    ensures Tally(Next(s, step))
  {
    hide UncountedSum, CancelledCalls, Shape, Uncounted, FirstFree, Next;
    OnlyDriverCalls(s, step);
    if Next(s, step).slots != s.slots {
      var i := ChangedSlot(s, step);
      UncountedPut(s.slots, i, Next(s, step).slots[i]);
    }
    CancelledStays(s, step);
  }

  lemma {:induction false} CancelledStays(s: Service, step: Step)
    requires !IsDriver(step)
    ensures Next(s, step).cancelled == s.cancelled
  {
    hide FirstFree, WorkSlot;
  }

  lemma {:induction false} ChangedSlot(s: Service, step: Step) returns (i: nat)
    requires Shape(s) && !IsDriver(step) && Next(s, step).slots != s.slots
    ensures i < |s.slots| && Next(s, step).slots == s.slots[i := Next(s, step).slots[i]]
    ensures Uncounted(Next(s, step).slots[i]) == Uncounted(s.slots[i])
  {
    hide Shape;
    i := if step.Submit? then FirstFree(s.slots, 0) else if step.CancelFlag? then s.gate.slot else step.i;
    ShapeAt(s, i);
  }

  lemma {:induction false} DriverTally(s: Service, step: Step)
    requires Shape(s) && Tally(s) && IsDriver(step)
    ensures Tally(Next(s, step))
  {
    hide UncountedSum, CancelledCalls, Shape, GateShape, Next;
    DriverIsNext(s, step);
    if DriverEnabled(s, step) {
      ShapeAt(s, step.i);
      var c := s.slots[step.i];
      UncountedPut(s.slots, step.i, DriverSlot(c, step));
      CancelledSnoc(s.callbacks, Completion(c.id, c.operation, c.result));
    }
  }

  lemma {:induction false} CancelledSnoc(callbacks: seq<Completion>, c: Completion)
    ensures CancelledCalls(callbacks + [c]) == CancelledCalls(callbacks) + (if c.result.Cancelled? then 1 else 0)
  {
    assert (callbacks + [c])[..|callbacks|] == callbacks;
  }

  lemma {:induction false} RunTallies(s: Service, steps: seq<Step>)
    requires Shape(s) && Tally(s)
    ensures Tally(After(s, steps))
    decreases |steps|
  {
    hide Shape, Tally, Next;
    if steps != [] {
      StepKeepsShape(s, steps[0]);
      if IsDriver(steps[0]) {
        DriverTally(s, steps[0]);
      } else {
        OthersTally(s, steps[0]);
      }
      RunTallies(Next(s, steps[0]), steps[1..]);
    }
  }

  lemma {:induction false} NothingUncounted(n: nat)
    ensures UncountedSum(seq(n, i => EMPTY_SLOT)) == 0
  {
    if n > 0 {
      NothingUncounted(n - 1);
      assert seq(n, i => EMPTY_SLOT)[1..] == seq(n - 1, i => EMPTY_SLOT);
    }
  }

  /** Main result: with nothing in use, the statistics tell the callbacks that reported a
      cancellation from the others. */
  lemma {:induction false} QuiescentStatistics(capacity: nat, steps: seq<Step>)
    requires After(Initial(capacity), steps).inUse == 0
    ensures var s := After(Initial(capacity), steps);
            s.cancelled == CancelledCalls(s.callbacks) && s.completed == |s.callbacks| - CancelledCalls(s.callbacks)
  {
    hide After, UncountedSum, UseSum, CalledSum;
    var s := After(Initial(capacity), steps);
    NothingUncounted(capacity);
    RunTallies(Initial(capacity), steps);
    EveryRun(capacity, steps, 1);
    CalledImpliesUse(s.slots);
    UncountedInUse(s.slots);
  }
}
