/** Runs of the watch: any interleaving of backend publications, losses, driver turns,
acknowledgements, backend termination and close, one step per critical section, with a log
of what happened. */
module WatchHistory {
  import opened Basics
  import opened WatchCore

  datatype Step =
    | PublishStep(detail: Detail)
    | LossStep
    | TakeStep
    | CallbackReturned
    | AcknowledgeStep
    | DoneStep
    | CloseStep
    | NotifyReturned

  datatype Entry =
    | Accepted(detail: Detail)
    | Dropped
    | DroppedAfterClose
    | DeliveredDetail(detail: Detail)
    | DeliveredMarker

  /** The watch, the deliveries whose callback has not been counted yet, and the log. */
  datatype Run = Run(s: State, calling: nat, log: seq<Entry>)

  function PublishEntry(s: State, d: Detail): Entry {
    match PublishStatus(s)
    case Ok => Accepted(d)
    case Shutdown => DroppedAfterClose
    case _ => Dropped
  }

  function TakeEntries(s: State): seq<Entry> {
    match TakeResult(s)
    case None => []
    case Some(MarkerDelivered) => [DeliveredMarker]
    case Some(DetailDelivered(d)) => [DeliveredDetail(d)]
  }

  function Next(r: Run, step: Step): Run {
    match step
    case PublishStep(d) => r.(s := Publish(r.s, d), log := r.log + [PublishEntry(r.s, d)])
    case LossStep => r.(s := Loss(r.s), log := r.log + [Dropped])
    case TakeStep =>
      if r.calling == 0 && TakeResult(r.s).Some?
      then Run(Take(r.s), 1, r.log + TakeEntries(r.s))
      else r
    case CallbackReturned =>
      if r.calling > 0 then r.(s := r.s.(deliveredCount := r.s.deliveredCount + 1), calling := r.calling - 1) else r
    case AcknowledgeStep => r.(s := Acknowledge(r.s))
    case DoneStep => r.(s := MarkDone(r.s))
    case CloseStep => r.(s := Close(r.s))
    case NotifyReturned => if r.s.inflight > 0 then r.(s := r.s.(inflight := r.s.inflight - 1)) else r
  }

  function Initial(capacity: nat, notifying: bool): Run {
    Run(State(capacity, [], false, false, false, false, false, 0, 0, 0, 0, notifying, 0), 0, [])
  }

  function After(r: Run, steps: seq<Step>): Run {
    if steps == [] then r else Next(After(r, steps[..|steps| - 1]), steps[|steps| - 1])
  }

  // ----- readings of the log

  function AcceptedOf(log: seq<Entry>): seq<Detail> {
    if log == [] then []
    else
      var last := log[|log| - 1];
      AcceptedOf(log[..|log| - 1]) + (if last.Accepted? then [last.detail] else [])
  }

  function DeliveredOf(log: seq<Entry>): seq<Detail> {
    if log == [] then []
    else
      var last := log[|log| - 1];
      DeliveredOf(log[..|log| - 1]) + (if last.DeliveredDetail? then [last.detail] else [])
  }

  function Drops(log: seq<Entry>): nat {
    if log == [] then 0
    else
      var last := log[|log| - 1];
      Drops(log[..|log| - 1]) + (if last.Dropped? || last.DroppedAfterClose? then 1 else 0)
  }

  function Markers(log: seq<Entry>): nat {
    if log == [] then 0
    else Markers(log[..|log| - 1]) + (if log[|log| - 1].DeliveredMarker? then 1 else 0)
  }

  /** Drops since the marker that was last delivered. */
  function DropsSince(log: seq<Entry>): nat {
    if log == [] then 0
    else
      match log[|log| - 1]
      case DeliveredMarker => 0
      case Dropped => DropsSince(log[..|log| - 1]) + 1
      case DroppedAfterClose => DropsSince(log[..|log| - 1]) + 1
      case _ => DropsSince(log[..|log| - 1])
  }

  /** Every drop is followed by a delivered marker. */
  predicate Covered(log: seq<Entry>) {
    forall i :: 0 <= i < |log| && log[i].Dropped? ==> exists j :: i < j < |log| && log[j].DeliveredMarker?
  }

  // ----- invariants

  /** Details leave in the order they came, none twice and none left out. */
  predicate Fifo(r: Run) {
    && |r.s.queue| <= r.s.capacity
    && AcceptedOf(r.log) == DeliveredOf(r.log) + r.s.queue
  }

  /** A rescan is awaited exactly while its marker is pending or was delivered. */
  predicate MarkerPhase(s: State) {
    && (s.awaiting <==> s.pending || s.delivered)
    && !(s.pending && s.delivered)
  }

  /** Every drop is followed by a marker, or a marker is still due. */
  predicate NoSilentLoss(r: Run) {
    r.s.awaiting || Covered(r.log)
  }

  /** The counters the acknowledgement compares differ by the drops since the marker that was
      last delivered, and drops after a close happen after a close only. */
  predicate CoverKnown(r: Run) {
    && r.s.coverAtDelivery <= r.s.suppressed
    && (r.s.delivered ==> r.s.suppressed == r.s.coverAtDelivery + DropsSince(r.log))
    && (!r.s.closeRequested ==> DroppedAfterClose !in r.log)
  }

  /** A marker is delivered only behind every detail accepted before it. */
  predicate MarkersLast(log: seq<Entry>) {
    forall j :: 0 <= j < |log| && log[j].DeliveredMarker? ==> AcceptedOf(log[..j]) == DeliveredOf(log[..j])
  }

  predicate Counters(r: Run) {
    && r.s.suppressed == Drops(r.log)
    && r.s.required == Markers(r.log) + (if r.s.pending then 1 else 0)
    && r.s.deliveredCount + r.calling == |DeliveredOf(r.log)| + Markers(r.log)
  }

  predicate Inv(r: Run) {
    Fifo(r) && MarkerPhase(r.s) && NoSilentLoss(r) && CoverKnown(r) && MarkersLast(r.log) && Counters(r)
  }

  // ----- one entry more

  lemma {:induction false} SnocReadings(log: seq<Entry>, e: Entry)
    ensures AcceptedOf(log + [e]) == AcceptedOf(log) + (if e.Accepted? then [e.detail] else [])
    ensures DeliveredOf(log + [e]) == DeliveredOf(log) + (if e.DeliveredDetail? then [e.detail] else [])
    ensures Drops(log + [e]) == Drops(log) + (if e.Dropped? || e.DroppedAfterClose? then 1 else 0)
    ensures Markers(log + [e]) == Markers(log) + (if e.DeliveredMarker? then 1 else 0)
    ensures DropsSince(log + [e]) ==
              if e.DeliveredMarker? then 0 else DropsSince(log) + (if e.Dropped? || e.DroppedAfterClose? then 1 else 0)
  {
    assert (log + [e])[..|log|] == log;
  }

  /** With nothing dropped since the last marker, every drop is covered; and with something
      dropped since, not every drop is. */
  lemma {:induction false} CoveredExactly(log: seq<Entry>)
    ensures DropsSince(log) == 0 ==> Covered(log)
    ensures DroppedAfterClose !in log && Covered(log) ==> DropsSince(log) == 0
  {
    if log != [] {
      var front, e := log[..|log| - 1], log[|log| - 1];
      assert log == front + [e];
      CoveredExactly(front);
      if e.DeliveredMarker? {
        MarkerCoversAll(front);
      } else {
        if DropsSince(log) == 0 {
          CoversSnoc(front, e);
        }
        if DroppedAfterClose !in log && Covered(log) {
          CoveredFront(front, e);
        }
      }
    }
  }

  lemma {:induction false} CoveredFront(front: seq<Entry>, e: Entry)
    requires Covered(front + [e]) && !e.DeliveredMarker?
    ensures Covered(front) && !e.Dropped?
  {
    var log := front + [e];
    assert log[|front|] == e;
    forall i | 0 <= i < |front| && front[i].Dropped? ensures exists j :: i < j < |front| && front[j].DeliveredMarker? {
      assert log[i].Dropped?;
      var j :| i < j < |log| && log[j].DeliveredMarker?;
      assert front[j].DeliveredMarker?;
    }
  }

  lemma {:induction false} MarkersLastSnoc(log: seq<Entry>, e: Entry)
    requires MarkersLast(log)
    requires e.DeliveredMarker? ==> AcceptedOf(log) == DeliveredOf(log)
    ensures MarkersLast(log + [e])
  {
    var after := log + [e];
    forall j | 0 <= j < |after| && after[j].DeliveredMarker? ensures AcceptedOf(after[..j]) == DeliveredOf(after[..j]) {
      assert after[..j] == log[..j];
      if j == |log| {
        assert log[..j] == log;
      }
    }
  }

  lemma {:induction false} MarkerCoversAll(log: seq<Entry>)
    ensures Covered(log + [DeliveredMarker])
  {
    assert (log + [DeliveredMarker])[|log|].DeliveredMarker?;
  }

  lemma {:induction false} CoversSnoc(log: seq<Entry>, e: Entry)
    requires Covered(log) && !e.Dropped?
    ensures Covered(log + [e])
  {
    var after := log + [e];
    forall i | 0 <= i < |after| && after[i].Dropped? ensures exists j :: i < j < |after| && after[j].DeliveredMarker? {
      assert log[i].Dropped?;
      var j :| i < j < |log| && log[j].DeliveredMarker?;
      assert after[j].DeliveredMarker?;
    }
  }

  // ----- every step keeps the invariant

  lemma {:induction false} PublishKeeps(r: Run, d: Detail)
    requires Inv(r)
    ensures Inv(Next(r, PublishStep(d)))
  {
    hide Covered, MarkersLast, AcceptedOf, DeliveredOf, Drops, DropsSince, Markers;
    var e := PublishEntry(r.s, d);
    SnocReadings(r.log, e);
    MarkersLastSnoc(r.log, e);
    if !e.Dropped? && Covered(r.log) {
      CoversSnoc(r.log, e);
    }
  }

  lemma {:induction false} LossKeeps(r: Run)
    requires Inv(r)
    ensures Inv(Next(r, LossStep))
  {
    hide Covered, MarkersLast, AcceptedOf, DeliveredOf, Drops, DropsSince, Markers;
    SnocReadings(r.log, Dropped);
    MarkersLastSnoc(r.log, Dropped);
  }

  lemma {:induction false} TakeKeeps(r: Run)
    requires Inv(r)
    ensures Inv(Next(r, TakeStep))
  {
    hide Covered, MarkersLast, AcceptedOf, DeliveredOf, Drops, DropsSince, Markers;
    if r.calling == 0 && TakeResult(r.s).Some? {
      if r.s.queue != [] {
        var e := DeliveredDetail(r.s.queue[0]);
        SnocReadings(r.log, e);
        MarkersLastSnoc(r.log, e);
        if Covered(r.log) {
          CoversSnoc(r.log, e);
        }
      } else {
        SnocReadings(r.log, DeliveredMarker);
        assert DeliveredOf(r.log) + [] == DeliveredOf(r.log);
        MarkersLastSnoc(r.log, DeliveredMarker);
        MarkerCoversAll(r.log);
      }
    }
  }

  lemma {:induction false} StepKeeps(r: Run, step: Step)
    requires Inv(r)
    ensures Inv(Next(r, step))
  {
    hide Covered, MarkersLast, AcceptedOf, DeliveredOf, Drops, DropsSince, Markers;
    CoveredExactly(r.log);
    match step
    case PublishStep(d) => PublishKeeps(r, d);
    case LossStep => LossKeeps(r);
    case TakeStep => TakeKeeps(r);
    case _ =>
  }

  /** Main result: whatever the interleaving, deliveries are the accepted details in order,
      no loss is silent, markers come last, and the statistics add up. */
  lemma {:induction false} EveryRun(capacity: nat, notifying: bool, steps: seq<Step>)
    ensures Inv(After(Initial(capacity, notifying), steps))
  {
    if steps != [] {
      EveryRun(capacity, notifying, steps[..|steps| - 1]);
      StepKeeps(After(Initial(capacity, notifying), steps[..|steps| - 1]), steps[|steps| - 1]);
    }
  }

  /** What a consumer may rely on: at any time the details it received are a prefix of the
      details accepted, and once no rescan is awaited, every loss lies before a marker it
      was given. */
  lemma {:induction false} ConsumerView(capacity: nat, notifying: bool, steps: seq<Step>)
    ensures var r := After(Initial(capacity, notifying), steps);
            && DeliveredOf(r.log) <= AcceptedOf(r.log)
            && (!r.s.awaiting ==>
                  forall i :: 0 <= i < |r.log| && r.log[i].Dropped? ==>
                    exists j :: i < j < |r.log| && r.log[j].DeliveredMarker?)
  {
    EveryRun(capacity, notifying, steps);
  }

  /** Before a close, an acknowledgement of a delivered marker ends the wait exactly when every
      loss so far lies before a marker the consumer was given; a loss that raced with the rebuild
      brings another marker instead. Without a delivered marker it changes nothing. */
  lemma {:induction false} AcknowledgeEndsWait(capacity: nat, notifying: bool, steps: seq<Step>)
    ensures var r := After(Initial(capacity, notifying), steps);
            var t := Next(r, AcknowledgeStep);
            && (r.s.delivered && !r.s.closeRequested ==> (!t.s.awaiting <==> Covered(r.log)) && (t.s.pending <==> !Covered(r.log)))
            && (!r.s.delivered ==> t == r)
  {
    var r := After(Initial(capacity, notifying), steps);
    EveryRun(capacity, notifying, steps);
    CoveredExactly(r.log);
  }

  // ----- what is accepted, and that the marker comes

  lemma {:induction false} CapacityStays(capacity: nat, notifying: bool, steps: seq<Step>)
    ensures After(Initial(capacity, notifying), steps).s.capacity == capacity
  {
    hide Next;
    if steps != [] {
      CapacityStays(capacity, notifying, steps[..|steps| - 1]);
      StepCapacity(After(Initial(capacity, notifying), steps[..|steps| - 1]), steps[|steps| - 1]);
    }
  }

  lemma {:induction false} StepCapacity(r: Run, step: Step)
    ensures Next(r, step).s.capacity == r.s.capacity
  {
    hide PublishEntry, TakeEntries, TakeResult, Publish, Loss, Take, Acknowledge, MarkDone, Close;
    match step
    case PublishStep(d) => PublishCapacity(r.s, d);
    case _ => SectionCapacity(r.s);
  }

  lemma {:induction false} PublishCapacity(s: State, d: Detail)
    ensures Publish(s, d).capacity == s.capacity
  {
  }

  lemma {:induction false} SectionCapacity(s: State)
    ensures Loss(s).capacity == s.capacity && Take(s).capacity == s.capacity && Acknowledge(s).capacity == s.capacity
    ensures MarkDone(s).capacity == s.capacity && Close(s).capacity == s.capacity
  {
  }

  /** In every run a detail is accepted exactly when the watch is not closed, no rescan is
      awaited and fewer details than the capacity wait for their delivery. A detail that is not
      accepted is counted as a drop, and unless the watch was closed a rescan is awaited then. */
  lemma {:induction false} AcceptedExactly(capacity: nat, notifying: bool, steps: seq<Step>, d: Detail)
    ensures var r := After(Initial(capacity, notifying), steps);
            var t := Next(r, PublishStep(d));
            var room := !r.s.closeRequested && !r.s.awaiting && |AcceptedOf(r.log)| - |DeliveredOf(r.log)| < capacity;
            && AcceptedOf(t.log) == AcceptedOf(r.log) + (if room then [d] else [])
            && Drops(t.log) == Drops(r.log) + (if room then 0 else 1)
            && (!room && !r.s.closeRequested ==> t.s.awaiting)
            && (room ==> !t.s.awaiting)
  {
    hide AcceptedOf, DeliveredOf, Drops, After;
    var r := After(Initial(capacity, notifying), steps);
    EveryRun(capacity, notifying, steps);
    CapacityStays(capacity, notifying, steps);
    SnocReadings(r.log, PublishEntry(r.s, d));
  }

  /** Turns of the driver with their callbacks. */
  function Turns(n: nat): seq<Step> {
    if n == 0 then [] else Turns(n - 1) + [TakeStep, CallbackReturned]
  }

  lemma {:induction false} AfterTwo(r: Run, steps: seq<Step>, a: Step, b: Step)
    ensures After(r, steps + [a, b]) == Next(Next(After(r, steps), a), b)
  {
    var all := steps + [a, b];
    assert all[..|all| - 1] == steps + [a];
    assert (steps + [a])[..|steps|] == steps;
  }

  lemma {:induction false} TurnsDeliver(r: Run, n: nat)
    requires r.calling == 0 && n <= |r.s.queue|
    ensures var t := After(r, Turns(n));
            && t.calling == 0 && t.s.queue == r.s.queue[n..] && t.s.pending == r.s.pending
            && DeliveredOf(t.log) == DeliveredOf(r.log) + r.s.queue[..n]
            && AcceptedOf(t.log) == AcceptedOf(r.log)
  {
    hide AcceptedOf, DeliveredOf, After;
    if n == 0 {
      AfterNone(r);
    } else {
      TurnsDeliver(r, n - 1);
      var u := After(r, Turns(n - 1));
      AfterTwo(r, Turns(n - 1), TakeStep, CallbackReturned);
      SnocReadings(u.log, DeliveredDetail(u.s.queue[0]));
      assert r.s.queue[..n] == r.s.queue[..n - 1] + [r.s.queue[n - 1]];
    }
  }

  lemma {:induction false} AfterNone(r: Run)
    ensures After(r, []) == r
  {
  }

  /** From every reachable state with a marker pending and no callback running, the driver alone
      brings the marker to the consumer, behind every detail accepted so far: in one turn more
      than details are waiting. */
  lemma {:induction false} MarkerComes(capacity: nat, notifying: bool, steps: seq<Step>)
    ensures var r := After(Initial(capacity, notifying), steps);
            r.calling == 0 && r.s.pending ==>
              var t := Next(After(r, Turns(|r.s.queue|)), TakeStep);
              && t.log == After(r, Turns(|r.s.queue|)).log + [DeliveredMarker]
              && DeliveredOf(t.log) == AcceptedOf(r.log) && t.s.delivered && |r.s.queue| <= capacity
  {
    hide AcceptedOf, DeliveredOf, After;
    var r := After(Initial(capacity, notifying), steps);
    EveryRun(capacity, notifying, steps);
    CapacityStays(capacity, notifying, steps);
    if r.calling == 0 {
      TurnsDeliver(r, |r.s.queue|);
      var u := After(r, Turns(|r.s.queue|));
      SnocReadings(u.log, DeliveredMarker);
      assert r.s.queue[..|r.s.queue|] == r.s.queue;
    }
  }
}
