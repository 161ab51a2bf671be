/** The bounded filesystem-watch queue: a ring of detailed events beside one rescan marker.

`State` is what the fields of the watch mean; the functions on it are the critical
sections under the watch's gate. Class `Watch` holds the fields themselves, and its
methods are proved to do exactly what these functions say. */
module WatchCore {
  import opened Basics

  /** Kinds of detailed events; the rescan marker is not one of them. */
  datatype Kind = Created | Removed | Modified | Attributes | Renamed | RootChanged | RescanRequired | BadKind

  datatype EntryType = UnknownEntry | FileEntry | DirectoryEntry

  /** A queued detail. An absent path is stored as the empty one. */
  datatype Detail = Detail(kind: Kind, path: string, oldPath: string, entryType: EntryType)

  datatype Delivery = DetailDelivered(detail: Detail) | MarkerDelivered

  datatype Status = Ok | NoBuffers | Shutdown | Already

  datatype State = State(
    capacity: nat,
    queue: seq<Detail>,
    awaiting: bool,
    pending: bool,
    delivered: bool,
    closeRequested: bool,
    backendDone: bool,
    suppressed: nat,
    required: nat,
    coverAtDelivery: nat,
    deliveredCount: nat,
    notifying: bool,
    inflight: nat)

  /** There is something for the driver to do, or never will be again. */
  predicate HasReadyOrDone(s: State) {
    s.queue != [] || s.pending || s.backendDone
  }

  predicate DoneAndEmpty(s: State) {
    s.queue == [] && !s.pending && s.backendDone
  }

  predicate Quiescent(s: State) {
    s.closeRequested && s.backendDone && s.queue == [] && !s.pending && s.inflight == 0
  }

  // ----- critical sections

  function Prepare(s: State): State {
    if s.notifying then s.(inflight := s.inflight + 1) else s
  }

  function Schedule(s: State): State {
    s.(awaiting := true, pending := true, delivered := false, required := s.required + 1)
  }

  /** A loss the backend reports: the first one schedules a marker and notifies. */
  function Loss(s: State): State {
    var t := s.(suppressed := s.suppressed + 1);
    if s.awaiting then t else Prepare(Schedule(t))
  }

  function PublishStatus(s: State): Status {
    if s.closeRequested then Shutdown
    else if s.awaiting || |s.queue| == s.capacity then NoBuffers
    else Ok
  }

  /** A detail whose kind and paths were found valid. */
  function Publish(s: State, d: Detail): State {
    match PublishStatus(s)
    case Ok => Prepare(s.(queue := s.queue + [d]))
    case Shutdown => s.(suppressed := s.suppressed + 1)
    case _ =>
      var t := s.(suppressed := s.suppressed + 1);
      if s.awaiting then t else Schedule(t)
  }

  function TakeResult(s: State): Option<Delivery> {
    if s.queue != [] then Some(DetailDelivered(s.queue[0]))
    else if s.pending then Some(MarkerDelivered)
    else None
  }

  /** The driver takes one delivery. */
  function Take(s: State): State {
    if s.queue != [] then s.(queue := s.queue[1..])
    else if s.pending then s.(pending := false, delivered := true, coverAtDelivery := s.suppressed)
    else s
  }

  /** Repeated turns of the driver. */
  function Drain(s: State, n: nat): (State, seq<Delivery>)
    decreases n
  {
    if n == 0 || TakeResult(s).None? then (s, [])
    else
      var t := Take(s);
      var rest := Drain(t.(deliveredCount := t.deliveredCount + 1), n - 1);
      (rest.0, [TakeResult(s).value] + rest.1)
  }

  lemma {:induction false} NothingToTake(s: State)
    requires TakeResult(s).None?
    ensures Take(s) == s
  {
  }

  function AcknowledgeStatus(s: State): Status {
    if !s.awaiting || !s.delivered then Already else Ok
  }

  /** The consumer has rebuilt its view. Losses since the marker call for another one. */
  function Acknowledge(s: State): State {
    if !s.awaiting || !s.delivered then s
    else if s.suppressed != s.coverAtDelivery then
      Prepare(s.(pending := true, delivered := false, required := s.required + 1))
    else s.(awaiting := false, delivered := false)
  }

  function MarkDone(s: State): State {
    Prepare(s.(backendDone := true))
  }

  function Close(s: State): State {
    s.(closeRequested := true)
  }

  // ----- the fields

  class Watch {
    const slots: array<Detail>
    const capacity: nat
    const pathCapacity: nat
    const notifying: bool
    var head: nat
    var tail: nat
    var count: nat
    var closeRequested: bool
    var backendDone: bool
    var deliveredCount: nat
    var suppressed: nat
    var rescanRequired: nat
    var rescanDeliverySuppressed: nat
    var notificationsInflight: nat
    var awaitingRescan: bool
    var rescanPending: bool
    var rescanDelivered: bool

    ghost predicate Valid()
      reads this`head, this`tail, this`count
    {
      && slots.Length == capacity > 0
      && head < capacity && count <= capacity
      && tail == Wrap(head + count, capacity)
    }

    ghost function Contents(): (q: seq<Detail>)
      requires Valid()
      reads this`head, this`tail, this`count, slots
    {
      Ring(slots[..], head, count)
    }

    ghost function Abs(): State
      requires Valid()
      reads this, slots
    {
      State(capacity, Contents(), awaitingRescan, rescanPending, rescanDelivered, closeRequested, backendDone,
            suppressed, rescanRequired, rescanDeliverySuppressed, deliveredCount, notifying, notificationsInflight)
    }

    constructor (eventCapacity: nat, pathCapacity: nat, notifying: bool)
      requires eventCapacity > 0
      ensures Valid() && fresh(slots)
      ensures Abs() == State(eventCapacity, [], false, false, false, false, false, 0, 0, 0, 0, notifying, 0)
      ensures this.pathCapacity == pathCapacity
    {
      slots := new Detail[eventCapacity](_ => Detail(Created, "", "", UnknownEntry));
      capacity := eventCapacity;
      this.pathCapacity := pathCapacity;
      this.notifying := notifying;
      head, tail, count := 0, 0, 0;
      closeRequested, backendDone := false, false;
      deliveredCount, suppressed, rescanRequired, rescanDeliverySuppressed, notificationsInflight := 0, 0, 0, 0, 0;
      awaitingRescan, rescanPending, rescanDelivered := false, false, false;
    }

    /** Count a notification that is about to be sent. */
    method PrepareNotify() returns (notify: bool)
      requires Valid()
      modifies this`notificationsInflight
      ensures Valid() && Abs() == Prepare(old(Abs())) && notify == notifying
    {
      if notifying {
        notificationsInflight := notificationsInflight + 1;
      }
      notify := notifying;
    }

    method BackendMarkDone() returns (notify: bool)
      requires Valid()
      modifies this
      ensures Valid() && Abs() == MarkDone(old(Abs())) && notify == notifying
    {
      backendDone := true;
      notify := PrepareNotify();
    }

    method PublishLoss() returns (notify: bool)
      requires Valid()
      modifies this
      ensures Valid() && Abs() == Loss(old(Abs()))
      ensures notify == (notifying && !old(awaitingRescan))
    {
      hide Ring, Wrap;
      notify := false;
      suppressed := suppressed + 1;
      if !awaitingRescan {
        awaitingRescan, rescanPending, rescanDelivered := true, true, false;
        rescanRequired := rescanRequired + 1;
        notify := PrepareNotify();
      }
    }

    /** A path is accepted when it fits its slot with the terminating zero. */
    predicate Fits(path: Option<string>) {
      path.None? || |path.value| < pathCapacity
    }

    static function Stored(path: Option<string>): string {
      if path.None? then "" else path.value
    }

    method PublishDetail(kind: Kind, path: Option<string>, oldPath: Option<string>, entryType: EntryType)
      returns (status: Status, notify: bool)
      requires Valid()
      modifies this, slots
      ensures Valid()
      ensures var d := Detail(kind, Stored(path), Stored(oldPath), entryType);
              if kind.RescanRequired? || kind.BadKind? || !Fits(path) || !Fits(oldPath) then
                && Abs() == Loss(old(Abs())) && status == NoBuffers
                && notify == (notifying && !old(awaitingRescan))
              else
                && Abs() == Publish(old(Abs()), d) && status == PublishStatus(old(Abs()))
                && notify == (notifying && status == Ok)
    {
      hide Ring, Wrap;
      if kind.RescanRequired? || kind.BadKind? || !Fits(path) || !Fits(oldPath) {
        notify := PublishLoss();
        return NoBuffers, notify;
      }
      notify := false;
      if closeRequested {
        suppressed := suppressed + 1;
        return Shutdown, notify;
      }
      if awaitingRescan || count == capacity {
        suppressed := suppressed + 1;
        if !awaitingRescan {
          awaitingRescan, rescanPending, rescanDelivered := true, true, false;
          rescanRequired := rescanRequired + 1;
        }
        return NoBuffers, notify;
      }
      Append(Detail(kind, Stored(path), Stored(oldPath), entryType));
      notify := PrepareNotify();
      status := Ok;
    }

    /** Write the slot at `tail`. */
    method Append(d: Detail)
      requires Valid() && count < capacity
      modifies this`tail, this`count, slots
      ensures Valid() && Abs() == old(Abs()).(queue := old(Contents()) + [d])
    {
      hide Ring, Wrap;
      RingAppend(slots[..], head, count, d);
      ghost var before := slots[..];
      slots[tail] := d;
      assert slots[..] == before[tail := d];
      tail := Wrap(tail + 1, capacity);
      count := count + 1;
      AtNext(head, count - 1, capacity);
    }

    /** The part of the driver's turn under the gate. */
    method TakeReady() returns (r: Option<Delivery>)
      requires Valid()
      modifies this
      ensures Valid() && Abs() == Take(old(Abs())) && r == TakeResult(old(Abs()))
    {
      hide Ring, Wrap;
      r := None;
      if count != 0 {
        RingPop(slots[..], head, count);
        r := Some(DetailDelivered(slots[head]));
        AtShift(head, count - 1, capacity);
        head := Wrap(head + 1, capacity);
        count := count - 1;
      } else if rescanPending {
        rescanPending, rescanDelivered := false, true;
        rescanDeliverySuppressed := suppressed;
        r := Some(MarkerDelivered);
      }
    }

    /** One call of the driver with nothing else going on: at most `maxEvents` callbacks. */
    method RunReady(maxEvents: nat) returns (delivered: seq<Delivery>)
      requires Valid()
      modifies this
      ensures Valid() && Abs() == Drain(old(Abs()), maxEvents).0 && delivered == Drain(old(Abs()), maxEvents).1
    {
      hide Contents, Take, TakeResult;
      delivered := [];
      while |delivered| < maxEvents
        invariant Valid() && |delivered| <= maxEvents
        invariant Drain(old(Abs()), maxEvents).0 == Drain(Abs(), maxEvents - |delivered|).0
        invariant Drain(old(Abs()), maxEvents).1 == delivered + Drain(Abs(), maxEvents - |delivered|).1
      {
        ghost var before := Abs();
        var next := TakeReady();
        if next.None? {
          NothingToTake(before);
          break;
        }
        deliveredCount := deliveredCount + 1;
        delivered := delivered + [next.value];
      }
    }

    method AcknowledgeRescan() returns (status: Status, notify: bool)
      requires Valid()
      modifies this
      ensures Valid() && Abs() == Acknowledge(old(Abs())) && status == AcknowledgeStatus(old(Abs()))
      ensures notify == (notifying && status == Ok && old(suppressed != rescanDeliverySuppressed))
    {
      hide Ring, Wrap;
      notify := false;
      if !awaitingRescan || !rescanDelivered {
        return Already, notify;
      }
      if suppressed != rescanDeliverySuppressed {
        rescanPending, rescanDelivered := true, false;
        rescanRequired := rescanRequired + 1;
        notify := PrepareNotify();
      } else {
        awaitingRescan, rescanDelivered := false, false;
      }
      status := Ok;
    }

    method IsQuiescent() returns (r: bool)
      requires Valid()
      ensures r == Quiescent(Abs())
    {
      r := closeRequested && backendDone && count == 0 && !rescanPending && notificationsInflight == 0;
    }
  }

  // ----- ring arithmetic

  function Wrap(x: nat, n: nat): (r: nat)
    requires n > 0
    ensures r < n
  {
    x % n
  }

  lemma {:induction false} WrapSmall(x: nat, n: nat)
    requires 0 < n && x < 2 * n
    ensures Wrap(x, n) == if x < n then x else x - n
  {
  }

  lemma {:induction false} AtNext(h: nat, i: nat, n: nat)
    requires h < n && i < n
    ensures Wrap(Wrap(h + i, n) + 1, n) == Wrap(h + (i + 1), n)
  {
    hide Wrap;
    WrapSmall(h + i, n);
    WrapSmall(h + i + 1, n);
    WrapSmall(Wrap(h + i, n) + 1, n);
  }

  lemma {:induction false} AtShift(h: nat, i: nat, n: nat)
    requires h < n && i < n
    ensures Wrap(Wrap(h + 1, n) + i, n) == Wrap(h + (i + 1), n)
  {
    hide Wrap;
    WrapSmall(h + 1, n);
    WrapSmall(Wrap(h + 1, n) + i, n);
    WrapSmall(h + i + 1, n);
  }

  lemma {:induction false} AtDistinct(h: nat, i: nat, j: nat, n: nat)
    requires h < n && i < j < n
    ensures Wrap(h + i, n) != Wrap(h + j, n)
  {
    hide Wrap;
    WrapSmall(h + i, n);
    WrapSmall(h + j, n);
  }

  /** `count` elements of the ring `s`, from `head` on. */
  ghost function Ring(s: seq<Detail>, head: nat, count: nat): (q: seq<Detail>)
    requires head < |s|
    ensures |q| == count
  {
    if count == 0 then [] else Ring(s, head, count - 1) + [s[Wrap(head + (count - 1), |s|)]]
  }

  lemma {:induction false} RingKeeps(s: seq<Detail>, head: nat, count: nat, later: nat, d: Detail)
    requires head < |s| && count <= later < |s|
    ensures Ring(s[Wrap(head + later, |s|) := d], head, count) == Ring(s, head, count)
  {
    hide Wrap;
    if count > 0 {
      RingKeeps(s, head, count - 1, later, d);
      AtDistinct(head, count - 1, later, |s|);
    }
  }

  lemma {:induction false} RingAppend(s: seq<Detail>, head: nat, count: nat, d: Detail)
    requires head < |s| && count < |s|
    ensures Ring(s[Wrap(head + count, |s|) := d], head, count + 1) == Ring(s, head, count) + [d]
  {
    hide Wrap;
    RingKeeps(s, head, count, count, d);
  }

  lemma {:induction false} RingPop(s: seq<Detail>, head: nat, count: nat)
    requires head < |s| && 0 < count <= |s|
    ensures Ring(s, head, count) == [s[head]] + Ring(s, Wrap(head + 1, |s|), count - 1)
  {
    hide Wrap;
    WrapSmall(head, |s|);
    if count > 1 {
      RingPop(s, head, count - 1);
      AtShift(head, count - 2, |s|);
    }
  }
}
