/**
The whole GPIO event pipeline of gpio_oled_irq.c as a step machine: an interrupt handler
pushing into ring 1 one memory access at a time, the work item taking from it likewise
and storing into ring 2 under the mutex, `read` calls, any number of pollers, and the
ioctl that releases them.

Assumed of the kernel: handlers do not interrupt one another, a work item does not run
beside itself, `schedule_work` sets a pending flag that is cleared as the work item
starts, and a caller of `poll` that found nothing sleeps only if nothing has woken its
wait-queue entry since it was registered.
*/
module EventPipeline {
  import opened EventData
  import opened Masking
  import Ring = SpscRing

  datatype Handler =
    | Idle
    | Pushing(source: Source, event: CaptureEvent)   // inside push
    | Scheduling                                     // about to call schedule_work

  datatype Worker =
    | Resting                                        // do_work is not running
    | Fetching                                       // front, memcpy, pop
    | Locking(event: CaptureEvent)
    | Testing(event: CaptureEvent)                   // mutex held, about to test space
    | Storing(event: CaptureEvent)
    | Waking                                         // pushed, about to wake the pollers
    | Unlocking

  /** A caller of poll; `woken` is its wait-queue entry having been triggered. */
  datatype Poller =
    | Away
    | Asking(woken: bool)                            // registered, about to test ring 2
    | Deciding(woken: bool)                          // found nothing, about to sleep
    | Sleeping(woken: bool)

  datatype State = State(
    ring1: Ring.State, handler: Handler, counters: map<Source, nat>,
    scheduled: bool, worker: Worker,
    mutexHeld: bool, ring2: seq<EventBulkData>, capacity2: nat,
    pollEnabled: bool, releasing: nat, pollers: seq<Poller>)

  datatype Label =
    | Quiet
    | Accepted(source: Source, event: CaptureEvent)  // past the debounce, numbered
    | Captured                                       // in ring 1
    | DroppedAtCapture
    | Taken                                          // out of ring 1, held by the worker
    | Stored                                         // in ring 2
    | DroppedAtBulk
    | Delivered(records: seq<EventBulkData>)         // copied to a user and removed

  function WakeAll(pollers: seq<Poller>): (woken: seq<Poller>)
    ensures |woken| == |pollers|
    ensures forall i :: 0 <= i < |pollers| ==> woken[i] == WakeOne(pollers[i])
  {
    seq(|pollers|, i requires 0 <= i < |pollers| => WakeOne(pollers[i]))
  }

  function WakeOne(p: Poller): Poller {
    match p
    case Away => Away
    case Asking(_) => Asking(true)
    case Deciding(_) => Deciding(true)
    case Sleeping(_) => Sleeping(true)
  }

  /** The button a handler may report; an unmatched rocker line leaves it uninitialised. */
  predicate ReportsButton(source: Source, button: int) {
    match source
    case FromButton5 => button == BUTTON_5
    case FromButton6 => button == BUTTON_6
    case FromRocker => true
  }

  // ----- the steps

  ghost predicate AcceptStep(s: State, l: Label, s': State) {
    && s.handler.Idle? && l.Accepted? && s.ring1.producer.Ready?
    && l.source in s.counters && ReportsButton(l.source, l.event.button)
    && l.event.event == (s.counters[l.source] + 1) % U64_MODULUS
    && s' == s.(counters := s.counters[l.source := l.event.event],
                handler := Pushing(l.source, l.event),
                ring1 := s.ring1.(producer := Ring.LoadHead(Words(l.event))))
  }

  ghost predicate PushStep(s: State, l: Label, s': State) {
    && s.handler.Pushing? && !s.ring1.producer.Ready? && s.ring1.Capacity() > 0
    && var (r, rl) := Ring.ProducerStep(s.ring1);
    && s' == s.(ring1 := r, handler := if rl.Silent? then s.handler else Scheduling)
    && l == if rl.Enqueue? then Captured else if rl.Reject? then DroppedAtCapture else Quiet
  }

  ghost predicate ScheduleStep(s: State, l: Label, s': State) {
    s.handler.Scheduling? && l == Quiet && s' == s.(scheduled := true, handler := Idle)
  }

  ghost predicate FetchStep(s: State, l: Label, s': State) {
    && s.worker.Fetching? && s.ring1.Capacity() > 0
    && var (r, rl) := Ring.ConsumerStep(s.ring1);
    && s' == s.(ring1 := r,
                worker := match rl
                          case SeenEmpty => Resting
                          case Dequeue(w) => Locking(FromWords(w))
                          case Phantom(w) => Locking(FromWords(w))
                          case _ => Fetching)
    && l == if rl.Dequeue? || rl.Phantom? then Taken else Quiet
  }

  ghost predicate WorkStep(s: State, l: Label, s': State) {
    var space := |s.ring2| + 1 < s.capacity2;
    match s.worker
    case Resting => s.scheduled && l == Quiet && s' == s.(scheduled := false, worker := Fetching)
    case Fetching => FetchStep(s, l, s')
    case Locking(e) => !s.mutexHeld && l == Quiet && s' == s.(mutexHeld := true, worker := Testing(e))
    case Testing(e) =>
      if space then l == Quiet && s' == s.(worker := Storing(e))
      else l == DroppedAtBulk && s' == s.(worker := Unlocking)
    case Storing(e) =>
      if space then l == Stored && s' == s.(ring2 := s.ring2 + [Expand(e)], worker := Waking)
      else l == DroppedAtBulk && s' == s.(worker := Unlocking)
    case Waking => l == Quiet && s' == s.(pollers := WakeAll(s.pollers), worker := Unlocking)
    case Unlocking => l == Quiet && s' == s.(mutexHeld := false, worker := Fetching)
  }

  /** One whole `read` call; it holds the mutex throughout. */
  ghost predicate ReadStep(s: State, l: Label, s': State, count: nat, fault: nat) {
    var taken := Read(count, |s.ring2|, s.capacity2, fault).taken;
    && !s.mutexHeld && l == Delivered(s.ring2[..taken])
    && s' == s.(ring2 := s.ring2[taken..])
  }

  ghost predicate PollStep(s: State, l: Label, s': State, i: nat) {
    && i < |s.pollers| && l == Quiet
    && match s.pollers[i]
       case Away =>                       // poll_wait registers the caller
         s' == s.(pollers := s.pollers[i := Asking(false)])
       case Asking(woken) =>              // the test under the mutex
         && !s.mutexHeld
         && s' == s.(pollers := s.pollers[i := if s.ring2 != [] || !s.pollEnabled then Away else Deciding(woken)])
       case Deciding(woken) =>
         s' == s.(pollers := s.pollers[i := if woken then Asking(false) else Sleeping(false)])
       case Sleeping(woken) =>            // scheduled again, by a wake-up or a time-out
         s' == s.(pollers := s.pollers[i := if woken then Asking(false) else Away])
  }

  ghost predicate ReleaseStep(s: State, l: Label, s': State) {
    && l == Quiet
    && (|| s' == s.(pollEnabled := false, releasing := s.releasing + 1)
        || (s.releasing > 0 && s' == s.(releasing := s.releasing - 1, pollers := WakeAll(s.pollers))))
  }

  ghost predicate Next(s: State, l: Label, s': State) {
    || AcceptStep(s, l, s') || PushStep(s, l, s') || ScheduleStep(s, l, s')
    || WorkStep(s, l, s')
    || (exists count: nat, fault: nat :: ReadStep(s, l, s', count, fault))
    || (exists i: nat :: PollStep(s, l, s', i))
    || ReleaseStep(s, l, s')
  }

  ghost predicate Init(s: State) {
    && Ring.Init(s.ring1) && s.ring1.width == 2
    && s.handler == Idle && s.worker == Resting && !s.scheduled && !s.mutexHeld
    && s.counters == map[FromButton5 := 0, FromButton6 := 0, FromRocker := 0]
    && s.ring2 == [] && IsPow2(s.capacity2)
    && s.pollEnabled && s.releasing == 0
    && forall i :: 0 <= i < |s.pollers| ==> s.pollers[i] == Away
  }

  // ----- the invariant

  ghost predicate HandlerInv(s: State) {
    && (s.handler.Pushing? <==> !s.ring1.producer.Ready?)
    && (s.handler.Pushing? ==> s.ring1.producer.element == Words(s.handler.event))
    && forall source: Source :: source in s.counters
  }

  ghost predicate WorkerInv(s: State) {
    && (!s.worker.Fetching? ==> s.ring1.consumer == Ring.FrontLoad)
    && (s.mutexHeld <==> s.worker.Testing? || s.worker.Storing? || s.worker.Waking? || s.worker.Unlocking?)
    && (s.worker.Storing? ==> |s.ring2| + 1 < s.capacity2)
    && (s.worker.Waking? ==> s.ring2 != [])
    && |s.ring2| < s.capacity2
  }

  /** The words in ring 1 are events. */
  ghost predicate HoldsEvents(q: seq<Ring.Element>) {
    forall i :: 0 <= i < |q| ==> q[i] == Words(FromWords(q[i]))
  }

  ghost predicate Inv(s: State) {
    && Ring.Inv(s.ring1) && s.ring1.width == 2 && HoldsEvents(Ring.Abs(s.ring1))
    && HandlerInv(s) && WorkerInv(s)
  }

  // ----- the atomic pipeline that the machine refines

  function EventsOf(q: seq<Ring.Element>): (es: seq<CaptureEvent>)
    ensures |es| == |q|
    ensures forall i :: 0 <= i < |q| ==> es[i] == FromWords(q[i])
  {
    seq(|q|, i requires 0 <= i < |q| => FromWords(q[i]))
  }

  /** What is where: in the handler's hand, in ring 1, held by the worker, in ring 2. */
  datatype View = View(
    hand: seq<(Source, CaptureEvent)>,
    sight: Ring.Sight,                               // what the handler's push saw of ring 1
    queue1: seq<CaptureEvent>,
    held: seq<CaptureEvent>, queue2: seq<EventBulkData>, counters: map<Source, nat>)

  ghost function ViewOf(s: State): View
    requires Ring.Shaped(s.ring1)
  {
    View(if s.handler.Pushing? then [(s.handler.source, s.handler.event)] else [],
         Ring.SightOf(s.ring1),
         EventsOf(Ring.Abs(s.ring1)),
         if s.worker.Locking? || s.worker.Testing? || s.worker.Storing? then [s.worker.event] else [],
         s.ring2, s.counters)
  }

  /**
  The labelled steps. A push looks at ring 1 once; the event is dropped exactly if the ring
  was full then, and an event is dropped at ring 2 exactly if that is full.
  */
  ghost predicate ViewStep(v: View, l: Label, v': View, capacity1: nat, capacity2: nat) {
    match l
    case Quiet =>
      v' == v || (v.hand != [] && v.sight.NotLooked? && v' == v.(sight := Ring.Look(|v.queue1|, capacity1)))
    case Accepted(source, e) =>
      && v.hand == [] && v.sight.NotLooked?
      && source in v.counters && e.event == (v.counters[source] + 1) % U64_MODULUS
      && v' == v.(hand := [(source, e)], counters := v.counters[source := e.event])
    case Captured =>
      && |v.hand| == 1 && v.sight.SawRoom? && |v.queue1| + 1 < capacity1
      && v' == v.(hand := [], sight := Ring.NotLooked, queue1 := v.queue1 + [v.hand[0].1])
    case DroppedAtCapture =>
      |v.hand| == 1 && v.sight.SawFull? && v' == v.(hand := [], sight := Ring.NotLooked)
    case Taken => v.held == [] && v.queue1 != [] && v' == v.(held := v.queue1[..1], queue1 := v.queue1[1..])
    case Stored =>
      && |v.held| == 1 && |v.queue2| + 1 < capacity2
      && v' == v.(held := [], queue2 := v.queue2 + [Expand(v.held[0])])
    case DroppedAtBulk => |v.held| == 1 && |v.queue2| + 1 == capacity2 && v' == v.(held := [])
    case Delivered(rs) =>
      && |rs| <= |v.queue2| && rs == v.queue2[..|rs|] && v' == v.(queue2 := v.queue2[|rs|..])
      && (rs != [] ==> |v.queue2| + 1 < capacity2)
  }

  /** The step leads to a sound state and is the labelled step of the atomic pipeline. */
  ghost predicate Refined(s: State, l: Label, s': State)
    requires Ring.Shaped(s.ring1)
  {
    && Inv(s') && s'.capacity2 == s.capacity2 && s'.ring1.Capacity() == s.ring1.Capacity()
    && ViewStep(ViewOf(s), l, ViewOf(s'), s.ring1.Capacity(), s.capacity2)
  }

  lemma AcceptRefines(s: State, l: Label, s': State)
    requires Inv(s) && AcceptStep(s, l, s')
    ensures Refined(s, l, s')
  {
  }

  lemma PushRefines(s: State, l: Label, s': State)
    requires Inv(s) && PushStep(s, l, s')
    ensures Refined(s, l, s')
  {
    Ring.ProducerRefines(s.ring1);
    if l == Captured {
      CaptureAppends(Ring.Abs(s.ring1), s.handler.event);
    }
  }

  lemma CaptureAppends(q: seq<Ring.Element>, e: CaptureEvent)
    ensures EventsOf(q + [Words(e)]) == EventsOf(q) + [e]
    ensures HoldsEvents(q) ==> HoldsEvents(q + [Words(e)])
  {
  }

  lemma FetchRefines(s: State, l: Label, s': State)
    requires Inv(s) && FetchStep(s, l, s')
    ensures Refined(s, l, s')
  {
    Ring.ConsumerRefines(s.ring1);
    var q, q' := Ring.Abs(s.ring1), Ring.Abs(s'.ring1);
    if l == Taken {
      assert q' == q[1..];
      assert EventsOf(q') == EventsOf(q)[1..];
      assert [FromWords(q[0])] == EventsOf(q)[..1];
    }
  }

  lemma WorkRefines(s: State, l: Label, s': State)
    requires Inv(s) && WorkStep(s, l, s')
    ensures Refined(s, l, s')
  {
    if s.worker.Fetching? {
      FetchRefines(s, l, s');
    }
  }

  lemma ReadRefines(s: State, l: Label, s': State, count: nat, fault: nat)
    requires Inv(s) && ReadStep(s, l, s', count, fault)
    ensures Refined(s, l, s')
  {
  }

  /** A step that leaves rings, worker and handler's hand alone. */
  ghost predicate SameTraffic(s: State, s': State) {
    && s'.ring1 == s.ring1 && s'.counters == s.counters && s'.worker == s.worker && s'.mutexHeld == s.mutexHeld
    && s'.ring2 == s.ring2 && s'.capacity2 == s.capacity2
    && (s'.handler == s.handler || (s.handler.Scheduling? && s'.handler.Idle?))
  }

  lemma SameTrafficRefines(s: State, s': State)
    requires Inv(s) && SameTraffic(s, s')
    ensures Refined(s, Quiet, s')
  {
  }

  lemma PollIsSameTraffic(s: State, l: Label, s': State, i: nat)
    requires PollStep(s, l, s', i)
    ensures l == Quiet && SameTraffic(s, s')
  {
  }

  lemma ScheduleRefines(s: State, l: Label, s': State)
    requires Inv(s) && (ScheduleStep(s, l, s') || ReleaseStep(s, l, s'))
    ensures Refined(s, l, s')
  {
    assert SameTraffic(s, s');
    SameTrafficRefines(s, s');
  }

  lemma PollRefines(s: State, l: Label, s': State, i: nat)
    requires Inv(s) && PollStep(s, l, s', i)
    ensures Refined(s, l, s')
  {
    PollIsSameTraffic(s, l, s', i);
    SameTrafficRefines(s, s');
  }

  /** Every step of the machine is the labelled step of the atomic pipeline. */
  lemma StepRefines(s: State, l: Label, s': State)
    requires Inv(s) && Next(s, l, s')
    ensures Refined(s, l, s')
  {
    if AcceptStep(s, l, s') {
      AcceptRefines(s, l, s');
    } else if PushStep(s, l, s') {
      PushRefines(s, l, s');
    } else if WorkStep(s, l, s') {
      WorkRefines(s, l, s');
    } else if count: nat, fault: nat :| ReadStep(s, l, s', count, fault) {
      ReadRefines(s, l, s', count, fault);
    } else if i: nat :| PollStep(s, l, s', i) {
      PollRefines(s, l, s', i);
    } else {
      ScheduleRefines(s, l, s');
    }
  }

  lemma InitKeepsInv(s: State)
    requires Init(s)
    ensures Inv(s) && ViewOf(s) == View([], Ring.NotLooked, [], [], [], s.counters)
  {
    forall source: Source ensures source in s.counters {
      match source
      case FromButton5 =>
      case FromButton6 =>
      case FromRocker =>
    }
  }
}
