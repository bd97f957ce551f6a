/**
What the event pipeline guarantees beyond conservation, in every reachable state: no
wake-up is lost, no captured event is left without a scheduled work item, and each
handler's numbers arrive in order and add up.
*/
module EventGuarantees {
  import opened EventData
  import opened EventLedger
  import opened EventPipeline
  import Ring = SpscRing

  // ----- waking pollers and scheduling work

  /** Past its test and not woken, so that only a wake-up to come can help it. */
  predicate Waiting(p: Poller) {
    p == Deciding(false) || p == Sleeping(false)
  }

  /** Nothing to report, or the one who changed that has yet to wake the queue. */
  ghost predicate MayWait(s: State) {
    (s.ring2 == [] || s.worker.Waking?) && (s.pollEnabled || s.releasing > 0)
  }

  ghost predicate NoLostWake(s: State) {
    forall i :: 0 <= i < |s.pollers| && Waiting(s.pollers[i]) ==> MayWait(s)
  }

  /** An event in ring 1 has a work item pending or running, or a handler about to schedule it. */
  ghost predicate NoStrandedEvent(s: State)
    requires Ring.Shaped(s.ring1)
  {
    Ring.Abs(s.ring1) != [] ==> s.scheduled || !s.worker.Resting? || s.handler.Scheduling?
  }

  lemma StepKeepsWakes(s: State, l: Label, s': State)
    requires Inv(s) && NoLostWake(s) && Next(s, l, s')
    ensures NoLostWake(s')
  {
    if count: nat, fault: nat :| ReadStep(s, l, s', count, fault) {
    } else if i: nat :| PollStep(s, l, s', i) {
      PollKeepsWakes(s, l, s', i);
    } else if ReleaseStep(s, l, s') {
      ReleaseKeepsWakes(s, l, s');
    } else if WorkStep(s, l, s') {
      WorkKeepsWakes(s, l, s');
    }
  }

  /** Why poll must register before it tests: a caller that starts waiting found nothing. */
  lemma PollKeepsWakes(s: State, l: Label, s': State, i: nat)
    requires Inv(s) && NoLostWake(s) && PollStep(s, l, s', i)
    ensures NoLostWake(s')
  {
    forall j | 0 <= j < |s'.pollers| && Waiting(s'.pollers[j]) ensures MayWait(s') {
      if j == i {
        assert s.pollers[i].Asking? || s.pollers[i] == Deciding(false);
      } else {
        assert Waiting(s.pollers[j]);
      }
    }
  }

  lemma ReleaseKeepsWakes(s: State, l: Label, s': State)
    requires Inv(s) && NoLostWake(s) && ReleaseStep(s, l, s')
    ensures NoLostWake(s')
  {
  }

  lemma WorkKeepsWakes(s: State, l: Label, s': State)
    requires Inv(s) && NoLostWake(s) && WorkStep(s, l, s')
    ensures NoLostWake(s')
  {
  }

  lemma FetchKeepsScheduling(s: State, l: Label, s': State)
    requires Inv(s) && NoStrandedEvent(s) && FetchStep(s, l, s') && Ring.Shaped(s'.ring1)
    ensures NoStrandedEvent(s')
  {
    Ring.ConsumerRefines(s.ring1);
  }

  lemma PushKeepsScheduling(s: State, l: Label, s': State)
    requires Inv(s) && NoStrandedEvent(s) && PushStep(s, l, s') && Ring.Shaped(s'.ring1)
    ensures NoStrandedEvent(s')
  {
    Ring.ProducerRefines(s.ring1);
  }

  /** The same queue in ring 1, and if someone was to see to it someone still is. */
  predicate StillTended(s: State, s': State) {
    && s'.ring1.slots == s.ring1.slots && s'.ring1.head == s.ring1.head && s'.ring1.tail == s.ring1.tail
    && (s.scheduled || !s.worker.Resting? || s.handler.Scheduling?
        ==> s'.scheduled || !s'.worker.Resting? || s'.handler.Scheduling?)
  }

  lemma WorkStillTends(s: State, l: Label, s': State)
    requires WorkStep(s, l, s') && !s.worker.Fetching?
    ensures StillTended(s, s')
  {
  }

  lemma PollStillTends(s: State, l: Label, s': State, i: nat)
    requires PollStep(s, l, s', i)
    ensures StillTended(s, s')
  {
  }

  lemma OtherKeepsScheduling(s: State, l: Label, s': State)
    requires Inv(s) && NoStrandedEvent(s) && Next(s, l, s') && Ring.Shaped(s'.ring1)
    requires !PushStep(s, l, s') && !FetchStep(s, l, s')
    ensures NoStrandedEvent(s')
  {
    if WorkStep(s, l, s') {
      WorkStillTends(s, l, s');
    } else if i: nat :| PollStep(s, l, s', i) {
      PollStillTends(s, l, s', i);
    } else {
      assert StillTended(s, s');
    }
  }

  lemma StepKeepsScheduling(s: State, l: Label, s': State)
    requires Inv(s) && NoStrandedEvent(s) && Next(s, l, s')
    ensures Inv(s') && NoStrandedEvent(s')
  {
    StepRefines(s, l, s');
    if FetchStep(s, l, s') {
      FetchKeepsScheduling(s, l, s');
    } else if PushStep(s, l, s') {
      PushKeepsScheduling(s, l, s');
    } else {
      OtherKeepsScheduling(s, l, s');
    }
  }

  ghost predicate Responsive(s: State) {
    Inv(s) && NoLostWake(s) && NoStrandedEvent(s)
  }

  lemma StepKeepsResponsive(s: State, l: Label, s': State)
    requires Responsive(s) && Next(s, l, s')
    ensures Responsive(s')
  {
    StepKeepsWakes(s, l, s');
    StepKeepsScheduling(s, l, s');
  }

  lemma InitResponsive(s: State)
    requires Init(s)
    ensures Responsive(s)
  {
    InitKeepsInv(s);
  }

  /** In every state of every run: no lost wake-up, no stranded event. */
  lemma {:induction false} EveryRunIsResponsive(states: seq<State>, labels: seq<Label>, n: nat)
    requires Run(states, labels) && n <= |labels|
    ensures Responsive(states[n])
    ensures var s := states[n];
            forall i :: 0 <= i < |s.pollers| && (s.pollers[i] == Deciding(false) || s.pollers[i] == Sleeping(false)) ==>
              (s.ring2 == [] || s.worker.Waking?) && (s.pollEnabled || s.releasing > 0)
    ensures var s := states[n];
            Ring.Abs(s.ring1) != [] ==> s.scheduled || !s.worker.Resting? || s.handler.Scheduling?
    decreases n
  {
    if n == 0 {
      InitResponsive(states[0]);
    } else {
      EveryRunIsResponsive(states, labels, n - 1);
      assert StepAt(states, labels, n - 1);
      StepKeepsResponsive(states[n - 1], labels[n - 1], states[n]);
    }
  }

  /**
  In every run a handler whose push is over, accepted or refused, is about to schedule the
  work item, and leaves off only by having scheduled it.
  */
  lemma EveryPushSchedules(states: seq<State>, labels: seq<Label>, n: nat)
    requires Run(states, labels) && n < |labels|
    ensures labels[n] == Captured || labels[n] == DroppedAtCapture ==> states[n + 1].handler.Scheduling?
    ensures states[n].handler.Pushing? && !states[n + 1].handler.Pushing? ==>
              labels[n] == Captured || labels[n] == DroppedAtCapture
    ensures states[n].handler.Scheduling? && !states[n + 1].handler.Scheduling? ==>
              states[n + 1].handler.Idle? && states[n + 1].scheduled
  {
    RunKeepsSound(states, labels, n);
    assert StepAt(states, labels, n);
    PushSchedules(states[n], labels[n], states[n + 1]);
  }

  lemma PushSchedules(s: State, l: Label, s': State)
    requires Inv(s) && Next(s, l, s')
    ensures l == Captured || l == DroppedAtCapture ==> s'.handler.Scheduling?
    ensures s.handler.Pushing? && !s'.handler.Pushing? ==> l == Captured || l == DroppedAtCapture
    ensures s.handler.Scheduling? && !s'.handler.Scheduling? ==> s'.handler.Idle? && s'.scheduled
  {
    if WorkStep(s, l, s') {
      WorkKeepsPush(s, l, s');
    } else if i: nat :| PollStep(s, l, s', i) {
      PollKeepsPush(s, l, s', i);
    } else if PushStep(s, l, s') {
      Ring.ProducerRefines(s.ring1);
    }
  }

  // ----- what poll answers

  /** The release first forbids sleeping and then wakes every caller. */
  lemma ReleaseDisables(s: State, l: Label, s': State)
    requires ReleaseStep(s, l, s')
    ensures s'.releasing == s.releasing + 1 || s'.releasing == s.releasing - 1
    ensures s'.releasing > s.releasing ==> !s'.pollEnabled && s'.pollers == s.pollers
    ensures s'.releasing < s.releasing ==>
              && |s'.pollers| == |s.pollers|
              && forall i :: 0 <= i < |s.pollers| ==> s'.pollers[i] == Away || s'.pollers[i].woken
  {
  }

  lemma AskerIsAnswered(s: State, l: Label, s': State, i: nat)
    requires Inv(s) && Next(s, l, s') && i < |s.pollers| && s.pollers[i].Asking?
    ensures |s'.pollers| == |s.pollers|
    ensures match s'.pollers[i]
            case Asking(_) => true
            case Deciding(_) => s.ring2 == [] && s.pollEnabled && !s.mutexHeld
            case Away => (s.ring2 != [] || !s.pollEnabled) && !s.mutexHeld
            case Sleeping(_) => false
  {
    if k: nat :| PollStep(s, l, s', k) {
      PollMovesOne(s, l, s', k, i);
    } else if ReleaseStep(s, l, s') {
    } else if WorkStep(s, l, s') {
    } else {
      assert s'.pollers == s.pollers;
    }
  }

  lemma PollMovesOne(s: State, l: Label, s': State, k: nat, i: nat)
    requires PollStep(s, l, s', k) && i < |s.pollers| && s.pollers[i].Asking?
    ensures |s'.pollers| == |s.pollers|
    ensures if k != i then s'.pollers[i] == s.pollers[i]
            else !s.mutexHeld && s'.pollers[i] == if s.ring2 != [] || !s.pollEnabled then Away
                                                  else Deciding(s.pollers[i].woken)
  {
  }

  /**
  In every run a caller of poll gets away from its test only under the mutex: with an answer
  exactly when ring 2 held a record or polling was released, else on its way to sleep.
  */
  lemma PollAnswers(states: seq<State>, labels: seq<Label>, n: nat, i: nat)
    requires Run(states, labels) && n < |labels| && i < |states[n].pollers| && states[n].pollers[i].Asking?
    ensures |states[n + 1].pollers| == |states[n].pollers|
    ensures !states[n + 1].pollers[i].Asking? ==>
              && !states[n].mutexHeld
              && if states[n].ring2 != [] || !states[n].pollEnabled then states[n + 1].pollers[i] == Away
                 else states[n + 1].pollers[i].Deciding?
  {
    RunKeepsSound(states, labels, n);
    assert StepAt(states, labels, n);
    AskerIsAnswered(states[n], labels[n], states[n + 1], i);
  }

  // ----- each handler's numbers

  lemma StepNumbers(s: State, l: Label, s': State)
    requires Inv(s) && Next(s, l, s')
    ensures l.Accepted? ==> l.source in s.counters && AcceptStep(s, l, s')
    ensures s'.counters == if l.Accepted? then s.counters[l.source := l.event.event] else s.counters
  {
    StepRefines(s, l, s');
    if !l.Accepted? {
      assert ViewOf(s').counters == ViewOf(s).counters;
    }
  }

  /**
  In every run every handler counts from 0 in steps of 1, in 64 bits, and gives each event it
  accepts its next number; the two buttons report themselves as 0 and 1.
  */
  lemma EventsAreNumbered(states: seq<State>, labels: seq<Label>, n: nat)
    requires Run(states, labels) && n < |labels|
    ensures states[0].counters == map[FromButton5 := 0, FromButton6 := 0, FromRocker := 0]
    ensures labels[n].Accepted? ==>
              var (source, e) := (labels[n].source, labels[n].event);
              && source in states[n].counters
              && e.event == (states[n].counters[source] + 1) % 0x1_0000_0000_0000_0000
              && states[n + 1].counters == states[n].counters[source := e.event]
              && (source.FromButton5? ==> e.button == 0) && (source.FromButton6? ==> e.button == 1)
    ensures !labels[n].Accepted? ==> states[n + 1].counters == states[n].counters
  {
    RunKeepsSound(states, labels, n);
    assert StepAt(states, labels, n);
    StepNumbers(states[n], labels[n], states[n + 1]);
  }

  ghost predicate ButtonAt(accepted: seq<(Source, CaptureEvent)>, id: nat) {
    id < |accepted| ==>
      && (accepted[id].0.FromButton5? ==> accepted[id].1.button == 0)
      && (accepted[id].0.FromButton6? ==> accepted[id].1.button == 1)
  }

  lemma {:induction false} AcceptedButtons(states: seq<State>, labels: seq<Label>, n: nat, id: nat)
    requires Run(states, labels) && n <= |labels|
    ensures ButtonAt(HistoryOf(labels, n).accepted, id)
    decreases n
  {
    if n > 0 {
      AcceptedButtons(states, labels, n - 1, id);
      EventsAreNumbered(states, labels, n - 1);
    }
  }

  /** In every run a delivered record tells which of the two buttons it came from. */
  lemma DeliveredButtons(states: seq<State>, labels: seq<Label>, n: nat, i: nat)
    requires Run(states, labels) && n <= |labels| && i < |Output(labels, n)|
    ensures var h, out := HistoryOf(labels, n), Output(labels, n);
            && |h.delivered| == |out| && h.delivered[i] < |h.accepted|
            && out[i].captureEvent == h.accepted[h.delivered[i]].1
            && (h.accepted[h.delivered[i]].0.FromButton5? ==> out[i].captureEvent.button == 0)
            && (h.accepted[h.delivered[i]].0.FromButton6? ==> out[i].captureEvent.button == 1)
  {
    RunKeepsSound(states, labels, n);
    OutputIsRecorded(labels, n);
    var h := HistoryOf(labels, n);
    PlacesAreBounded(h, h.delivered);
    AcceptedButtons(states, labels, n, h.delivered[i]);
  }

  lemma {:induction false} CountGrows(accepted: seq<(Source, CaptureEvent)>, source: Source, i: nat, j: nat)
    requires i < j <= |accepted|
    ensures CountFrom(accepted, source, i) <= CountFrom(accepted, source, j)
    ensures accepted[i].0 == source ==> CountFrom(accepted, source, i) < CountFrom(accepted, source, j)
    decreases j
  {
    if i < j - 1 {
      CountGrows(accepted, source, i, j - 1);
    }
  }

  /** Two events of one handler are numbered in acceptance order while its counter has not wrapped. */
  lemma NumbersGrow(h: History, i: nat, j: nat)
    requires NumberedEvents(h.accepted) && i < j < |h.accepted|
    requires h.accepted[i].0 == h.accepted[j].0
    requires CountFrom(h.accepted, h.accepted[i].0, |h.accepted|) < U64_MODULUS
    ensures h.accepted[i].1.event < h.accepted[j].1.event
  {
    var source := h.accepted[i].0;
    CountGrows(h.accepted, source, i, j);
    CountGrows(h.accepted, source, j, |h.accepted|);
    assert NumberedAt(h.accepted, i) && NumberedAt(h.accepted, j);
  }

  /**
  Records `i` and `j` of what users got are the expansions of two accepted events, in
  acceptance order; if one handler made both and its counter has not wrapped, the numbers
  grow too.
  */
  ghost predicate InOrder(h: History, out: seq<EventBulkData>, i: nat, j: nat)
    requires i < j < |out|
  {
    && |out| == |h.delivered|
    && h.delivered[i] < h.delivered[j] < |h.accepted|
    && out[i] == Expand(h.accepted[h.delivered[i]].1) && out[j] == Expand(h.accepted[h.delivered[j]].1)
    && (h.accepted[h.delivered[i]].0 == h.accepted[h.delivered[j]].0
        && CountFrom(h.accepted, h.accepted[h.delivered[i]].0, |h.accepted|) < U64_MODULUS
        ==> out[i].captureEvent.event < out[j].captureEvent.event)
  }

  lemma DeliveredIds(h: History, i: nat, j: nat)
    requires Accounted(h) && i < j < |h.delivered|
    ensures h.delivered[i] < h.delivered[j] < |h.accepted|
  {
    FlowIsBounded(h);
    assert Flow(h)[i] == h.delivered[i] && Flow(h)[j] == h.delivered[j];
  }

  lemma LedgerIsInOrder(v: View, h: History, i: nat, j: nat)
    requires Ledger(v, h) && i < j < |h.output|
    ensures InOrder(h, h.output, i, j)
  {
    DeliveredIds(h, i, j);
    var source := h.accepted[h.delivered[i]].0;
    if source == h.accepted[h.delivered[j]].0 && CountFrom(h.accepted, source, |h.accepted|) < U64_MODULUS {
      NumbersGrow(h, h.delivered[i], h.delivered[j]);
    }
  }

  /** In every run, any two delivered records are in order. */
  lemma DeliveredInOrder(states: seq<State>, labels: seq<Label>, n: nat, i: nat, j: nat)
    requires Run(states, labels) && n <= |labels|
    requires i < j < |Output(labels, n)|
    ensures InOrder(HistoryOf(labels, n), Output(labels, n), i, j)
    ensures var h, out := HistoryOf(labels, n), Output(labels, n);
            && h.delivered[i] < h.delivered[j] < |h.accepted|
            && out[i] == Expand(h.accepted[h.delivered[i]].1) && out[j] == Expand(h.accepted[h.delivered[j]].1)
  {
    RunKeepsSound(states, labels, n);
    OutputIsRecorded(labels, n);
    LedgerIsInOrder(ViewOf(states[n]), HistoryOf(labels, n), i, j);
  }

  /** The ids of a set that came from one handler. */
  function OfSource(h: History, source: Source, ids: set<nat>): set<nat> {
    set id | id in ids && id < |h.accepted| && h.accepted[id].0 == source
  }

  function Pending(h: History): seq<nat> {
    h.ring2 + h.held + h.ring1 + h.hand
  }

  /** A handler's delivered, pending and dropped events. */
  function Balance(h: History, source: Source): nat {
    |OfSource(h, source, SetOf(h.delivered))| + |OfSource(h, source, SetOf(Pending(h)))|
    + |OfSource(h, source, h.lost1)| + |OfSource(h, source, h.lost2)|
  }

  lemma CountsAdd(h: History, source: Source, a: set<nat>, b: set<nat>)
    requires a !! b
    ensures |OfSource(h, source, a + b)| == |OfSource(h, source, a)| + |OfSource(h, source, b)|
  {
    assert OfSource(h, source, a + b) == OfSource(h, source, a) + OfSource(h, source, b);
    assert OfSource(h, source, a) !! OfSource(h, source, b);
  }

  lemma CountOfOne(h: History, source: Source, k: nat)
    requires k < |h.accepted|
    ensures |OfSource(h, source, {k})| == if h.accepted[k].0 == source then 1 else 0
  {
    assert OfSource(h, source, {k}) == if h.accepted[k].0 == source then {k} else {};
  }

  lemma {:induction false} CountIsCardinality(h: History, source: Source, n: nat)
    requires n <= |h.accepted|
    ensures CountFrom(h.accepted, source, n) == |OfSource(h, source, Ids(n))|
  {
    if n > 0 {
      CountIsCardinality(h, source, n - 1);
      CountsAdd(h, source, Ids(n - 1), {n - 1});
      CountOfOne(h, source, n - 1);
    }
  }

  lemma IncreasingSplits(front: seq<nat>, back: seq<nat>)
    requires Increasing(front + back)
    ensures SetOf(front + back) == SetOf(front) + SetOf(back)
    ensures SetOf(front) !! SetOf(back)
  {
    forall i, j | 0 <= i < |front| && 0 <= j < |back| ensures front[i] != back[j] {
      assert (front + back)[i] == front[i] && (front + back)[|front| + j] == back[j];
    }
  }

  /** A handler's accepted events are its delivered, pending and dropped ones, each counted once. */
  lemma SourceBalance(h: History, source: Source)
    requires Accounted(h)
    ensures CountFrom(h.accepted, source, |h.accepted|) == Balance(h, source)
  {
    CountIsCardinality(h, source, |h.accepted|);
    assert Flow(h) == h.delivered + Pending(h);
    IncreasingSplits(h.delivered, Pending(h));
    var flow := SetOf(Flow(h));
    CountsAdd(h, source, SetOf(h.delivered), SetOf(Pending(h)));
    CountsAdd(h, source, flow, h.lost1);
    CountsAdd(h, source, flow + h.lost1, h.lost2);
  }

  lemma LedgerCounter(v: View, h: History, source: Source)
    requires Ledger(v, h)
    ensures source in v.counters && v.counters[source] == Balance(h, source) % U64_MODULUS
  {
    SourceBalance(h, source);
  }

  /** In every run a handler's counter is, in 64 bits, its delivered, pending and dropped events. */
  lemma CounterAddsUp(states: seq<State>, labels: seq<Label>, n: nat, source: Source)
    requires Run(states, labels) && n <= |labels|
    ensures source in states[n].counters
    ensures states[n].counters[source] == Balance(HistoryOf(labels, n), source) % U64_MODULUS
  {
    RunKeepsSound(states, labels, n);
    LedgerCounter(ViewOf(states[n]), HistoryOf(labels, n), source);
  }
}
