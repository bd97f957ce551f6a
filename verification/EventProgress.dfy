/**
Where runs of the event pipeline lead: the work item finishes what was captured, events
that nobody reads pile up until ring 2 is full, and a full ring 2 stays as it is for ever.
*/
module EventProgress {
  import opened EventData
  import opened EventGuarantees
  import opened EventLedger
  import opened EventPipeline
  import opened Masking
  import Ring = SpscRing

  // ----- the work item gets to the end of its work

  /** Steps the work item has left in the event it is at. */
  function Rank(s: State): nat {
    match s.worker
    case Resting => 0
    case Locking(_) => 19
    case Testing(_) => 18
    case Storing(_) => 17
    case Waking => 16
    case Unlocking => 15
    case Fetching =>
      match s.ring1.consumer
      case FrontLoad => 14
      case FrontTest(_) => 13
      case CopyOut(_, got) => if |got| <= 2 then 12 - |got| else 10
      case PopLoad(_) => 9
      case PopTest(_, _) => 8
      case PopStore(_, _) => 7
  }

  /** Bounds the steps of the work item if nothing more is captured. */
  ghost function WorkLeft(s: State): nat
    requires Ring.Shaped(s.ring1)
  {
    20 * |Ring.Abs(s.ring1)| + Rank(s) + (if s.scheduled then 20 else 0)
  }

  lemma FetchReducesWork(s: State, l: Label, s': State)
    requires Inv(s) && s.worker.Fetching? && FetchStep(s, l, s')
    ensures Ring.Shaped(s'.ring1) && WorkLeft(s') < WorkLeft(s)
  {
    Ring.ConsumerRefines(s.ring1);
  }

  lemma WorkReducesWork(s: State, l: Label, s': State)
    requires Inv(s) && WorkStep(s, l, s')
    ensures Ring.Shaped(s'.ring1) && WorkLeft(s') < WorkLeft(s)
  {
    if s.worker.Fetching? {
      FetchReducesWork(s, l, s');
    }
  }

  ghost predicate WorkerCanStep(s: State) {
    exists l, s' :: WorkStep(s, l, s')
  }

  /** The mutex never stops the work item for good: only it holds the mutex between steps. */
  lemma WorkerMoves(s: State)
    requires Inv(s)
    ensures WorkerCanStep(s) <==> s.scheduled || !s.worker.Resting?
  {
    var space := |s.ring2| + 1 < s.capacity2;
    match s.worker
    case Resting =>
      if s.scheduled {
        assert WorkStep(s, Quiet, s.(scheduled := false, worker := Fetching));
      }
    case Fetching => FetcherMoves(s);
    case Locking(e) => assert WorkStep(s, Quiet, s.(mutexHeld := true, worker := Testing(e)));
    case Testing(e) =>
      assert if space then WorkStep(s, Quiet, s.(worker := Storing(e)))
             else WorkStep(s, DroppedAtBulk, s.(worker := Unlocking));
    case Storing(e) =>
      assert WorkStep(s, Stored, s.(ring2 := s.ring2 + [Expand(e)], worker := Waking));
    case Waking => assert WorkStep(s, Quiet, s.(pollers := WakeAll(s.pollers), worker := Unlocking));
    case Unlocking => assert WorkStep(s, Quiet, s.(mutexHeld := false, worker := Fetching));
  }

  lemma FetcherMoves(s: State)
    requires Inv(s) && s.worker.Fetching?
    ensures WorkerCanStep(s)
  {
    var (r, rl) := Ring.ConsumerStep(s.ring1);
    var worker := match rl
                  case SeenEmpty => Resting
                  case Dequeue(w) => Locking(FromWords(w))
                  case Phantom(w) => Locking(FromWords(w))
                  case _ => Fetching;
    var s' := s.(ring1 := r, worker := worker);
    var l := if rl.Dequeue? || rl.Phantom? then Taken else Quiet;
    assert FetchStep(s, l, s');
    assert WorkStep(s, l, s');
  }

  /** Reads and polls give the work item nothing more to do. */
  lemma ReadLeavesWork(s: State, l: Label, s': State, count: nat, fault: nat)
    requires Inv(s) && ReadStep(s, l, s', count, fault)
    ensures Ring.Shaped(s'.ring1) && WorkLeft(s') == WorkLeft(s)
  {
  }

  lemma PollLeavesWork(s: State, l: Label, s': State, i: nat)
    requires Inv(s) && PollStep(s, l, s', i)
    ensures Ring.Shaped(s'.ring1) && WorkLeft(s') == WorkLeft(s)
  {
    assert s'.ring1 == s.ring1 && s'.worker == s.worker && s'.scheduled == s.scheduled;
  }

  /**
  In every reachable state: unless ring 1 is empty or a handler is about to schedule, the
  work item can take a step; every step it takes brings it nearer to an empty ring, and no
  read or poll sets it back.
  */
  lemma CapturedEventsGetTaken(states: seq<State>, labels: seq<Label>, n: nat)
    requires Run(states, labels) && n <= |labels|
    ensures Inv(states[n])
    ensures Ring.Abs(states[n].ring1) != [] ==> WorkerCanStep(states[n]) || states[n].handler.Scheduling?
    ensures forall l, s' :: WorkStep(states[n], l, s') ==> Ring.Shaped(s'.ring1) && WorkLeft(s') < WorkLeft(states[n])
    ensures forall l, s', count: nat, fault: nat :: ReadStep(states[n], l, s', count, fault) ==>
              Ring.Shaped(s'.ring1) && WorkLeft(s') == WorkLeft(states[n])
    ensures forall l, s', i: nat :: PollStep(states[n], l, s', i) ==>
              Ring.Shaped(s'.ring1) && WorkLeft(s') == WorkLeft(states[n])
  {
    EveryRunIsResponsive(states, labels, n);
    var s := states[n];
    WorkerMoves(s);
    forall l, s' | WorkStep(s, l, s') ensures Ring.Shaped(s'.ring1) && WorkLeft(s') < WorkLeft(s) {
      WorkReducesWork(s, l, s');
    }
    forall l, s', count: nat, fault: nat | ReadStep(s, l, s', count, fault)
      ensures Ring.Shaped(s'.ring1) && WorkLeft(s') == WorkLeft(s)
    {
      ReadLeavesWork(s, l, s', count, fault);
    }
    forall l, s', i: nat | PollStep(s, l, s', i) ensures Ring.Shaped(s'.ring1) && WorkLeft(s') == WorkLeft(s) {
      PollLeavesWork(s, l, s', i);
    }
  }

  lemma PushLeavesWork(s: State, l: Label, s': State)
    requires Inv(s) && PushStep(s, l, s') && l != Captured
    ensures Ring.Shaped(s'.ring1) && WorkLeft(s') == WorkLeft(s)
  {
    Ring.ProducerRefines(s.ring1);
  }

  lemma AcceptLeavesWork(s: State, l: Label, s': State)
    requires Inv(s) && AcceptStep(s, l, s')
    ensures Ring.Shaped(s'.ring1) && WorkLeft(s') == WorkLeft(s)
  {
    assert Ring.Abs(s'.ring1) == Ring.Abs(s.ring1);
  }

  /** Step `i` neither captures an event nor schedules the work item. */
  ghost predicate Undisturbed(states: seq<State>, labels: seq<Label>, i: nat)
    requires i < |labels| && |states| == |labels| + 1
  {
    labels[i] != Captured && !ScheduleStep(states[i], labels[i], states[i + 1])
  }

  /** The work item's steps among the steps from `m` up to, not including, `n`. */
  ghost function WorkSteps(states: seq<State>, labels: seq<Label>, m: nat, n: nat): nat
    requires m <= n <= |labels| && |states| == |labels| + 1
    decreases n
  {
    if n == m then 0
    else WorkSteps(states, labels, m, n - 1) + (if WorkStep(states[n - 1], labels[n - 1], states[n]) then 1 else 0)
  }

  lemma UndisturbedStep(s: State, l: Label, s': State)
    requires Inv(s) && Next(s, l, s') && l != Captured && !ScheduleStep(s, l, s')
    ensures Ring.Shaped(s'.ring1) && WorkLeft(s') <= WorkLeft(s)
    ensures WorkStep(s, l, s') ==> WorkLeft(s') < WorkLeft(s)
  {
    if WorkStep(s, l, s') {
      WorkReducesWork(s, l, s');
    } else if PushStep(s, l, s') {
      PushLeavesWork(s, l, s');
    } else if AcceptStep(s, l, s') {
      AcceptLeavesWork(s, l, s');
    } else if count: nat, fault: nat :| ReadStep(s, l, s', count, fault) {
      ReadLeavesWork(s, l, s', count, fault);
    } else if i: nat :| PollStep(s, l, s', i) {
      PollLeavesWork(s, l, s', i);
    } else {
      assert s'.ring1 == s.ring1 && s'.worker == s.worker && s'.scheduled == s.scheduled;
    }
  }

  ghost predicate WorkBounded(states: seq<State>, labels: seq<Label>, m: nat, n: nat)
    requires m <= n <= |labels| && |states| == |labels| + 1
  {
    && Inv(states[m]) && Inv(states[n])
    && WorkSteps(states, labels, m, n) + WorkLeft(states[n]) <= WorkLeft(states[m])
  }

  lemma WorkBoundedNext(states: seq<State>, labels: seq<Label>, m: nat, n: nat)
    requires Run(states, labels) && m <= n < |labels| && WorkBounded(states, labels, m, n)
    requires Undisturbed(states, labels, n)
    ensures WorkBounded(states, labels, m, n + 1)
  {
    assert StepAt(states, labels, n);
    StepRefines(states[n], labels[n], states[n + 1]);
    UndisturbedStep(states[n], labels[n], states[n + 1]);
  }

  lemma {:induction false} WorkStaysBounded(states: seq<State>, labels: seq<Label>, m: nat, n: nat)
    requires Run(states, labels) && m <= n <= |labels|
    requires forall i: nat :: m <= i < n ==> Undisturbed(states, labels, i)
    ensures WorkBounded(states, labels, m, n)
    decreases n
  {
    if n == m {
      EveryRunIsResponsive(states, labels, m);
    } else {
      WorkStaysBounded(states, labels, m, n - 1);
      WorkBoundedNext(states, labels, m, n - 1);
    }
  }

  /**
  In a stretch of a run with no capture and no scheduling, whatever readers, pollers and
  the release do in between, the work item takes at most `WorkLeft` steps; and once it
  rests with nothing scheduled or about to be, ring 1 is empty.
  */
  lemma WorkItemFinishes(states: seq<State>, labels: seq<Label>, m: nat, n: nat)
    requires Run(states, labels) && m <= n <= |labels|
    requires forall i: nat :: m <= i < n ==> Undisturbed(states, labels, i)
    ensures Inv(states[m]) && Inv(states[n])
    ensures WorkSteps(states, labels, m, n) <= WorkLeft(states[m]) - WorkLeft(states[n])
    ensures !WorkerCanStep(states[n]) && !states[n].handler.Scheduling? ==> Ring.Abs(states[n].ring1) == []
  {
    WorkStaysBounded(states, labels, m, n);
    EveryRunIsResponsive(states, labels, n);
    WorkerMoves(states[n]);
  }

  // ----- ring 2 does fill up

  /** A run made one step longer. */
  lemma Extend(states: seq<State>, labels: seq<Label>, l: Label, s': State)
    returns (states': seq<State>, labels': seq<Label>)
    requires Run(states, labels) && Next(states[|labels|], l, s')
    ensures Run(states', labels') && states' == states + [s'] && labels' == labels + [l]
  {
    states', labels' := states + [s'], labels + [l];
    forall i | 0 <= i < |labels'| ensures StepAt(states', labels', i) {
      assert i < |labels| ==> StepAt(states, labels, i);
    }
  }

  /** The handler is idle and the work item has nothing to do. */
  ghost predicate AtRest(s: State) {
    && Inv(s) && s.handler.Idle? && s.worker.Resting? && !s.scheduled
    && Ring.Abs(s.ring1) == []
  }

  /** The events and records on their way to a user. */
  ghost function InSystem(s: State): nat
    requires Ring.Shaped(s.ring1)
  {
    var v := ViewOf(s);
    |v.queue1| + |v.held| + |v.queue2|
  }

  /** A work step with room for everything in ring 2 loses nothing. */
  lemma WorkKeepsAll(s: State, l: Label, s': State)
    requires Inv(s) && WorkStep(s, l, s') && InSystem(s) < s.capacity2
    ensures Inv(s') && s'.capacity2 == s.capacity2 && s'.handler == s.handler && InSystem(s') == InSystem(s)
    ensures s'.ring1.Capacity() == s.ring1.Capacity()
  {
    WorkRefines(s, l, s');
    WorkKeepsPush(s, l, s');
  }

  /** Left to itself the work item comes to rest with everything in ring 2. */
  lemma {:induction false} WorkToRest(states: seq<State>, labels: seq<Label>)
    returns (states': seq<State>, labels': seq<Label>)
    requires Run(states, labels) && Inv(states[|labels|])
    requires states[|labels|].handler.Idle? && InSystem(states[|labels|]) < states[|labels|].capacity2
    ensures Run(states', labels') && states'[0] == states[0]
    ensures var s, s' := states[|labels|], states'[|labels'|];
            && AtRest(s') && |s'.ring2| == InSystem(s)
            && s'.capacity2 == s.capacity2 && s'.ring1.Capacity() == s.ring1.Capacity()
    decreases WorkLeft(states[|labels|])
  {
    var s := states[|labels|];
    WorkerMoves(s);
    EveryRunIsResponsive(states, labels, |labels|);
    if WorkerCanStep(s) {
      var l, s' :| WorkStep(s, l, s');
      WorkReducesWork(s, l, s');
      WorkKeepsAll(s, l, s');
      states', labels' := Extend(states, labels, l, s');
      states', labels' := WorkToRest(states', labels');
    } else {
      states', labels' := states, labels;
    }
  }

  /** Steps that a push has left. */
  function PushLeft(s: State): nat {
    match s.ring1.producer
    case Ready => 0
    case LoadHead(_) => 5
    case LoadTail(_, _) => 4
    case TestSpace(_, _, _) => 3
    case CopyIn(_, _, done) => if done <= 2 then 2 - done else 0
  }

  /** One step of a push into an empty ring with room. */
  lemma PushAdvances(s: State) returns (l: Label, s': State)
    requires Inv(s) && s.handler.Pushing? && Ring.Abs(s.ring1) == [] && s.ring1.Capacity() >= 2
    requires Ring.SightOf(s.ring1) != Ring.SawFull
    ensures PushStep(s, l, s') && Inv(s') && s'.ring1.Capacity() == s.ring1.Capacity()
    ensures s' == s.(ring1 := s'.ring1, handler := s'.handler) && s'.ring1.consumer == s.ring1.consumer
    ensures if l == Captured then s'.handler == Scheduling && |Ring.Abs(s'.ring1)| == 1
            else s'.handler == s.handler && Ring.Abs(s'.ring1) == [] && Ring.SightOf(s'.ring1) != Ring.SawFull
                 && PushLeft(s') < PushLeft(s)
  {
    var (r, rl) := Ring.ProducerStep(s.ring1);
    Ring.ProducerRefines(s.ring1);
    s' := s.(ring1 := r, handler := if rl.Silent? then s.handler else Scheduling);
    l := if rl.Enqueue? then Captured else if rl.Reject? then DroppedAtCapture else Quiet;
    PushRefines(s, l, s');
  }

  lemma {:induction false} PushToEnd(states: seq<State>, labels: seq<Label>)
    returns (states': seq<State>, labels': seq<Label>)
    requires Run(states, labels) && Inv(states[|labels|]) && states[|labels|].handler.Pushing?
    requires Ring.Abs(states[|labels|].ring1) == [] && states[|labels|].ring1.Capacity() >= 2
    requires Ring.SightOf(states[|labels|].ring1) != Ring.SawFull
    ensures Run(states', labels') && states'[0] == states[0]
    ensures var s, s' := states[|labels|], states'[|labels'|];
            && Inv(s') && s' == s.(ring1 := s'.ring1, handler := Scheduling)
            && |Ring.Abs(s'.ring1)| == 1 && s'.ring1.Capacity() == s.ring1.Capacity()
    decreases PushLeft(states[|labels|])
  {
    var l, s' := PushAdvances(states[|labels|]);
    states', labels' := Extend(states, labels, l, s');
    if l != Captured {
      states', labels' := PushToEnd(states', labels');
    }
  }

  /** From rest, one accepted event makes its way into ring 2. */
  lemma OneMoreRecord(states: seq<State>, labels: seq<Label>) returns (states': seq<State>, labels': seq<Label>)
    requires Run(states, labels) && AtRest(states[|labels|])
    requires states[|labels|].ring1.Capacity() >= 2 && |states[|labels|].ring2| + 1 < states[|labels|].capacity2
    ensures Run(states', labels') && states'[0] == states[0]
    ensures var s, s' := states[|labels|], states'[|labels'|];
            && AtRest(s') && |s'.ring2| == |s.ring2| + 1
            && s'.capacity2 == s.capacity2 && s'.ring1.Capacity() == s.ring1.Capacity()
  {
    var s := states[|labels|];
    var e := CaptureEvent(BUTTON_5, (s.counters[FromButton5] + 1) % U64_MODULUS);
    var l := Accepted(FromButton5, e);
    var s1 := s.(counters := s.counters[FromButton5 := e.event], handler := Pushing(FromButton5, e),
                 ring1 := s.ring1.(producer := Ring.LoadHead(Words(e))));
    assert AcceptStep(s, l, s1);
    AcceptRefines(s, l, s1);
    assert Ring.Abs(s1.ring1) == [];
    states', labels' := Extend(states, labels, l, s1);
    states', labels' := PushToEnd(states', labels');
    var s2 := states'[|labels'|];
    var s3 := s2.(scheduled := true, handler := Idle);
    assert ScheduleStep(s2, Quiet, s3);
    ScheduleRefines(s2, Quiet, s3);
    states', labels' := Extend(states', labels', Quiet, s3);
    states', labels' := WorkToRest(states', labels');
  }

  lemma {:induction false} RecordsPileUp(s0: State, k: nat) returns (states: seq<State>, labels: seq<Label>)
    requires Init(s0) && s0.ring1.Capacity() >= 2 && k < s0.capacity2
    ensures Run(states, labels) && states[0] == s0 && AtRest(states[|labels|])
    ensures |states[|labels|].ring2| == k
    ensures states[|labels|].capacity2 == s0.capacity2 && states[|labels|].ring1.Capacity() == s0.ring1.Capacity()
    decreases k
  {
    if k == 0 {
      states, labels := [s0], [];
      InitKeepsInv(s0);
    } else {
      states, labels := RecordsPileUp(s0, k - 1);
      states, labels := OneMoreRecord(states, labels);
    }
  }

  /** The state after `gpio_oled_irq_init`, with 8 and 16 slots. */
  function Shipped(pollers: seq<Poller>): State {
    State(Ring.State(2, 0, 0, seq(8, i => [0, 0]), Ring.Ready, Ring.FrontLoad), Idle,
          map[FromButton5 := 0, FromButton6 := 0, FromRocker := 0], false, Resting, false, [], 16, true, 0, pollers)
  }

  /** A run of the shipped system, with 8 and 16 slots, that ends with ring 2 full. */
  lemma RingTwoFillsUp() returns (states: seq<State>, labels: seq<Label>)
    ensures Run(states, labels) && states[0] == Shipped([])
    ensures Full(states[|labels|]) && |states[|labels|].ring2| == 15
  {
    var s0 := Shipped([]);
    assert Pow2(3) == 8 && Pow2(4) == 16;
    assert Ring.Shaped(s0.ring1) && Init(s0);
    states, labels := RecordsPileUp(s0, 15);
  }

  // ----- what a read gives

  /**
  In every reachable state a read can be made as soon as the mutex is free. A request for no
  more than is held, without a fault, gets exactly that many of the oldest records unless
  ring 2 is full; a malformed one, or any on a full ring, nothing; and one that asks for more
  or meets a fault removes what was copied until then.
  */
  lemma ReadsDeliver(states: seq<State>, labels: seq<Label>, n: nat, count: nat, fault: nat)
    requires Run(states, labels) && n <= |labels|
    ensures var s := states[n];
            (exists l, s' :: ReadStep(s, l, s', count, fault)) <==> !s.mutexHeld
    ensures forall l, s' :: ReadStep(states[n], l, s', count, fault) ==>
              var held, full := |states[n].ring2|, |states[n].ring2| == states[n].capacity2 - 1;
              var taken := if count % 96 != 0 || full then 0
                           else if count / 96 <= held && count / 96 <= fault then count / 96
                           else if held <= fault then held else fault;
              l == Delivered(states[n].ring2[..taken]) && s' == states[n].(ring2 := states[n].ring2[taken..])
  {
    RunKeepsSound(states, labels, n);
    var s := states[n];
    ReadGoes(count, |s.ring2|, s.capacity2, fault);
    var taken := Read(count, |s.ring2|, s.capacity2, fault).taken;
    if !s.mutexHeld {
      assert ReadStep(s, Delivered(s.ring2[..taken]), s.(ring2 := s.ring2[taken..]), count, fault);
    }
  }

  // ----- a full ring 2 is frozen

  predicate Full(s: State) {
    |s.ring2| + 1 == s.capacity2
  }

  /** Neither the work item nor any read changes a full ring 2; reads give nothing. */
  lemma FullStepChangesNothing(s: State, l: Label, s': State)
    requires Inv(s) && Full(s) && Next(s, l, s')
    ensures Inv(s') && s'.ring2 == s.ring2 && s'.capacity2 == s.capacity2
    ensures l.Delivered? ==> l.records == []
    ensures !l.Stored?
  {
    StepRefines(s, l, s');
  }

  ghost predicate StillFull(states: seq<State>, labels: seq<Label>, m: nat, n: nat)
    requires m <= n <= |labels| && |states| == |labels| + 1
  {
    && Inv(states[n]) && Full(states[n]) && states[n].ring2 == states[m].ring2
    && Output(labels, n) == Output(labels, m)
  }

  lemma StillFullStart(states: seq<State>, labels: seq<Label>, m: nat)
    requires Run(states, labels) && m <= |labels| && Full(states[m])
    ensures StillFull(states, labels, m, m)
  {
    EveryRunIsResponsive(states, labels, m);
  }

  lemma StillFullNext(states: seq<State>, labels: seq<Label>, m: nat, n: nat)
    requires Run(states, labels) && m <= n < |labels| && StillFull(states, labels, m, n)
    ensures StillFull(states, labels, m, n + 1)
  {
    assert StepAt(states, labels, n);
    FullStepChangesNothing(states[n], labels[n], states[n + 1]);
  }

  /** Once full, always full: the ring keeps its records and nothing is delivered from then on. */
  lemma {:induction false} FullForEver(states: seq<State>, labels: seq<Label>, m: nat, n: nat)
    requires Run(states, labels) && m <= n <= |labels| && Full(states[m])
    ensures StillFull(states, labels, m, n)
    ensures states[n].ring2 == states[m].ring2 && Output(labels, n) == Output(labels, m)
    decreases n
  {
    if n == m {
      StillFullStart(states, labels, m);
    } else {
      FullForEver(states, labels, m, n - 1);
      StillFullNext(states, labels, m, n - 1);
    }
  }
}
