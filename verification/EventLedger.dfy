/**
Conservation and order over whole runs of the event pipeline. A history gives every
accepted event the next id and follows the ids from the handler to the user; it reads
only the labels of the steps.
*/
module EventLedger {
  import opened EventData
  import opened EventPipeline
  import Ring = SpscRing

  datatype History = History(
    accepted: seq<(Source, CaptureEvent)>,           // in acceptance order; an id is an index
    hand: seq<nat>, ring1: seq<nat>, held: seq<nat>, ring2: seq<nat>, delivered: seq<nat>,
    lost1: set<nat>, lost2: set<nat>,                // dropped at either ring
    output: seq<EventBulkData>)                      // what the readers got

  const NOTHING_YET := History([], [], [], [], [], [], {}, {}, [])

  function SetOf(ids: seq<nat>): set<nat> {
    set id | id in ids
  }

  function Record(h: History, l: Label): History {
    match l
    case Quiet => h
    case Accepted(source, e) => h.(accepted := h.accepted + [(source, e)], hand := [|h.accepted|])
    case Captured => h.(ring1 := h.ring1 + h.hand, hand := [])
    case DroppedAtCapture => h.(lost1 := h.lost1 + SetOf(h.hand), hand := [])
    case Taken => if h.ring1 == [] then h else h.(held := h.ring1[..1], ring1 := h.ring1[1..])
    case Stored => h.(ring2 := h.ring2 + h.held, held := [])
    case DroppedAtBulk => h.(lost2 := h.lost2 + SetOf(h.held), held := [])
    case Delivered(rs) =>
      var n := Min(|rs|, |h.ring2|);
      h.(delivered := h.delivered + h.ring2[..n], ring2 := h.ring2[n..], output := h.output + rs)
  }

  /** The ids that are not lost, from the user back to the handler. */
  function Flow(h: History): seq<nat> {
    h.delivered + h.ring2 + h.held + h.ring1 + h.hand
  }

  ghost predicate Increasing(ids: seq<nat>) {
    forall i, j :: 0 <= i < j < |ids| ==> ids[i] < ids[j]
  }

  function Ids(n: nat): (ids: set<nat>)
    ensures forall i: nat :: i in ids <==> i < n
  {
    if n == 0 then {} else Ids(n - 1) + {n - 1}
  }

  /** Every id is in exactly one place, and the ids in flow are in acceptance order. */
  ghost predicate Accounted(h: History) {
    && Increasing(Flow(h))
    && SetOf(Flow(h)) + h.lost1 + h.lost2 == Ids(|h.accepted|)
    && SetOf(Flow(h)) !! h.lost1 && SetOf(Flow(h)) !! h.lost2 && h.lost1 !! h.lost2
  }

  function EventAt(accepted: seq<(Source, CaptureEvent)>, id: nat): CaptureEvent {
    if id < |accepted| then accepted[id].1 else CaptureEvent(0, 0)
  }

  function EventsAt(accepted: seq<(Source, CaptureEvent)>, ids: seq<nat>): (es: seq<CaptureEvent>)
    ensures |es| == |ids|
    ensures forall i :: 0 <= i < |ids| ==> es[i] == EventAt(accepted, ids[i])
  {
    seq(|ids|, i requires 0 <= i < |ids| => EventAt(accepted, ids[i]))
  }

  /** The ids stand for what is really in each place. */
  ghost predicate Faithful(v: View, h: History) {
    && |v.hand| == |h.hand| <= 1
    && (h.hand != [] ==> h.hand[0] < |h.accepted| && h.accepted[h.hand[0]] == v.hand[0])
    && v.queue1 == EventsAt(h.accepted, h.ring1)
    && v.held == EventsAt(h.accepted, h.held)
    && v.queue2 == ExpandAll(EventsAt(h.accepted, h.ring2))
    && h.output == ExpandAll(EventsAt(h.accepted, h.delivered))
  }

  /** How many of the first `n` accepted events came from `source`. */
  function CountFrom(accepted: seq<(Source, CaptureEvent)>, source: Source, n: nat): nat
    requires n <= |accepted|
  {
    if n == 0 then 0
    else CountFrom(accepted, source, n - 1) + (if accepted[n - 1].0 == source then 1 else 0)
  }

  ghost predicate NumberedAt(accepted: seq<(Source, CaptureEvent)>, k: nat)
    requires k < |accepted|
  {
    accepted[k].1.event == (CountFrom(accepted, accepted[k].0, k) + 1) % U64_MODULUS
  }

  /** Each handler numbers its own events 1, 2, 3, ... in 64 bits. */
  ghost predicate NumberedEvents(accepted: seq<(Source, CaptureEvent)>) {
    forall k :: 0 <= k < |accepted| ==> NumberedAt(accepted, k)
  }

  ghost predicate Numbered(v: View, h: History) {
    && NumberedEvents(h.accepted)
    && forall source: Source ::
         source in v.counters && v.counters[source] == CountFrom(h.accepted, source, |h.accepted|) % U64_MODULUS
  }

  ghost predicate Ledger(v: View, h: History) {
    Accounted(h) && Faithful(v, h) && Numbered(v, h)
  }

  // ----- order and completeness

  lemma FlowIsBounded(h: History)
    requires Accounted(h)
    ensures forall i :: 0 <= i < |Flow(h)| ==> Flow(h)[i] < |h.accepted|
  {
    forall i | 0 <= i < |Flow(h)| ensures Flow(h)[i] < |h.accepted| {
      assert Flow(h)[i] in SetOf(Flow(h));
      assert Flow(h)[i] in Ids(|h.accepted|);
    }
  }

  lemma AcceptKeepsAccount(h: History, source: Source, e: CaptureEvent)
    requires Accounted(h) && h.hand == []
    ensures Accounted(Record(h, Accepted(source, e)))
  {
    var h' := Record(h, Accepted(source, e));
    FlowIsBounded(h);
    assert Flow(h') == Flow(h) + [|h.accepted|];
    assert SetOf(Flow(h')) == SetOf(Flow(h)) + {|h.accepted|};
    assert Ids(|h'.accepted|) == Ids(|h.accepted|) + {|h.accepted|};
    assert |h.accepted| !in Ids(|h.accepted|);
  }

  lemma MoveAcross(front: seq<nat>, place: seq<nat>, moved: seq<nat>, back: seq<nat>)
    ensures front + (place + moved) + [] + back == front + place + moved + back
    ensures front + place + moved + back == front + (place + (moved + back))
  {
  }

  lemma DeliveryKeepsFlow(h: History, n: nat)
    requires n <= |h.ring2|
    ensures h.delivered + h.ring2 == h.delivered + h.ring2[..n] + h.ring2[n..]
  {
  }

  lemma TakeKeepsFlow(h: History)
    requires h.ring1 != [] && h.held == []
    ensures h.delivered + h.ring2 + h.held + h.ring1 == h.delivered + h.ring2 + h.ring1[..1] + h.ring1[1..]
  {
  }

  /** Moving on leaves the flow as it is. */
  lemma MoveKeepsFlow(h: History, l: Label)
    requires l.Captured? || l.Stored? || l.Delivered? || (l.Taken? && h.held == [])
    ensures Flow(Record(h, l)) == Flow(h)
  {
    match l
    case Captured => MoveAcross(h.delivered + h.ring2 + h.held, h.ring1, h.hand, []);
    case Stored => MoveAcross(h.delivered, h.ring2, h.held, h.ring1 + h.hand);
    case Delivered(rs) => DeliveryKeepsFlow(h, Min(|rs|, |h.ring2|));
    case Taken =>
      if h.ring1 != [] {
        TakeKeepsFlow(h);
      }
    case _ =>
  }

  /** Taking one id out of an increasing sequence. */
  lemma LoseOne(front: seq<nat>, id: nat, back: seq<nat>)
    requires Increasing(front + [id] + back)
    ensures Increasing(front + back)
    ensures SetOf(front + [id] + back) == SetOf(front + back) + {id}
    ensures id !in SetOf(front + back)
  {
    var all, kept := front + [id] + back, front + back;
    assert all[|front|] == id;
    forall i | 0 <= i < |kept| ensures kept[i] == all[if i < |front| then i else i + 1] {
    }
    assert forall i :: 0 <= i < |all| && i != |front| ==> all[i] == kept[if i < |front| then i else i - 1];
  }

  lemma DropKeepsAccount(h: History, l: Label)
    requires Accounted(h)
    requires (l.DroppedAtCapture? && |h.hand| == 1) || (l.DroppedAtBulk? && |h.held| == 1)
    ensures Accounted(Record(h, l))
  {
    if l.DroppedAtCapture? {
      var front := h.delivered + h.ring2 + h.held + h.ring1;
      assert Flow(h) == front + [h.hand[0]] + [];
      assert Flow(Record(h, l)) == front + [];
      assert SetOf(h.hand) == {h.hand[0]};
      LoseOne(front, h.hand[0], []);
    } else {
      var front, back := h.delivered + h.ring2, h.ring1 + h.hand;
      assert Flow(h) == front + [h.held[0]] + back;
      assert Flow(Record(h, l)) == front + back;
      assert SetOf(h.held) == {h.held[0]};
      LoseOne(front, h.held[0], back);
    }
  }

  lemma StepKeepsAccount(v: View, l: Label, v': View, h: History, capacity1: nat, capacity2: nat)
    requires Accounted(h) && Faithful(v, h) && ViewStep(v, l, v', capacity1, capacity2)
    ensures Accounted(Record(h, l))
  {
    match l
    case Quiet =>
    case Accepted(source, e) => AcceptKeepsAccount(h, source, e);
    case DroppedAtCapture => DropKeepsAccount(h, l);
    case DroppedAtBulk => DropKeepsAccount(h, l);
    case _ => MoveKeepsFlow(h, l);
  }

  // ----- the data behind the ids

  /** Later acceptances do not change what earlier ids stand for. */
  lemma EventsAreStable(accepted: seq<(Source, CaptureEvent)>, next: (Source, CaptureEvent), ids: seq<nat>)
    requires forall i :: 0 <= i < |ids| ==> ids[i] < |accepted|
    ensures EventsAt(accepted + [next], ids) == EventsAt(accepted, ids)
  {
  }

  lemma PlacesAreBounded(h: History, ids: seq<nat>)
    requires Accounted(h)
    requires ids == h.delivered || ids == h.ring2 || ids == h.held || ids == h.ring1
    ensures forall i :: 0 <= i < |ids| ==> ids[i] < |h.accepted|
  {
    FlowIsBounded(h);
    forall i | 0 <= i < |ids| ensures ids[i] in Flow(h) {
    }
  }

  lemma AcceptIsFaithful(v: View, l: Label, v': View, h: History, capacity1: nat, capacity2: nat)
    requires Accounted(h) && Faithful(v, h) && l.Accepted? && ViewStep(v, l, v', capacity1, capacity2)
    ensures Faithful(v', Record(h, l))
  {
    PlacesAreBounded(h, h.delivered);
    PlacesAreBounded(h, h.ring2);
    PlacesAreBounded(h, h.held);
    PlacesAreBounded(h, h.ring1);
    EventsAreStable(h.accepted, (l.source, l.event), h.delivered);
    EventsAreStable(h.accepted, (l.source, l.event), h.ring2);
    EventsAreStable(h.accepted, (l.source, l.event), h.held);
    EventsAreStable(h.accepted, (l.source, l.event), h.ring1);
  }

  lemma MoveIsFaithful(v: View, l: Label, v': View, h: History, capacity1: nat, capacity2: nat)
    requires Faithful(v, h) && !l.Accepted? && !l.Delivered? && ViewStep(v, l, v', capacity1, capacity2)
    ensures Faithful(v', Record(h, l))
  {
    var a := h.accepted;
    match l
    case Captured =>
      assert EventsAt(a, h.ring1 + h.hand) == EventsAt(a, h.ring1) + [v.hand[0].1];
    case Taken =>
      assert EventsAt(a, h.ring1[..1]) == EventsAt(a, h.ring1)[..1];
      assert EventsAt(a, h.ring1[1..]) == EventsAt(a, h.ring1)[1..];
    case Stored =>
      assert ExpandAll(EventsAt(a, h.ring2 + h.held)) == ExpandAll(EventsAt(a, h.ring2)) + [Expand(v.held[0])];
    case _ =>
  }

  lemma DeliveryIsFaithful(v: View, l: Label, v': View, h: History, capacity1: nat, capacity2: nat)
    requires Faithful(v, h) && l.Delivered? && ViewStep(v, l, v', capacity1, capacity2)
    ensures Faithful(v', Record(h, l))
  {
    var a, n := h.accepted, |l.records|;
    assert v'.queue2 == ExpandAll(EventsAt(a, h.ring2[n..]));
    assert h.output + l.records == ExpandAll(EventsAt(a, h.delivered + h.ring2[..n]));
  }

  lemma {:induction false} CountIsStable(accepted: seq<(Source, CaptureEvent)>, next: (Source, CaptureEvent),
                                         source: Source, n: nat)
    requires n <= |accepted|
    ensures CountFrom(accepted + [next], source, n) == CountFrom(accepted, source, n)
  {
    if n > 0 {
      CountIsStable(accepted, next, source, n - 1);
    }
  }

  lemma CounterWraps(count: nat)
    ensures (count % U64_MODULUS + 1) % U64_MODULUS == (count + 1) % U64_MODULUS
  {
  }

  lemma AcceptKeepsNumbering(accepted: seq<(Source, CaptureEvent)>, next: (Source, CaptureEvent))
    requires NumberedEvents(accepted)
    requires next.1.event == (CountFrom(accepted, next.0, |accepted|) + 1) % U64_MODULUS
    ensures NumberedEvents(accepted + [next])
  {
    var all := accepted + [next];
    forall k | 0 <= k < |all| ensures NumberedAt(all, k) {
      CountIsStable(accepted, next, all[k].0, k);
      assert k < |accepted| ==> NumberedAt(accepted, k);
    }
  }

  lemma AcceptKeepsNumbers(v: View, l: Label, v': View, h: History, capacity1: nat, capacity2: nat)
    requires Numbered(v, h) && l.Accepted? && ViewStep(v, l, v', capacity1, capacity2)
    ensures Numbered(v', Record(h, l))
  {
    var accepted, next, n := h.accepted, (l.source, l.event), |h.accepted|;
    CounterWraps(CountFrom(accepted, l.source, n));
    AcceptKeepsNumbering(accepted, next);
    forall source: Source
      ensures source in v'.counters
              && v'.counters[source] == CountFrom(accepted + [next], source, n + 1) % U64_MODULUS
    {
      CountIsStable(accepted, next, source, n);
    }
  }

  /** One labelled step keeps the ledger. */
  lemma StepKeepsLedger(v: View, l: Label, v': View, h: History, capacity1: nat, capacity2: nat)
    requires Ledger(v, h) && ViewStep(v, l, v', capacity1, capacity2)
    ensures Ledger(v', Record(h, l))
  {
    StepKeepsAccount(v, l, v', h, capacity1, capacity2);
    if l.Accepted? {
      AcceptIsFaithful(v, l, v', h, capacity1, capacity2);
      AcceptKeepsNumbers(v, l, v', h, capacity1, capacity2);
    } else if l.Delivered? {
      DeliveryIsFaithful(v, l, v', h, capacity1, capacity2);
    } else {
      MoveIsFaithful(v, l, v', h, capacity1, capacity2);
    }
  }

  // ----- whole runs

  ghost predicate StepAt(states: seq<State>, labels: seq<Label>, i: nat)
    requires i < |labels| && |states| == |labels| + 1
  {
    Next(states[i], labels[i], states[i + 1])
  }

  ghost predicate Run(states: seq<State>, labels: seq<Label>) {
    && |states| == |labels| + 1
    && Init(states[0])
    && forall i :: 0 <= i < |labels| ==> StepAt(states, labels, i)
  }

  /** The history of the first `n` labels. */
  function HistoryOf(labels: seq<Label>, n: nat): History
    requires n <= |labels|
  {
    if n == 0 then NOTHING_YET else Record(HistoryOf(labels, n - 1), labels[n - 1])
  }

  lemma EmptyLedger(s: State)
    requires Init(s)
    ensures Inv(s) && Ledger(ViewOf(s), NOTHING_YET)
  {
    InitKeepsInv(s);
    forall source: Source ensures s.counters[source] == 0 {
      match source
      case FromButton5 =>
      case FromButton6 =>
      case FromRocker =>
    }
  }

  /** A sound state of a system that started as `s0`, with its history. */
  ghost predicate Sound(s: State, h: History, s0: State) {
    && Inv(s) && s.capacity2 == s0.capacity2 && s.ring1.Capacity() == s0.ring1.Capacity()
    && Ledger(ViewOf(s), h)
  }

  lemma StepKeepsSound(s: State, l: Label, s': State, h: History, s0: State)
    requires Sound(s, h, s0) && Next(s, l, s')
    ensures Sound(s', Record(h, l), s0)
  {
    StepRefines(s, l, s');
    StepKeepsLedger(ViewOf(s), l, ViewOf(s'), h, s.ring1.Capacity(), s.capacity2);
  }

  /** What a run has established after `n` steps. */
  ghost predicate SoundAfter(states: seq<State>, labels: seq<Label>, n: nat)
    requires n <= |labels| && |states| == |labels| + 1
  {
    Sound(states[n], HistoryOf(labels, n), states[0])
  }

  lemma RunStart(states: seq<State>, labels: seq<Label>)
    requires Run(states, labels)
    ensures SoundAfter(states, labels, 0)
  {
    EmptyLedger(states[0]);
  }

  lemma RunStep(states: seq<State>, labels: seq<Label>, n: nat)
    requires Run(states, labels) && n < |labels| && SoundAfter(states, labels, n)
    ensures SoundAfter(states, labels, n + 1)
  {
    assert StepAt(states, labels, n);
    StepKeepsSound(states[n], labels[n], states[n + 1], HistoryOf(labels, n), states[0]);
  }

  lemma {:induction false} RunKeepsSound(states: seq<State>, labels: seq<Label>, n: nat)
    requires Run(states, labels) && n <= |labels|
    ensures SoundAfter(states, labels, n)
    decreases n
  {
    if n == 0 {
      RunStart(states, labels);
    } else {
      RunKeepsSound(states, labels, n - 1);
      RunStep(states, labels, n - 1);
    }
  }

  /** The first `n` accepted events without the lost ones, in acceptance order. */
  function Survivors(accepted: seq<(Source, CaptureEvent)>, lost: set<nat>, n: nat): seq<CaptureEvent>
    requires n <= |accepted|
  {
    if n == 0 then []
    else Survivors(accepted, lost, n - 1) + (if n - 1 in lost then [] else [accepted[n - 1].1])
  }

  /** `ids` are the ids below `n` that are not lost, in order. */
  ghost predicate Spells(ids: seq<nat>, lost: set<nat>, n: nat) {
    && Increasing(ids)
    && forall id :: id in ids <==> 0 <= id < n && id !in lost
  }

  lemma SpellsWithoutLast(ids: seq<nat>, lost: set<nat>, n: nat)
    requires n > 0 && Spells(ids, lost, n) && n - 1 !in lost
    ensures ids != [] && ids[|ids| - 1] == n - 1 && Spells(ids[..|ids| - 1], lost, n - 1)
  {
    LastIsLargest(ids);
    assert n - 1 in ids;
    var front := ids[..|ids| - 1];
    assert ids == front + [n - 1];
    assert forall id :: id in ids <==> id in front || id == n - 1;
  }

  lemma SpellsNothing(ids: seq<nat>, lost: set<nat>)
    requires Spells(ids, lost, 0)
    ensures ids == []
  {
    LastIsLargest(ids);
  }

  /** An increasing sequence of exactly the ids that are not lost spells out the survivors. */
  lemma {:induction false} IdsSpellSurvivors(accepted: seq<(Source, CaptureEvent)>, lost: set<nat>, ids: seq<nat>,
                                             n: nat)
    requires n <= |accepted| && Spells(ids, lost, n)
    ensures EventsAt(accepted, ids) == Survivors(accepted, lost, n)
    decreases n
  {
    if n == 0 {
      SpellsNothing(ids, lost);
    } else if n - 1 in lost {
      assert Spells(ids, lost, n - 1);
      IdsSpellSurvivors(accepted, lost, ids, n - 1);
    } else {
      SpellsWithoutLast(ids, lost, n);
      var front := ids[..|ids| - 1];
      IdsSpellSurvivors(accepted, lost, front, n - 1);
      assert ids == front + [n - 1];
      EventsOfConcat(accepted, front, [n - 1]);
      assert EventsAt(accepted, [n - 1]) == [accepted[n - 1].1];
    }
  }

  lemma LastIsLargest(ids: seq<nat>)
    requires Increasing(ids)
    ensures ids == [] || (exists id :: id in ids)
    ensures ids != [] ==> ids[|ids| - 1] in ids && forall id :: id in ids ==> id <= ids[|ids| - 1]
    ensures ids != [] ==> ids[|ids| - 1] !in ids[..|ids| - 1]
  {
    if ids != [] {
      assert ids[|ids| - 1] in ids;
    }
  }

  function CapturedEvents(rs: seq<EventBulkData>): (es: seq<CaptureEvent>)
    ensures |es| == |rs|
    ensures forall i :: 0 <= i < |rs| ==> es[i] == rs[i].captureEvent
  {
    seq(|rs|, i requires 0 <= i < |rs| => rs[i].captureEvent)
  }

  /** The events behind the records given to users. */
  function Output(labels: seq<Label>, n: nat): seq<EventBulkData>
    requires n <= |labels|
  {
    if n == 0 then []
    else Output(labels, n - 1) + (if labels[n - 1].Delivered? then labels[n - 1].records else [])
  }

  lemma {:induction false} OutputIsRecorded(labels: seq<Label>, n: nat)
    requires n <= |labels|
    ensures HistoryOf(labels, n).output == Output(labels, n)
  {
    if n > 0 {
      OutputIsRecorded(labels, n - 1);
    }
  }

  function HandEvents(hand: seq<(Source, CaptureEvent)>): seq<CaptureEvent> {
    if hand == [] then [] else [hand[0].1]
  }

  // ----- why an event is lost

  /** The push that is at its test at step `n` looked at ring 1 at step `k`, with the same event in hand since. */
  ghost predicate LookedAt(states: seq<State>, k: nat, n: nat)
    requires k < n < |states|
  {
    && states[k].ring1.producer.LoadTail? && Ring.Shaped(states[k].ring1)
    && Ring.SightOf(states[n].ring1) == Ring.Look(|Ring.Abs(states[k].ring1)|, states[k].ring1.Capacity())
    && states[n].handler.Pushing?
    && forall i :: k <= i <= n ==> states[i].handler == states[n].handler
  }

  /** The producer's place and the handler's hand, which no one else touches. */
  predicate SamePush(s: State, s': State) {
    s'.ring1.producer == s.ring1.producer && s'.handler == s.handler && s'.ring1.Capacity() == s.ring1.Capacity()
  }

  lemma WorkKeepsPush(s: State, l: Label, s': State)
    requires Inv(s) && WorkStep(s, l, s')
    ensures SamePush(s, s')
  {
    if s.worker.Fetching? {
      Ring.ConsumerRefines(s.ring1);
    }
  }

  lemma PollKeepsPush(s: State, l: Label, s': State, i: nat)
    requires PollStep(s, l, s', i)
    ensures SamePush(s, s')
  {
  }

  /** A push that is at its test was there before, or has just loaded tail. */
  ghost predicate Looks(s: State, s': State)
    requires Ring.Shaped(s.ring1)
  {
    && s'.handler == s.handler
    && if s.ring1.producer.TestSpace? then Ring.SightOf(s'.ring1) == Ring.SightOf(s.ring1)
       else s.ring1.producer.LoadTail?
            && Ring.SightOf(s'.ring1) == Ring.Look(|Ring.Abs(s.ring1)|, s.ring1.Capacity())
  }

  lemma PushLooks(s: State, l: Label, s': State)
    requires Inv(s) && PushStep(s, l, s') && s'.ring1.producer.TestSpace?
    ensures Looks(s, s')
  {
    Ring.ProducerRefines(s.ring1);
  }

  lemma LookStep(s: State, l: Label, s': State)
    requires Inv(s) && Next(s, l, s') && s'.ring1.producer.TestSpace?
    ensures Looks(s, s') && s.handler.Pushing?
  {
    if PushStep(s, l, s') {
      PushLooks(s, l, s');
    } else if WorkStep(s, l, s') {
      WorkKeepsPush(s, l, s');
    } else if i: nat :| PollStep(s, l, s', i) {
      PollKeepsPush(s, l, s', i);
    } else {
      assert SamePush(s, s');
    }
  }

  lemma LookStart(states: seq<State>, n: nat)
    requires n + 1 < |states| && Ring.Shaped(states[n].ring1) && Looks(states[n], states[n + 1])
    requires states[n].handler.Pushing? && !states[n].ring1.producer.TestSpace?
    ensures LookedAt(states, n, n + 1)
  {
  }

  lemma LookContinues(states: seq<State>, k: nat, n: nat)
    requires k < n && n + 1 < |states| && LookedAt(states, k, n)
    requires Ring.Shaped(states[n].ring1) && Looks(states[n], states[n + 1]) && states[n].ring1.producer.TestSpace?
    ensures LookedAt(states, k, n + 1)
  {
    forall i | k <= i <= n + 1 ensures states[i].handler == states[n + 1].handler {
    }
  }

  lemma LookOf(states: seq<State>, labels: seq<Label>, n: nat)
    requires Run(states, labels) && n < |labels| && states[n + 1].ring1.producer.TestSpace?
    ensures Ring.Shaped(states[n].ring1) && Looks(states[n], states[n + 1]) && states[n].handler.Pushing?
  {
    RunKeepsSound(states, labels, n);
    assert StepAt(states, labels, n);
    LookStep(states[n], labels[n], states[n + 1]);
  }

  lemma {:induction false} TestHasLook(states: seq<State>, labels: seq<Label>, n: nat) returns (k: nat)
    requires Run(states, labels) && n <= |labels| && states[n].ring1.producer.TestSpace?
    ensures k < n && LookedAt(states, k, n)
    decreases n
  {
    k := n - 1;
    LookOf(states, labels, k);
    if states[k].ring1.producer.TestSpace? {
      k := TestHasLook(states, labels, n - 1);
      LookContinues(states, k, n - 1);
    } else {
      LookStart(states, k);
    }
  }

  /** Ring 1 was full when the push of `id` loaded tail, and the event was dropped at step `j` for that. */
  ghost predicate RefusedByFullRing(states: seq<State>, labels: seq<Label>, j: nat, id: nat)
    requires j < |labels| && |states| == |labels| + 1
  {
    && labels[j] == DroppedAtCapture && HistoryOf(labels, j).hand == [id]
    && exists k: nat :: k < j && LookedAt(states, k, j)
                        && |Ring.Abs(states[k].ring1)| == states[k].ring1.Capacity() - 1
  }

  /** The worker held `id` under the mutex with ring 2 full and dropped it at step `j` for that. */
  ghost predicate TurnedAwayAtBulk(states: seq<State>, labels: seq<Label>, j: nat, id: nat)
    requires j < |labels| && |states| == |labels| + 1
  {
    && labels[j] == DroppedAtBulk && HistoryOf(labels, j).held == [id]
    && states[j].mutexHeld && |states[j].ring2| == states[j].capacity2 - 1
  }

  lemma DropHasSight(s: State, l: Label, s': State)
    requires Inv(s) && Next(s, l, s')
    ensures l == DroppedAtCapture ==>
              s.handler.Pushing? && s.ring1.producer.TestSpace? && Ring.SightOf(s.ring1) == Ring.SawFull
    ensures l == DroppedAtBulk ==> s.mutexHeld && |s.ring2| == s.capacity2 - 1
  {
    StepRefines(s, l, s');
  }

  lemma DropReason(states: seq<State>, labels: seq<Label>, j: nat, id: nat)
    requires Run(states, labels) && j < |labels|
    ensures labels[j] == DroppedAtCapture && id in HistoryOf(labels, j).hand ==>
              RefusedByFullRing(states, labels, j, id)
    ensures labels[j] == DroppedAtBulk && id in HistoryOf(labels, j).held ==>
              TurnedAwayAtBulk(states, labels, j, id)
  {
    RunKeepsSound(states, labels, j);
    assert StepAt(states, labels, j);
    DropHasSight(states[j], labels[j], states[j + 1]);
    if labels[j] == DroppedAtCapture {
      var k := CaptureDropReason(states, labels, j);
    }
  }

  lemma CaptureDropReason(states: seq<State>, labels: seq<Label>, j: nat) returns (k: nat)
    requires Run(states, labels) && j < |labels|
    requires states[j].ring1.producer.TestSpace? && Ring.SightOf(states[j].ring1) == Ring.SawFull
    ensures k < j && LookedAt(states, k, j) && |Ring.Abs(states[k].ring1)| == states[k].ring1.Capacity() - 1
  {
    k := TestHasLook(states, labels, j);
    RunKeepsSound(states, labels, k);
  }

  /** Every lost id was dropped at a step at which the ring it was meant for had been found full. */
  lemma {:induction false} LostOnlyToFullRings(states: seq<State>, labels: seq<Label>, n: nat, id: nat)
    requires Run(states, labels) && n <= |labels|
    ensures id in HistoryOf(labels, n).lost1 ==> exists j: nat :: j < n && RefusedByFullRing(states, labels, j, id)
    ensures id in HistoryOf(labels, n).lost2 ==> exists j: nat :: j < n && TurnedAwayAtBulk(states, labels, j, id)
    decreases n
  {
    if n > 0 {
      LostOnlyToFullRings(states, labels, n - 1, id);
      DropReason(states, labels, n - 1, id);
    }
  }

  /**
  Conservation: in every run, the accepted events without the ones dropped at either
  ring, in acceptance order, are the records users got, then ring 2, then the event the
  worker holds, then ring 1, then the event being pushed. An event is dropped only at a
  ring that was found full.
  */
  lemma NothingLostOrReordered(states: seq<State>, labels: seq<Label>, n: nat)
    requires Run(states, labels) && n <= |labels|
    ensures Inv(states[n])
    ensures var h, v := HistoryOf(labels, n), ViewOf(states[n]);
            CapturedEvents(Output(labels, n)) + CapturedEvents(v.queue2) + v.held + v.queue1 + HandEvents(v.hand)
            == Survivors(h.accepted, h.lost1 + h.lost2, |h.accepted|)
    ensures forall id :: id in HistoryOf(labels, n).lost1 ==>
              exists j: nat :: j < n && RefusedByFullRing(states, labels, j, id)
    ensures forall id :: id in HistoryOf(labels, n).lost2 ==>
              exists j: nat :: j < n && TurnedAwayAtBulk(states, labels, j, id)
  {
    EventsInFlow(states, labels, n);
    forall id | id in HistoryOf(labels, n).lost1
      ensures exists j: nat :: j < n && RefusedByFullRing(states, labels, j, id)
    {
      LostOnlyToFullRings(states, labels, n, id);
    }
    forall id | id in HistoryOf(labels, n).lost2
      ensures exists j: nat :: j < n && TurnedAwayAtBulk(states, labels, j, id)
    {
      LostOnlyToFullRings(states, labels, n, id);
    }
  }

  lemma EventsInFlow(states: seq<State>, labels: seq<Label>, n: nat)
    requires Run(states, labels) && n <= |labels|
    ensures Inv(states[n])
    ensures var h, v := HistoryOf(labels, n), ViewOf(states[n]);
            CapturedEvents(Output(labels, n)) + CapturedEvents(v.queue2) + v.held + v.queue1 + HandEvents(v.hand)
            == Survivors(h.accepted, h.lost1 + h.lost2, |h.accepted|)
  {
    RunKeepsSound(states, labels, n);
    OutputIsRecorded(labels, n);
    FlowSpellsSurvivors(HistoryOf(labels, n));
    FlowOfEvents(ViewOf(states[n]), HistoryOf(labels, n));
  }

  lemma FlowSpellsSurvivors(h: History)
    requires Accounted(h)
    ensures EventsAt(h.accepted, Flow(h)) == Survivors(h.accepted, h.lost1 + h.lost2, |h.accepted|)
  {
    var lost, n := h.lost1 + h.lost2, |h.accepted|;
    forall id ensures id in Flow(h) <==> 0 <= id < n && id !in lost {
      assert id in Flow(h) <==> id in SetOf(Flow(h));
      assert 0 <= id < n <==> id in Ids(n);
    }
    IdsSpellSurvivors(h.accepted, lost, Flow(h), n);
  }

  lemma EventsOfConcat(accepted: seq<(Source, CaptureEvent)>, a: seq<nat>, b: seq<nat>)
    ensures EventsAt(accepted, a + b) == EventsAt(accepted, a) + EventsAt(accepted, b)
  {
  }

  lemma FlowOfEvents(v: View, h: History)
    requires Faithful(v, h)
    ensures EventsAt(h.accepted, Flow(h))
            == CapturedEvents(h.output) + CapturedEvents(v.queue2) + v.held + v.queue1 + HandEvents(v.hand)
  {
    var a := h.accepted;
    EventsOfConcat(a, h.delivered, h.ring2);
    EventsOfConcat(a, h.delivered + h.ring2, h.held);
    EventsOfConcat(a, h.delivered + h.ring2 + h.held, h.ring1);
    EventsOfConcat(a, h.delivered + h.ring2 + h.held + h.ring1, h.hand);
    assert CapturedEvents(h.output) == EventsAt(a, h.delivered);
    assert CapturedEvents(v.queue2) == EventsAt(a, h.ring2);
    assert HandEvents(v.hand) == EventsAt(a, h.hand);
  }
}
