/**
The ring buffer of circ_buffer_pow2_elements.c shared, without a lock, by one producer
(an interrupt handler in `push`) and one consumer (the work item in `front`, `memcpy`,
`pop`). Every load, store and test of `head` and `tail` is a step of its own, and each
`memcpy` goes word by word, so an element is half written or half read for many steps.

Memory is sequentially consistent: the source marks its barriers as still to be done.
*/
module SpscRing {
  import opened Masking
  import opened RingWindow

  /** The machine words of one ring element. */
  type Element = seq<int>

  datatype Producer =
    | Ready                                          // outside push
    | LoadHead(element: Element)
    | LoadTail(element: Element, h: int)
    | TestSpace(element: Element, h: int, t: int)
    | CopyIn(element: Element, h: int, done: nat)    // `done` words of the slot are written

  datatype Consumer =
    | FrontLoad                                      // front is about to load tail
    | FrontTest(t: int)
    | CopyOut(t: int, got: Element)                  // |got| words of the slot are read
    | PopLoad(got: Element)
    | PopTest(got: Element, t: int)
    | PopStore(got: Element, t: int)

  datatype State = State(
    width: nat,                                      // words per element
    head: int, tail: int, slots: seq<Element>,
    producer: Producer, consumer: Consumer)
  {
    function Capacity(): nat { |slots| }
  }

  /** What a step shows to the outside. */
  datatype Label =
    | Silent
    | Enqueue(element: Element)                      // push stored the new head
    | Reject(element: Element)                       // push found no space
    | SeenEmpty                                      // front returned NULL
    | Dequeue(element: Element)                      // pop stored the new tail
    | Phantom(element: Element)                      // pop found the ring empty after front did not

  function ProducerStep(s: State): (State, Label)
    requires s.Capacity() > 0 && !s.producer.Ready?
  {
    match s.producer
    case LoadHead(e) => (s.(producer := LoadTail(e, s.head)), Silent)
    case LoadTail(e, h) => (s.(producer := TestSpace(e, h, s.tail)), Silent)
    case TestSpace(e, h, t) =>
      if CircSpace(h, t, s.Capacity()) >= 1 then (s.(producer := CopyIn(e, h, 0)), Silent)
      else (s.(producer := Ready), Reject(e))
    case CopyIn(e, h, done) =>
      if done < s.width then (CopyWord(s, e, h, done), Silent)
      else (s.(head := Advance(h, s.Capacity()), producer := Ready), Enqueue(e))
  }

  /** One word of push's memcpy. */
  function CopyWord(s: State, e: Element, h: int, done: nat): State {
    if InRing(h, s.Capacity()) && done < |s.slots[h]| && done < |e| then
      s.(slots := s.slots[h := s.slots[h][done := e[done]]], producer := CopyIn(e, h, done + 1))
    else
      s
  }

  function ConsumerStep(s: State): (State, Label)
    requires s.Capacity() > 0
  {
    match s.consumer
    case FrontLoad => (s.(consumer := FrontTest(s.tail)), Silent)
    case FrontTest(t) =>
      if CircCnt(s.head, t, s.Capacity()) != 0 then (s.(consumer := CopyOut(t, [])), Silent)
      else (s.(consumer := FrontLoad), SeenEmpty)
    case CopyOut(t, got) =>
      if InRing(t, s.Capacity()) && |got| < |s.slots[t]| then
        (s.(consumer := CopyOut(t, got + [s.slots[t][|got|]])), Silent)
      else
        (s.(consumer := PopLoad(got)), Silent)
    case PopLoad(got) => (s.(consumer := PopTest(got, s.tail)), Silent)
    case PopTest(got, t) =>
      if CircCnt(s.head, t, s.Capacity()) != 0 then (s.(consumer := PopStore(got, t)), Silent)
      else (s.(consumer := FrontLoad), Phantom(got))
    case PopStore(got, t) => (s.(tail := Advance(t, s.Capacity()), consumer := FrontLoad), Dequeue(got))
  }

  ghost predicate Shaped(s: State) {
    && IsPow2(s.Capacity()) && s.Capacity() <= MAX_CAPACITY
    && WellShaped(s.slots, s.head, s.tail)
    && forall i :: 0 <= i < |s.slots| ==> |s.slots[i]| == s.width
  }

  /** The queue the shared ring stands for. */
  ghost function Abs(s: State): (q: seq<Element>)
    requires Shaped(s)
    ensures |q| == Distance(s.head, s.tail, s.Capacity())
  {
    Queue(s.slots, s.head, s.tail)
  }

  /** A stale tail can only make the queue look longer than it is. */
  ghost predicate ProducerInv(s: State)
    requires Shaped(s)
  {
    match s.producer
    case Ready => true
    case LoadHead(e) => |e| == s.width
    case LoadTail(e, h) => |e| == s.width && h == s.head
    case TestSpace(e, h, t) =>
      && |e| == s.width && h == s.head && InRing(t, s.Capacity())
      && |Abs(s)| <= Distance(s.head, t, s.Capacity())
    case CopyIn(e, h, done) =>
      && |e| == s.width && h == s.head && done <= s.width
      && |Abs(s)| < s.Capacity() - 1
      && s.slots[h][..done] == e[..done]
  }

  ghost predicate ConsumerInv(s: State)
    requires Shaped(s)
  {
    match s.consumer
    case FrontLoad => true
    case FrontTest(t) => t == s.tail
    case CopyOut(t, got) =>
      t == s.tail && s.head != s.tail && |got| <= s.width && got == s.slots[s.tail][..|got|]
    case PopLoad(got) => s.head != s.tail && got == s.slots[s.tail]
    case PopTest(got, t) => t == s.tail && s.head != s.tail && got == s.slots[s.tail]
    case PopStore(got, t) => t == s.tail && s.head != s.tail && got == s.slots[s.tail]
  }

  ghost predicate Inv(s: State) {
    Shaped(s) && ProducerInv(s) && ConsumerInv(s)
  }

  predicate SameShape(s: State, s': State) {
    s'.Capacity() == s.Capacity() && s'.width == s.width
  }

  /** What a push has seen of the queue: it looks once, as it loads tail. */
  datatype Sight = NotLooked | SawRoom | SawFull

  /** The atomic bounded queue that every interleaving has to look like. */
  datatype Atomic = Atomic(queue: seq<Element>, sight: Sight)

  function Look(length: int, capacity: nat): Sight {
    if length + 1 < capacity then SawRoom else SawFull
  }

  ghost function SightOf(s: State): Sight {
    match s.producer
    case TestSpace(_, h, t) => Look(Distance(h, t, s.Capacity()), s.Capacity())
    case CopyIn(_, _, _) => SawRoom
    case _ => NotLooked
  }

  ghost function AtomOf(s: State): Atomic
    requires Shaped(s)
  {
    Atomic(Abs(s), SightOf(s))
  }

  /** A push is refused exactly if the queue was full when it looked, and is accepted into a queue with room. */
  ghost predicate QueueStep(a: Atomic, l: Label, a': Atomic, capacity: nat) {
    match l
    case Silent => a' == a || (a.sight.NotLooked? && a' == a.(sight := Look(|a.queue|, capacity)))
    case Enqueue(e) =>
      a.sight.SawRoom? && |a.queue| < capacity - 1 && a' == Atomic(a.queue + [e], NotLooked)
    case Reject(_) => a.sight.SawFull? && a' == a.(sight := NotLooked)
    case SeenEmpty => a.queue == [] && a' == a
    case Dequeue(e) => |a.queue| > 0 && a.queue[0] == e && a' == a.(queue := a.queue[1..])
    case Phantom(_) => false
  }

  /** While push copies, its slot holds no queued element and is not the slot being read. */
  lemma ProducerWritesFreeSlot(s: State)
    requires Inv(s) && s.producer.CopyIn?
    ensures !Occupied(s.slots, s.head, s.tail, s.producer.h)
    ensures s.consumer.CopyOut? ==> Occupied(s.slots, s.head, s.tail, s.consumer.t)
    ensures s.consumer.CopyOut? ==> s.consumer.t != s.producer.h
  {
    EndsOfTheQueue(s.slots, s.head, s.tail);
  }

  /** One word of the copy changes no queued element. */
  lemma CopyWordRefines(s: State)
    requires Inv(s) && s.producer.CopyIn? && s.producer.done < s.width
    ensures var s' := ProducerStep(s).0; Inv(s') && Abs(s') == Abs(s)
  {
    var CopyIn(e, h, done) := s.producer;
    var slot := s.slots[h][done := e[done]];
    EndsOfTheQueue(s.slots, s.head, s.tail);
    WriteFreeSlot(s.slots, s.head, s.tail, h, slot);
    assert slot[..done + 1] == s.slots[h][..done] + [e[done]];
    assert e[..done + 1] == e[..done] + [e[done]];
    assert s.consumer.CopyOut? || s.consumer.PopLoad? || s.consumer.PopTest? || s.consumer.PopStore?
           ==> s.tail != h;
  }

  /** The store of the new head appends the copied element. */
  lemma StoreHeadRefines(s: State)
    requires Inv(s) && s.producer.CopyIn? && s.producer.done == s.width
    ensures var (s', l) := ProducerStep(s);
            Inv(s') && s' == s.(head := s'.head, producer := Ready)
            && l == Enqueue(s.producer.element) && Abs(s') == Abs(s) + [s.producer.element]
  {
    var CopyIn(e, h, done) := s.producer;
    assert s.slots[h][..done] == s.slots[h] && e[..done] == e;
    MaskedIndices(h, s.tail, s.Capacity());
    AdvanceHead(s.slots, s.head, s.tail);
  }

  lemma ProducerRefines(s: State)
    requires Inv(s) && !s.producer.Ready?
    ensures var (s', l) := ProducerStep(s);
            && Inv(s') && QueueStep(AtomOf(s), l, AtomOf(s'), s.Capacity())
            && SameShape(s, s') && s'.consumer == s.consumer
  {
    match s.producer
    case LoadHead(e) =>
    case LoadTail(e, h) =>
    case TestSpace(e, h, t) =>
      MaskedIndices(h, t, s.Capacity());
    case CopyIn(e, h, done) =>
      if done < s.width {
        CopyWordRefines(s);
      } else {
        StoreHeadRefines(s);
      }
  }

  /** One word of the worker's copy, or the end of it. */
  lemma CopyOutRefines(s: State)
    requires Inv(s) && s.consumer.CopyOut?
    ensures var (s', l) := ConsumerStep(s);
            Inv(s') && l == Silent && s' == s.(consumer := s'.consumer)
  {
    var CopyOut(t, got) := s.consumer;
    if |got| < s.width {
      assert s.slots[t][..|got| + 1] == s.slots[t][..|got|] + [s.slots[t][|got|]];
    } else {
      assert s.slots[t][..|got|] == s.slots[t];
    }
  }

  lemma PopStoreRefines(s: State)
    requires Inv(s) && s.consumer.PopStore?
    ensures var (s', l) := ConsumerStep(s);
            && Inv(s') && QueueStep(AtomOf(s), l, AtomOf(s'), s.Capacity())
            && s' == s.(tail := s'.tail, consumer := FrontLoad)
  {
    MaskedIndices(s.tail, s.tail, s.Capacity());
    AdvanceTail(s.slots, s.head, s.tail);
  }

  /** The loads and the tests: the masked difference is zero exactly when the queue is empty. */
  lemma OtherStepsRefine(s: State)
    requires Inv(s) && !s.consumer.CopyOut? && !s.consumer.PopStore?
    ensures var (s', l) := ConsumerStep(s);
            && Inv(s') && s' == s.(consumer := s'.consumer)
            && (l == Silent || (l == SeenEmpty && Abs(s) == []))
  {
    MaskedIndices(s.head, s.tail, s.Capacity());
  }

  lemma ConsumerRefines(s: State)
    requires Inv(s)
    ensures var (s', l) := ConsumerStep(s);
            && Inv(s') && QueueStep(AtomOf(s), l, AtomOf(s'), s.Capacity())
            && SameShape(s, s') && s'.producer == s.producer
  {
    if s.consumer.CopyOut? {
      CopyOutRefines(s);
    } else if s.consumer.PopStore? {
      PopStoreRefines(s);
    } else {
      OtherStepsRefine(s);
    }
  }

  // ----- whole runs

  ghost predicate Init(s: State) {
    && Shaped(s) && s.head == s.tail == 0
    && s.producer == Ready && s.consumer == FrontLoad
  }

  ghost predicate Next(s: State, l: Label, s': State) {
    && s.Capacity() > 0
    && (
      || (s.producer.Ready? && l == Silent
          && exists e: Element :: |e| == s.width && s' == s.(producer := LoadHead(e)))
      || (!s.producer.Ready? && (s', l) == ProducerStep(s))
      || (s', l) == ConsumerStep(s)
    )
  }

  ghost predicate StepAt(states: seq<State>, labels: seq<Label>, i: nat)
    requires i < |labels| && |states| == |labels| + 1
  {
    Next(states[i], labels[i], states[i + 1])
  }

  /** A run: `labels[i]` leads from `states[i]` to `states[i + 1]`. */
  ghost predicate Run(states: seq<State>, labels: seq<Label>) {
    && |states| == |labels| + 1
    && Init(states[0])
    && forall i :: 0 <= i < |labels| ==> StepAt(states, labels, i)
  }

  ghost function In(l: Label): seq<Element> {
    if l.Enqueue? then [l.element] else []
  }

  ghost function Out(l: Label): seq<Element> {
    if l.Dequeue? then [l.element] else []
  }

  ghost function Enqueued(labels: seq<Label>): seq<Element> {
    if labels == [] then [] else Enqueued(labels[..|labels| - 1]) + In(labels[|labels| - 1])
  }

  ghost function Dequeued(labels: seq<Label>): seq<Element> {
    if labels == [] then [] else Dequeued(labels[..|labels| - 1]) + Out(labels[|labels| - 1])
  }

  lemma NextKeepsInv(s: State, l: Label, s': State)
    requires Inv(s) && Next(s, l, s')
    ensures Inv(s') && SameShape(s, s') && QueueStep(AtomOf(s), l, AtomOf(s'), s.Capacity())
  {
    if s.producer.Ready? && l == Silent && exists e: Element :: |e| == s.width && s' == s.(producer := LoadHead(e)) {
    } else if !s.producer.Ready? && (s', l) == ProducerStep(s) {
      ProducerRefines(s);
    } else {
      ConsumerRefines(s);
    }
  }

  /** The balance of what went in, came out and is still in, carried over one step. */
  lemma BalanceStep(into: seq<Element>, out: seq<Element>, a: Atomic, l: Label, a': Atomic, capacity: nat)
    requires QueueStep(a, l, a', capacity) && into == out + a.queue
    ensures into + In(l) == out + Out(l) + a'.queue
  {
    if l.Dequeue? {
      assert a.queue == [l.element] + a'.queue;
    }
  }

  ghost predicate Balanced(states: seq<State>, labels: seq<Label>, n: nat)
    requires n <= |labels| && |states| == |labels| + 1
  {
    && Inv(states[n])
    && Enqueued(labels[..n]) == Dequeued(labels[..n]) + Abs(states[n])
    && (n > 0 ==> !labels[n - 1].Phantom?)
  }

  lemma BalancedNext(states: seq<State>, labels: seq<Label>, n: nat)
    requires Run(states, labels) && n < |labels| && Balanced(states, labels, n)
    ensures Balanced(states, labels, n + 1)
  {
    assert StepAt(states, labels, n);
    NextKeepsInv(states[n], labels[n], states[n + 1]);
    assert labels[..n + 1][..n] == labels[..n];
    BalanceStep(Enqueued(labels[..n]), Dequeued(labels[..n]), AtomOf(states[n]),
                labels[n], AtomOf(states[n + 1]), states[n].Capacity());
  }

  /**
  Every interleaving is a queue: what came out, then what is still in, is what went in,
  and pop never finds the ring empty after front did not.
  */
  lemma {:induction false} EveryRunIsFifo(states: seq<State>, labels: seq<Label>, n: nat)
    requires Run(states, labels) && n <= |labels|
    ensures Balanced(states, labels, n)
    ensures Enqueued(labels[..n]) == Dequeued(labels[..n]) + Abs(states[n])
    ensures n > 0 ==> !labels[n - 1].Phantom?
    decreases n
  {
    if n > 0 {
      EveryRunIsFifo(states, labels, n - 1);
      BalancedNext(states, labels, n - 1);
    }
  }

  /** Step `k` is the tail load of the push that is still at its test at step `n`. */
  ghost predicate TailLoadedAt(states: seq<State>, k: nat, n: nat)
    requires k < n < |states|
  {
    && states[k].producer.LoadTail? && Shaped(states[k]) && states[k].Capacity() == states[n].Capacity()
    && SightOf(states[n]) == Look(|Abs(states[k])|, states[k].Capacity())
    && forall i :: k < i <= n ==> states[i].producer == states[n].producer
  }

  lemma TestFollowsLoad(s: State, l: Label, s': State)
    requires Inv(s) && Next(s, l, s') && s'.producer.TestSpace?
    ensures s.producer == s'.producer || (s.producer.LoadTail? && SightOf(s') == Look(|Abs(s)|, s.Capacity()))
    ensures SameShape(s, s')
  {
    NextKeepsInv(s, l, s');
  }

  /** Every push at its test loaded tail at an earlier step of the run, and goes by what it saw then. */
  lemma {:induction false} TestHasLoad(states: seq<State>, labels: seq<Label>, n: nat) returns (k: nat)
    requires Run(states, labels) && n <= |labels| && states[n].producer.TestSpace?
    ensures k < n && TailLoadedAt(states, k, n)
    decreases n
  {
    k := n - 1;
    EveryRunIsFifo(states, labels, k);
    assert StepAt(states, labels, k);
    TestFollowsLoad(states[k], labels[k], states[n]);
    if states[k].producer == states[n].producer {
      k := TestHasLoad(states, labels, n - 1);
    }
  }

  /**
  In every run a push is refused exactly when the queue was full at its own load of tail,
  whatever the consumer removed before the test; otherwise it goes on to copy.
  */
  lemma RefusedExactlyWhenFull(states: seq<State>, labels: seq<Label>, n: nat)
    requires Run(states, labels) && n < |labels|
    ensures labels[n].Reject? ==>
              exists k: nat :: k < n && TailLoadedAt(states, k, n) && |Abs(states[k])| == states[k].Capacity() - 1
    ensures states[n].producer.TestSpace? && states[n + 1].producer.CopyIn? ==>
              exists k: nat :: k < n && TailLoadedAt(states, k, n) && |Abs(states[k])| < states[k].Capacity() - 1
  {
    EveryRunIsFifo(states, labels, n);
    assert StepAt(states, labels, n);
    NextKeepsInv(states[n], labels[n], states[n + 1]);
    if states[n].producer.TestSpace? {
      var k := TestHasLoad(states, labels, n);
      assert |Abs(states[k])| <= states[k].Capacity() - 1;
      OutcomeOfTest(states[n], labels[n], states[n + 1]);
    }
  }

  lemma OutcomeOfTest(s: State, l: Label, s': State)
    requires Inv(s) && Next(s, l, s') && s.producer.TestSpace?
    ensures l.Reject? ==> SightOf(s) == SawFull
    ensures s'.producer.CopyIn? ==> SightOf(s) == SawRoom
  {
    MaskedIndices(s.producer.h, s.producer.t, s.Capacity());
  }
}
