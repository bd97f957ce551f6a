/**
The records that travel through the GPIO event pipeline, and the arithmetic of one
`read` call, after i2c_oled_global.h and gpio_oled_irq.c. Structure sizes are those of
a 64-bit kernel.
*/
module EventData {
  import opened DeviceInterface

  const U64_MODULUS: nat := 0x1_0000_0000_0000_0000
  const BULK_LENGTH: nat := 10
  const RECORD_SIZE: nat := 96          // sizeof(struct EventBulkData)

  // enum GPIO
  const BUTTON_5 := 0
  const BUTTON_6 := 1
  const ROCKER_D := 2
  const ROCKER_N := 3
  const ROCKER_S := 4
  const ROCKER_E := 5
  const ROCKER_W := 6

  /** The interrupt handler that an event came from; each one has its own counter. */
  datatype Source = FromButton5 | FromButton6 | FromRocker

  datatype CaptureEvent = CaptureEvent(button: int, event: nat)
  datatype EventBulkData = EventBulkData(captureEvent: CaptureEvent, bulkData: seq<nat>)

  /** The record that the work item makes of an event, with 64-bit wrap-around. */
  function Expand(e: CaptureEvent): (r: EventBulkData)
    ensures r.captureEvent == e && |r.bulkData| == 10
    ensures forall i :: 0 <= i < 10 ==> r.bulkData[i] == (e.event + i) % 0x1_0000_0000_0000_0000
  {
    EventBulkData(e, seq(BULK_LENGTH, i requires 0 <= i < BULK_LENGTH => (e.event + i) % U64_MODULUS))
  }

  function ExpandAll(es: seq<CaptureEvent>): (rs: seq<EventBulkData>)
    ensures |rs| == |es|
    ensures forall i :: 0 <= i < |es| ==> rs[i] == Expand(es[i])
  {
    seq(|es|, i requires 0 <= i < |es| => Expand(es[i]))
  }

  /** A bulk ring after the first `taken` of `events` were offered to it and `room` of them fit. */
  function Stored(bulk: seq<EventBulkData>, events: seq<CaptureEvent>, room: nat, taken: nat): seq<EventBulkData>
    requires room <= |events|
  {
    bulk + ExpandAll(events[..Min(taken, room)])
  }

  lemma StoreNext(bulk: seq<EventBulkData>, events: seq<CaptureEvent>, room: nat, taken: nat, capacity: nat)
    requires taken < |events| && |bulk| < capacity && room == Min(|events|, capacity - 1 - |bulk|)
    ensures var before := Stored(bulk, events, room, taken);
            && (|before| < capacity - 1 <==> taken < room)
            && Min(taken + 1, room) == Min(taken, room) + (if taken < room then 1 else 0)
            && Stored(bulk, events, room, taken + 1)
               == before + (if taken < room then [Expand(events[taken])] else [])
  {
    if taken < room {
      assert ExpandAll(events[..taken + 1]) == ExpandAll(events[..taken]) + [Expand(events[taken])];
    }
  }

  /** An event as the words that are copied into ring 1. */
  function Words(e: CaptureEvent): (w: seq<int>)
    ensures |w| == 2
  {
    [e.button, e.event]
  }

  function FromWords(w: seq<int>): CaptureEvent {
    if |w| == 2 && w[1] >= 0 then CaptureEvent(w[0], w[1]) else CaptureEvent(0, 0)
  }

  function Min(a: nat, b: nat): nat {
    if a <= b then a else b
  }

  /** What a `read` of `count` bytes returns, and how many records it removes. */
  datatype ReadOutcome = ReadOutcome(ret: int, taken: nat)

  /**
  The closed form of `read` on a ring of `capacity` slots holding `held` records, where
  `fault` is the index of the first record whose copy to user space fails.
  */
  function Read(count: nat, held: nat, capacity: nat, fault: nat): (o: ReadOutcome)
    ensures o.taken <= held
  {
    var n := count / RECORD_SIZE;
    var available := Min(held, fault);
    if count % RECORD_SIZE != 0 then ReadOutcome(0 - EPERM, 0)
    else if n == 0 || held + 1 == capacity then ReadOutcome(0, 0)
    else if n <= available then ReadOutcome(n * RECORD_SIZE, n)
    else ReadOutcome(0 - EPERM, available)
  }

  /** A read that is cut short after `n` records, with bytes still wanted. */
  lemma ReadStops(count: nat, held: nat, capacity: nat, fault: nat, n: nat)
    requires count % RECORD_SIZE == 0 && n * RECORD_SIZE < count
    requires n == Min(held, fault) && held + 1 < capacity
    ensures Read(count, held, capacity, fault) == ReadOutcome(0 - EPERM, n)
  {
  }

  /** The state of a read of `held` records' ring with `taken` copied and `left` bytes still wanted. */
  predicate Reading(count: nat, left: int, ret: int, held: nat, taken: nat, capacity: nat, fault: nat) {
    && 0 <= left && count == left + taken * RECORD_SIZE && ret == taken * RECORD_SIZE
    && taken <= fault && taken <= held && (taken != 0 ==> held + 1 < capacity)
  }

  /** A read whose loop ends with `left` bytes wanted after `n` records, served or shut out by a full ring. */
  lemma ReadEnds(count: nat, held: nat, capacity: nat, fault: nat, n: nat, left: nat)
    requires count % RECORD_SIZE == 0 && n <= Min(held, fault)
    requires n != 0 ==> held + 1 < capacity
    requires count == left + n * RECORD_SIZE
    requires left < RECORD_SIZE || (n == 0 && held + 1 == capacity)
    ensures Read(count, held, capacity, fault) == ReadOutcome(n * RECORD_SIZE, n)
  {
    if left < RECORD_SIZE {
      assert count / RECORD_SIZE == n;
    }
  }

  /**
  A read of whole records that has no fault and asks for no more than is held gets them
  exactly when the ring is not full: a full ring makes the guard `space(...)` zero and the
  read returns nothing. With 15 records held in 16 slots every read returns 0.
  */
  lemma ReadDeliversUnlessFull(count: nat, held: nat, capacity: nat, fault: nat)
    requires held < capacity
    ensures var n, o := count / RECORD_SIZE, Read(count, held, capacity, fault);
            count % RECORD_SIZE == 0 && 0 < n <= held && n <= fault ==>
              && (o == ReadOutcome(count, n) <==> held != capacity - 1)
              && (held == capacity - 1 ==> o == ReadOutcome(0, 0))
  {
    if count % RECORD_SIZE == 0 {
      assert count == (count / RECORD_SIZE) * RECORD_SIZE;
    }
  }

  /** The three ways a read goes, by its byte count and what is held. */
  lemma ReadGoes(count: nat, held: nat, capacity: nat, fault: nat)
    requires held < capacity
    ensures count % 96 != 0 ==> Read(count, held, capacity, fault) == ReadOutcome(-1, 0)
    ensures count % 96 == 0 && (count == 0 || held == capacity - 1) ==>
              Read(count, held, capacity, fault) == ReadOutcome(0, 0)
    ensures count % 96 == 0 && count > 0 && held < capacity - 1 ==>
              Read(count, held, capacity, fault)
              == if count / 96 <= held && count / 96 <= fault then ReadOutcome(count, count / 96)
                 else ReadOutcome(-1, if held <= fault then held else fault)
  {
  }

  /**
  The return value accounts for the records removed exactly when the read was malformed,
  or nothing was asked, or it could be served whole, or nothing was there to take: asking
  for two records when one is held removes one and reports -EPERM.
  */
  lemma ReadReportsWhatItTook(count: nat, held: nat, capacity: nat, fault: nat)
    requires held < capacity
    ensures var o := Read(count, held, capacity, fault);
            (if o.ret < 0 then o.taken == 0 else o.ret == 96 * o.taken)
            <==>
            (count % 96 != 0 || held == capacity - 1 || held == 0 || fault == 0
             || (count / 96 <= held && count / 96 <= fault))
    ensures Read(192, 1, 16, 2) == ReadOutcome(-1, 1)
  {
  }
}
