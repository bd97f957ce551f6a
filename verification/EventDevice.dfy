/**
The GPIO event device of modules/rpi_4b/1_i2c/OLED/module/gpio_oled_irq.c, one call at a
time: three interrupt handlers, the work item, `read`, `poll` and `ioctl` over the two
rings. EventPipeline interleaves the same operations.
*/
module EventDevice {
  import opened CircularBuffer
  import opened Debounce
  import opened DeviceInterface
  import opened EventData
  import opened Masking
  import opened Wrappers

  const CAPTURE_CAPACITY: nat := 0x08
  const BULK_CAPACITY: nat := 0x10

  const POLLIN: nat := 0x001
  const POLLHUP: nat := 0x010
  const POLLRDNORM: nat := 0x040

  /** The button that a rocker interrupt line stands for; `stack` when no line matches. */
  function RockerButton(irq: nat, lines: seq<nat>, stack: int): (button: int)
    requires |lines| == 5
    ensures forall i :: 0 <= i < 5 && irq == lines[i] && irq !in lines[..i] ==> button == 2 + i
    ensures irq !in lines ==> button == stack
    ensures irq in lines ==> 2 <= button <= 6
  {
    if irq == lines[0] then ROCKER_D
    else if irq == lines[1] then ROCKER_N
    else if irq == lines[2] then ROCKER_S
    else if irq == lines[3] then ROCKER_E
    else if irq == lines[4] then ROCKER_W
    else stack
  }

  /** `current` is event number `taken`, if there is one, and `rest` is what follows it. */
  ghost predicate AtEvent<T>(events: seq<T>, taken: nat, current: Option<T>, rest: seq<T>) {
    if current.None? then taken == |events| && rest == []
    else taken < |events| && current.value == events[taken] && rest == events[taken + 1..]
  }

  lemma NextToFront<T>(all: seq<T>, front: seq<T>, next: T, back: seq<T>)
    requires all == front + ([next] + back)
    ensures all == (front + [next]) + back
  {
  }

  ghost predicate AllCounted(counters: map<Source, nat>) {
    forall s: Source :: s in counters && counters[s] < U64_MODULUS
  }

  class EventDevice {
    var captureBuffer: CircularBufferPow2<CaptureEvent>
    var bulkBuffer: CircularBufferPow2<EventBulkData>
    var pollEnabled: bool
    var workScheduled: bool
    var wakes: nat                       // calls of wake_up_interruptible so far
    var counters: map<Source, nat>       // the handlers' static counters
    var rockerLast: nat                  // the rocker handler's static last_jiffy
    var canDebounce: bool
    var hz: nat

    ghost predicate Valid()
      reads this, captureBuffer, bulkBuffer
    {
      && captureBuffer as object != bulkBuffer && captureBuffer as object != this && bulkBuffer as object != this
      && captureBuffer.Valid() && bulkBuffer.Valid()
      && captureBuffer.buffer as object != bulkBuffer.buffer
      && AllCounted(counters)
      && hz > 0
    }

    ghost function Captured(): seq<CaptureEvent>
      requires Valid()
      reads this, captureBuffer, bulkBuffer, captureBuffer.buffer
    {
      captureBuffer.Contents()
    }

    ghost function Bulk(): seq<EventBulkData>
      requires Valid()
      reads this, captureBuffer, bulkBuffer, bulkBuffer.buffer
    {
      bulkBuffer.Contents()
    }

    constructor (hz: nat, canDebounce: bool)
      ensures this.hz == hz && this.canDebounce == canDebounce && rockerLast == 0
      ensures AllCounted(counters) && counters == map[FromButton5 := 0, FromButton6 := 0, FromRocker := 0]
      ensures fresh(captureBuffer) && fresh(bulkBuffer)
      ensures captureBuffer as object != bulkBuffer && captureBuffer as object != this && bulkBuffer as object != this
    {
      captureBuffer := new CircularBufferPow2();
      bulkBuffer := new CircularBufferPow2();
      pollEnabled, workScheduled, wakes := false, false, 0;
      counters := map[FromButton5 := 0, FromButton6 := 0, FromRocker := 0];
      rockerLast := 0;
      this.hz, this.canDebounce := hz, canDebounce;
      new;
      forall s: Source ensures s in counters && counters[s] == 0 {
        match s
        case FromButton5 =>
        case FromButton6 =>
        case FromRocker =>
      }
    }

    /** `gpio_oled_irq_init`; the flags say which of the two allocations the kernel grants. */
    method Init(granted1: bool, granted2: bool) returns (ret: int)
      requires captureBuffer as object != bulkBuffer && captureBuffer as object != this && bulkBuffer as object != this
      requires hz > 0 && AllCounted(counters)
      modifies this`pollEnabled, captureBuffer, bulkBuffer
      ensures ret == if granted1 && granted2 then 0 else -12
      ensures ret == 0 ==> Valid() && Captured() == [] && Bulk() == [] && pollEnabled
      ensures ret == 0 ==> fresh(captureBuffer.buffer) && fresh(bulkBuffer.buffer)
      ensures ret == 0 ==> captureBuffer.capacity == 8 && bulkBuffer.capacity == 16
    {
      assert Pow2(3) == CAPTURE_CAPACITY && Pow2(4) == BULK_CAPACITY;
      ret := captureBuffer.Init(CAPTURE_CAPACITY, granted1);
      if ret == 0 {
        ret := bulkBuffer.Init(BULK_CAPACITY, granted2);
        if ret == 0 {
          pollEnabled := true;
        }
      }
    }

    /** The end of every handler: number the event, push it, schedule the work item. */
    method Capture(source: Source, button: int)
      requires Valid()
      modifies this`counters, this`workScheduled, captureBuffer`head, captureBuffer.buffer
      ensures Valid() && workScheduled && Bulk() == old(Bulk())
      ensures counters == old(counters)[source := (old(counters[source]) + 1) % 0x1_0000_0000_0000_0000]
      ensures Captured() == old(Captured())
              + if |old(Captured())| == captureBuffer.capacity - 1 then [] else [CaptureEvent(button, counters[source])]
    {
      counters := counters[source := (counters[source] + 1) % U64_MODULUS];
      var _ := captureBuffer.Push(CaptureEvent(button, counters[source]));
      workScheduled := true;
    }

    /** Button 5: its `last_jiffy` is never stored, so the debounce compares with 0. */
    method Button5Irq(now: nat)
      requires Valid()
      modifies this`counters, this`workScheduled, captureBuffer`head, captureBuffer.buffer
      ensures Valid() && Bulk() == old(Bulk())
      ensures var accepted := canDebounce || now * 1000 >= 20 * hz;
              if accepted && |old(Captured())| < captureBuffer.capacity - 1
              then Captured() == old(Captured()) + [CaptureEvent(0, counters[FromButton5])]
              else Captured() == old(Captured())
      ensures var accepted := canDebounce || now * 1000 >= 20 * hz;
              counters == if accepted
                          then old(counters)[FromButton5 := (old(counters[FromButton5]) + 1) % 0x1_0000_0000_0000_0000]
                          else old(counters)
      ensures workScheduled <==> old(workScheduled) || canDebounce || now * 1000 >= 20 * hz
    {
      AcceptsExactly(now, 0, hz);
      if !canDebounce && Msec(now, 0, hz) < DEBOUNCE_MSEC {
        return;
      }
      Capture(FromButton5, BUTTON_5);
    }

    method Button6Irq(now: nat)
      requires Valid()
      modifies this`counters, this`workScheduled, captureBuffer`head, captureBuffer.buffer
      ensures Valid() && Bulk() == old(Bulk())
      ensures var accepted := canDebounce || now * 1000 >= 20 * hz;
              if accepted && |old(Captured())| < captureBuffer.capacity - 1
              then Captured() == old(Captured()) + [CaptureEvent(1, counters[FromButton6])]
              else Captured() == old(Captured())
      ensures var accepted := canDebounce || now * 1000 >= 20 * hz;
              counters == if accepted
                          then old(counters)[FromButton6 := (old(counters[FromButton6]) + 1) % 0x1_0000_0000_0000_0000]
                          else old(counters)
      ensures workScheduled <==> old(workScheduled) || canDebounce || now * 1000 >= 20 * hz
    {
      AcceptsExactly(now, 0, hz);
      if !canDebounce && Msec(now, 0, hz) < DEBOUNCE_MSEC {
        return;
      }
      Capture(FromButton6, BUTTON_6);
    }

    /**
    The rocker stores the jiffy of every event it accepts. `stackJiffy` and `stackButton`
    are the uninitialised locals: with hardware debounce `last_jiffy` takes the former.
    */
    method RockerIrq(irq: nat, lines: seq<nat>, now: nat, stackJiffy: nat, stackButton: int)
      requires Valid() && |lines| == 5
      modifies this`counters, this`workScheduled, this`rockerLast, captureBuffer`head, captureBuffer.buffer
      ensures Valid() && Bulk() == old(Bulk())
      ensures var accepted := canDebounce || (now - old(rockerLast)) * 1000 >= 20 * hz;
              if accepted && |old(Captured())| < captureBuffer.capacity - 1
              then Captured() == old(Captured())
                                 + [CaptureEvent(RockerButton(irq, lines, stackButton), counters[FromRocker])]
              else Captured() == old(Captured())
      ensures var accepted := canDebounce || (now - old(rockerLast)) * 1000 >= 20 * hz;
              counters == if accepted
                          then old(counters)[FromRocker := (old(counters[FromRocker]) + 1) % 0x1_0000_0000_0000_0000]
                          else old(counters)
      ensures var accepted := canDebounce || (now - old(rockerLast)) * 1000 >= 20 * hz;
              rockerLast == if !accepted then old(rockerLast) else if canDebounce then stackJiffy else now
      ensures workScheduled <==>
              old(workScheduled) || canDebounce || (now - old(rockerLast)) * 1000 >= 20 * hz
    {
      AcceptsExactly(now, rockerLast, hz);
      if !canDebounce && Msec(now, rockerLast, hz) < DEBOUNCE_MSEC {
        return;
      }
      rockerLast := if canDebounce then stackJiffy else now;
      Capture(FromRocker, RockerButton(irq, lines, stackButton));
    }

    /** The loop of the work item that fills the ten bulk words of a record. */
    method MakeRecord(captureEvent: CaptureEvent) returns (record: EventBulkData)
      ensures record == Expand(captureEvent)
      ensures record.captureEvent == captureEvent && |record.bulkData| == 10
      ensures forall i :: 0 <= i < 10 ==> record.bulkData[i] == (captureEvent.event + i) % 0x1_0000_0000_0000_0000
    {
      var bulkData := new nat[BULK_LENGTH];
      var idx := 0;
      while idx < BULK_LENGTH
        invariant 0 <= idx <= BULK_LENGTH
        invariant forall i :: 0 <= i < idx ==> bulkData[i] == Expand(captureEvent).bulkData[i]
      {
        bulkData[idx] := (captureEvent.event + idx) % U64_MODULUS;
        idx := idx + 1;
      }
      record := EventBulkData(captureEvent, bulkData[..]);
    }

    /** The section of the work item under the mutex: expand one event, push it, wake the pollers. */
    method PassOn(captureEvent: CaptureEvent)
      requires Valid()
      modifies this`wakes, bulkBuffer`head, bulkBuffer.buffer
      ensures Valid() && Captured() == old(Captured())
      ensures var fits := |old(Bulk())| < bulkBuffer.capacity - 1;
              && Bulk() == old(Bulk()) + (if fits then [Expand(captureEvent)] else [])
              && wakes == old(wakes) + (if fits then 1 else 0)
    {
      var space := bulkBuffer.Space();
      if space != 0 {
        var record := MakeRecord(captureEvent);
        var pushed := bulkBuffer.Push(record);
        if pushed == 0 {
          wakes := wakes + 1;
        }
      }
    }

    /**
    The guard and head of the work item's loop: front, copy, pop. Of `events`, `taken` are
    gone already.
    */
    method TakeCaptured(ghost events: seq<CaptureEvent>, ghost taken: nat) returns (captureEvent: Option<CaptureEvent>)
      requires Valid() && taken <= |events| && Captured() == events[taken..]
      modifies captureBuffer`tail
      ensures Valid() && Bulk() == old(Bulk())
      ensures AtEvent(events, taken, captureEvent, Captured())
    {
      var slot := captureBuffer.Front();
      if slot.None? {
        return None;
      }
      captureEvent := Some(captureBuffer.buffer[slot.value]);
      captureBuffer.Pop();
    }

    /** The loop of the work item, with `room` for the oldest events. */
    method WorkLoop(ghost room: nat)
      requires Valid()
      requires room == Min(|Captured()|, bulkBuffer.capacity - 1 - |Bulk()|)
      modifies this`wakes, captureBuffer`tail, bulkBuffer`head, bulkBuffer.buffer
      ensures Valid() && Captured() == []
      ensures Bulk() == old(Bulk()) + ExpandAll(old(Captured())[..room]) && wakes == old(wakes) + room
    {
      ghost var events, bulk := Captured(), Bulk();
      ghost var taken := 0;
      var captureEvent := TakeCaptured(events, taken);
      while captureEvent.Some?
        invariant Valid()
        invariant AtEvent(events, taken, captureEvent, Captured())
        invariant Bulk() == Stored(bulk, events, room, taken)
        invariant wakes == old(wakes) + Min(taken, room)
        decreases |events| - taken
      {
        StoreNext(bulk, events, room, taken, bulkBuffer.capacity);
        PassOn(captureEvent.value);
        taken := taken + 1;
        captureEvent := TakeCaptured(events, taken);
      }
    }

    /**
    The work item, undisturbed, empties the capture ring; the oldest events that fit are
    expanded into the bulk ring in order, each with one wake-up, and the rest are lost.
    */
    method DoWork()
      requires Valid()
      modifies this`wakes, captureBuffer`tail, bulkBuffer`head, bulkBuffer.buffer
      ensures Valid() && Captured() == []
      ensures var events, bulk := |old(Captured())|, |old(Bulk())|;
              |Bulk()| == if bulk + events <= bulkBuffer.capacity - 1 then bulk + events
                          else bulkBuffer.capacity - 1
      ensures Bulk() == old(Bulk()) + ExpandAll(old(Captured())[..|Bulk()| - |old(Bulk())|])
      ensures wakes == old(wakes) + |Bulk()| - |old(Bulk())|
    {
      WorkLoop(Min(|Captured()|, bulkBuffer.capacity - 1 - |Bulk()|));
    }

    /** The body of the read loop: the oldest record is copied out unless there is none or the copy faults. */
    method CopyOut(faulty: bool) returns (record: Option<EventBulkData>)
      requires Valid()
      modifies bulkBuffer`tail
      ensures Valid() && Captured() == old(Captured())
      ensures old(Bulk()) == [] || faulty ==> record == None && Bulk() == old(Bulk())
      ensures old(Bulk()) != [] && !faulty ==> record.Some? && old(Bulk()) == [record.value] + Bulk()
    {
      var slot := bulkBuffer.Front();
      if slot.None? || faulty {
        return None;
      }
      record := Some(bulkBuffer.buffer[slot.value]);
      bulkBuffer.Pop();
    }

    /** The loop of `read`, on a count that is a number of whole records. */
    method ReadLoop(count: nat, fault: nat) returns (ret: int, out: seq<EventBulkData>)
      requires Valid() && count % RECORD_SIZE == 0
      modifies bulkBuffer`tail
      ensures Valid() && Captured() == old(Captured())
      ensures ReadOutcome(ret, |out|) == Read(count, |old(Bulk())|, bulkBuffer.capacity, fault)
      ensures old(Bulk()) == out + Bulk()
    {
      ghost var held := Bulk();
      ret, out := 0, [];
      var left: nat := count;
      var space := bulkBuffer.Space();
      while left >= RECORD_SIZE && space != 0
        invariant Valid() && Captured() == old(Captured())
        invariant held == out + Bulk() && |Bulk()| + space == bulkBuffer.capacity - 1
        invariant Reading(count, left, ret, |held|, |out|, bulkBuffer.capacity, fault)
        decreases left
      {
        left := left - RECORD_SIZE;
        var record := CopyOut(|out| == fault);
        if record.None? {
          ReadStops(count, |held|, bulkBuffer.capacity, fault, |out|);
          return 0 - EPERM, out;
        }
        NextToFront(held, out, record.value, Bulk());
        out := out + [record.value];
        ret := ret + RECORD_SIZE;
        space := bulkBuffer.Space();
      }
      ReadEnds(count, |held|, bulkBuffer.capacity, fault, |out|, left);
    }

    /**
    `read` of `count` bytes, where `fault` is the index of the first record whose copy to
    user space fails. `out` is what reached the user's buffer: always the oldest records.
    */
    method ReadRecords(count: nat, fault: nat) returns (ret: int, out: seq<EventBulkData>)
      requires Valid()
      modifies bulkBuffer`tail
      ensures Valid() && Captured() == old(Captured())
      ensures ReadOutcome(ret, |out|) == Read(count, |old(Bulk())|, bulkBuffer.capacity, fault)
      ensures old(Bulk()) == out + Bulk()
      ensures count % 96 != 0 ==> ret == -1 && out == [] && Bulk() == old(Bulk())
      ensures count % 96 == 0 && (count == 0 || |old(Bulk())| == bulkBuffer.capacity - 1) ==>
                ret == 0 && out == [] && Bulk() == old(Bulk())
      ensures var held, n := |old(Bulk())|, count / 96;
              count % 96 == 0 && count > 0 && held != bulkBuffer.capacity - 1 ==>
                if n <= held && n <= fault then ret == count && |out| == n
                else ret == -1 && |out| == if held <= fault then held else fault
      ensures var held, n := |old(Bulk())|, count / 96;
              count % 96 == 0 && 0 < n <= held && n <= fault ==>
                (ret == count && |out| == n <==> held != bulkBuffer.capacity - 1)
      ensures var held, n := |old(Bulk())|, count / 96;
              (if ret < 0 then out == [] else ret == 96 * |out|)
              <==>
              (count % 96 != 0 || held == bulkBuffer.capacity - 1 || held == 0 || fault == 0
               || (n <= held && n <= fault))
    {
      ReadGoes(count, |Bulk()|, bulkBuffer.capacity, fault);
      ReadReportsWhatItTook(count, |Bulk()|, bulkBuffer.capacity, fault);
      ReadDeliversUnlessFull(count, |Bulk()|, bulkBuffer.capacity, fault);
      if count % RECORD_SIZE != 0 {
        ret, out := 0 - EPERM, [];
      } else {
        ret, out := ReadLoop(count, fault);
      }
    }

    /** `poll`, after it has put the caller on the wait queue. */
    method PollMask() returns (mask: nat)
      requires Valid()
      ensures mask == if Bulk() != [] then 0x41 else if pollEnabled then 0 else 0x10
    {
      var empty := bulkBuffer.Empty();
      if !empty {
        mask := POLLIN + POLLRDNORM;
      } else if !pollEnabled {
        mask := POLLHUP;
      } else {
        mask := 0;
      }
    }

    method Ioctl(cmd: nat) returns (ret: int)
      modifies this`pollEnabled, this`wakes
      ensures ret == 0
      ensures pollEnabled == (old(pollEnabled) && cmd != 0x4505)
      ensures wakes == old(wakes) + if cmd == 0x4505 then 1 else 0
    {
      if cmd == IoctlCode(CMD_RELEASE_POLL_SEQ_NUM) {
        pollEnabled := false;
        wakes := wakes + 1;
      }
      ret := 0;
    }
  }

  /** Five presses of button 5 and then the work item. */
  method FivePresses(device: EventDevice)
    requires device.Valid() && device.canDebounce
    requires device.captureBuffer.capacity == CAPTURE_CAPACITY && device.bulkBuffer.capacity == BULK_CAPACITY
    requires device.Captured() == [] && |device.Bulk()| + 5 < BULK_CAPACITY
    modifies device`counters, device`workScheduled, device`wakes
    modifies device.captureBuffer`head, device.captureBuffer`tail, device.captureBuffer.buffer
    modifies device.bulkBuffer`head, device.bulkBuffer.buffer
    ensures device.Valid() && device.Captured() == [] && |device.Bulk()| == |old(device.Bulk())| + 5
  {
    var i := 0;
    while i < 5
      invariant 0 <= i <= 5 && device.Valid() && device.canDebounce
      invariant |device.Captured()| == i && device.Bulk() == old(device.Bulk())
    {
      device.Button5Irq(0);
      i := i + 1;
    }
    device.DoWork();
  }

  /**
  A client that shows the full second ring happening: after fifteen presses that nobody
  read, the ring holds fifteen records, and a read of one returns 0 and gets nothing.
  */
  method FillWithoutReading() returns (device: EventDevice, ret: int, out: seq<EventBulkData>)
    ensures device.Valid() && device.Captured() == [] && |device.Bulk()| == 15
    ensures device.captureBuffer.capacity == CAPTURE_CAPACITY && device.bulkBuffer.capacity == BULK_CAPACITY
    ensures ret == 0 && out == []
  {
    device := new EventDevice(100, true);
    var started := device.Init(true, true);
    FivePresses(device);
    FivePresses(device);
    FivePresses(device);
    ret, out := device.ReadRecords(RECORD_SIZE, 1);
  }
}
