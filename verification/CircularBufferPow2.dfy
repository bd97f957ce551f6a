/**
The power-of-two ring buffer of modules/rpi_4b/1_i2c/OLED/module/circ_buffer_pow2_elements.c,
one call at a time. `Contents()` is the queue it stands for; one slot always stays free.
*/
module CircularBuffer {
  import opened DeviceInterface
  import opened Masking
  import opened RingWindow
  import opened Wrappers

  class CircularBufferPow2<T(0)> {
    var buffer: array?<T>
    var capacity: nat
    var head: int
    var tail: int

    constructor ()
      ensures buffer == null
    {
      buffer := null;
    }

    ghost predicate Valid()
      reads this
    {
      && buffer != null && buffer.Length == capacity
      && IsPow2(capacity) && capacity <= MAX_CAPACITY
      && InRing(head, capacity) && InRing(tail, capacity)
    }

    ghost function Contents(): (q: seq<T>)
      requires Valid()
      reads this, buffer
      ensures |q| < capacity
    {
      Queue(buffer[..], head, tail)
    }

    /**
    Takes the storage that `kmalloc` may or may not grant. A capacity over
    `MAX_CAPACITY` is accepted as in the source, but `int` indices do not reach it.
    */
    method Init(numElements: nat, granted: bool) returns (ret: int)
      modifies this
      ensures ret == (if !IsPow2(numElements) then -1 else if granted then 0 else -12)
      ensures ret == 0 ==> buffer != null && fresh(buffer) && buffer.Length == capacity == numElements
      ensures ret == 0 ==> head == 0 && tail == 0
      ensures ret == 0 && numElements <= MAX_CAPACITY ==> Valid() && Contents() == []
      ensures ret == -1 ==> unchanged(this)
      ensures ret == -12 ==> buffer == null && unchanged(`capacity) && unchanged(`head) && unchanged(`tail)
    {
      if numElements != 0 {
        CapacityTest(numElements);
      } else {
        assert forall k: nat :: Pow2(k) > 0;
      }
      if numElements == 0 || And(numElements, numElements - 1) != 0 {
        return -1;
      }
      if granted {
        buffer := new T[numElements];
        capacity := numElements;
        head := 0;
        tail := 0;
        ret := 0;
      } else {
        buffer := null;
        ret := 0 - ENOMEM;
      }
    }

    method Empty() returns (isEmpty: bool)
      requires Valid()
      ensures isEmpty <==> Contents() == []
    {
      isEmpty := head == tail;
    }

    method Clear()
      requires Valid()
      modifies this`head, this`tail
      ensures Valid() && Contents() == []
    {
      head := 0;
      tail := 0;
    }

    method Size() returns (n: nat)
      requires Valid()
      ensures n == |Contents()|
    {
      MaskedIndices(head, tail, capacity);
      n := And(ToSizeT(head - tail), capacity - 1);
    }

    method Space() returns (n: nat)
      requires Valid()
      ensures |Contents()| + n == capacity - 1
    {
      MaskedIndices(head, tail, capacity);
      n := CircCnt(tail, head + 1, capacity);
    }

    method Push(element: T) returns (ret: int)
      requires Valid()
      modifies this`head, buffer
      ensures Valid()
      ensures ret == (if |old(Contents())| == capacity - 1 then -1 else 0)
      ensures Contents() == old(Contents()) + (if ret == 0 then [element] else [])
    {
      MaskedIndices(head, tail, capacity);
      var space := CircSpace(head, tail, capacity);
      if space >= 1 {
        ghost var before := buffer[..];
        EndsOfTheQueue(before, head, tail);
        WriteFreeSlot(before, head, tail, head, element);
        buffer[head] := element;
        assert buffer[..] == before[head := element];
        AdvanceHead(buffer[..], head, tail);
        head := Advance(head, capacity);
        ret := 0;
      } else {
        ret := -1;
      }
    }

    /** The slot of the oldest element; `None` is the null pointer. */
    method Front() returns (slot: Option<nat>)
      requires Valid()
      ensures slot == None <==> Contents() == []
      ensures slot.Some? ==> slot.value < buffer.Length && buffer[slot.value] == Contents()[0]
    {
      MaskedIndices(head, tail, capacity);
      if CircCnt(head, tail, capacity) != 0 {
        AdvanceTail(buffer[..], head, tail);
        slot := Some(tail);
      } else {
        slot := None;
      }
    }

    method Pop()
      requires Valid()
      modifies this`tail
      ensures Valid()
      ensures Contents() == if old(Contents()) == [] then [] else old(Contents())[1..]
    {
      MaskedIndices(head, tail, capacity);
      MaskedIndices(tail, tail, capacity);
      if CircCnt(head, tail, capacity) != 0 {
        AdvanceTail(buffer[..], head, tail);
        tail := Advance(tail, capacity);
      }
    }
  }
}
