/**
The queue that a ring of slots holds: the slots from `tail` up to, and not including,
`head`, going round the end. The sequential ring buffer and the interleaved one share
this abstraction.
*/
module RingWindow {
  import opened Masking

  predicate WellShaped<T>(slots: seq<T>, head: int, tail: int) {
    InRing(head, |slots|) && InRing(tail, |slots|)
  }

  /** The slot that is `i` places after `tail`. */
  function SlotAt(tail: int, i: int, capacity: nat): int {
    Wrap(tail + i, capacity)
  }

  /** The elements between `tail` and `head`, oldest first. */
  function Queue<T>(slots: seq<T>, head: int, tail: int): (q: seq<T>)
    requires WellShaped(slots, head, tail)
    ensures |q| == Distance(head, tail, |slots|)
    ensures forall i :: 0 <= i < |q| ==> q[i] == slots[SlotAt(tail, i, |slots|)]
  {
    seq(Distance(head, tail, |slots|),
        i requires 0 <= i < Distance(head, tail, |slots|) => slots[SlotAt(tail, i, |slots|)])
  }

  /** Whether slot `index` holds a queued element. */
  ghost predicate Occupied<T>(slots: seq<T>, head: int, tail: int, index: int)
    requires WellShaped(slots, head, tail)
  {
    exists i :: 0 <= i < Distance(head, tail, |slots|) && SlotAt(tail, i, |slots|) == index
  }

  /** The slot at head is free, and the slot at tail is occupied unless the ring is empty. */
  lemma EndsOfTheQueue<T>(slots: seq<T>, head: int, tail: int)
    requires WellShaped(slots, head, tail)
    ensures !Occupied(slots, head, tail, head)
    ensures Occupied(slots, head, tail, tail) <==> head != tail
  {
    if head != tail {
      assert SlotAt(tail, 0, |slots|) == tail;
    }
  }

  /** Writing a slot that is not occupied leaves the queue alone. */
  lemma WriteFreeSlot<T>(slots: seq<T>, head: int, tail: int, index: int, element: T)
    requires WellShaped(slots, head, tail) && InRing(index, |slots|)
    requires !Occupied(slots, head, tail, index)
    ensures Queue(slots[index := element], head, tail) == Queue(slots, head, tail)
  {
  }

  /** Advancing head past a slot that is not the last free one appends that slot. */
  lemma AdvanceHead<T>(slots: seq<T>, head: int, tail: int)
    requires WellShaped(slots, head, tail)
    requires Distance(head, tail, |slots|) < |slots| - 1
    ensures Queue(slots, Wrap(head + 1, |slots|), tail) == Queue(slots, head, tail) + [slots[head]]
  {
    var before, after := Queue(slots, head, tail), Queue(slots, Wrap(head + 1, |slots|), tail);
    assert SlotAt(tail, |before|, |slots|) == head;
    assert |after| == |before| + 1;
    assert after[..|before|] == before;
    assert after == after[..|before|] + [after[|before|]];
  }

  /** Advancing tail removes the oldest element, which is the one in the tail slot. */
  lemma AdvanceTail<T>(slots: seq<T>, head: int, tail: int)
    requires WellShaped(slots, head, tail) && head != tail
    ensures |Queue(slots, head, tail)| > 0 && Queue(slots, head, tail)[0] == slots[tail]
    ensures Queue(slots, head, Wrap(tail + 1, |slots|)) == Queue(slots, head, tail)[1..]
  {
    var before, after := Queue(slots, head, tail), Queue(slots, head, Wrap(tail + 1, |slots|));
    assert SlotAt(tail, 0, |slots|) == tail;
    forall i | 0 <= i < |after| ensures after[i] == before[i + 1] {
      assert SlotAt(Wrap(tail + 1, |slots|), i, |slots|) == SlotAt(tail, i + 1, |slots|);
    }
  }
}
