/**
Jiffies on the runs of the event pipeline: when the debounce keeps ring 1 from ever being
found full. The rocker handler compares with the jiffy of its last accepted event, the two
buttons with 0, so only rocker events are spaced out.
*/
module EventTiming {
  import Debounce
  import opened EventData
  import opened EventLedger
  import opened EventPipeline
  import Ring = SpscRing

  predicate RockerEvent(l: Label) {
    l.Accepted? && l.source.FromRocker?
  }

  predicate ButtonEvent(l: Label) {
    l.Accepted? && !l.source.FromRocker?
  }

  /** `last_jiffy` of the rocker before step `n`. */
  function LastStored(labels: seq<Label>, now: seq<nat>, n: nat): nat
    requires n <= |labels| == |now|
  {
    if n == 0 then 0
    else if RockerEvent(labels[n - 1]) then now[n - 1]
    else LastStored(labels, now, n - 1)
  }

  predicate DebouncedAt(labels: seq<Label>, now: seq<nat>, hz: nat, i: nat)
    requires hz > 0 && i < |labels| == |now|
  {
    && (RockerEvent(labels[i]) ==> Debounce.Accepts(now[i], LastStored(labels, now, i), hz))
    && (ButtonEvent(labels[i]) ==> Debounce.Accepts(now[i], 0, hz))
  }

  /** A run whose steps happen at the jiffies `now` and whose events passed the debounce. */
  ghost predicate TimedRun(states: seq<State>, labels: seq<Label>, now: seq<nat>, hz: nat)
    requires hz > 0
  {
    && Run(states, labels) && |now| == |labels|
    && (forall i, j :: 0 <= i <= j < |now| ==> now[i] <= now[j])
    && forall i :: 0 <= i < |labels| ==> DebouncedAt(labels, now, hz, i)
  }

  /** The number of rocker events among the first `n` labels. */
  function Rockers(labels: seq<Label>, n: nat): nat
    requires n <= |labels|
  {
    if n == 0 then 0 else Rockers(labels, n - 1) + (if RockerEvent(labels[n - 1]) then 1 else 0)
  }

  function Buttons(labels: seq<Label>, n: nat): nat
    requires n <= |labels|
  {
    if n == 0 then 0 else Buttons(labels, n - 1) + (if ButtonEvent(labels[n - 1]) then 1 else 0)
  }

  // ----- the rate of rocker events

  /** The rocker interrupts of a run; every other step counts for nothing. */
  function RockerOps(labels: seq<Label>, now: seq<nat>): (ops: seq<Debounce.Op>)
    requires |labels| == |now|
    ensures |ops| == |labels|
    ensures forall i :: 0 <= i < |ops| ==>
              ops[i] == if RockerEvent(labels[i]) then Debounce.Irq(now[i]) else Debounce.Take(now[i])
  {
    seq(|labels|, i requires 0 <= i < |labels| =>
        if RockerEvent(labels[i]) then Debounce.Irq(now[i]) else Debounce.Take(now[i]))
  }

  lemma {:induction false} TallyOfRun(states: seq<State>, labels: seq<Label>, now: seq<nat>, hz: nat, n: nat)
    requires hz > 0 && TimedRun(states, labels, now, hz) && n <= |labels|
    ensures var t := Debounce.After(RockerOps(labels, now), n, hz, 1);
            t.last == LastStored(labels, now, n) && t.accepted == Rockers(labels, n)
    decreases n
  {
    if n > 0 {
      TallyOfRun(states, labels, now, hz, n - 1);
      assert DebouncedAt(labels, now, hz, n - 1);
    }
  }

  /** The rate bound of the debounce on a stretch of a run. */
  lemma RockerRate(states: seq<State>, labels: seq<Label>, now: seq<nat>, hz: nat, j: nat, k: nat, d: nat)
    requires hz > 0 && TimedRun(states, labels, now, hz) && j <= k < |labels| && now[k] <= now[j] + d
    ensures Rockers(labels, k) <= Rockers(labels, j) + Debounce.WindowLimit(d, hz)
    ensures Rockers(labels, k) <= Rockers(labels, j) + 1000 * d / (20 * hz) + 1
  {
    if j < k {
      TallyOfRun(states, labels, now, hz, j);
      TallyOfRun(states, labels, now, hz, k);
      assert now[k - 1] <= now[k];
      Debounce.WindowRate(RockerOps(labels, now), j, k, d, hz, 1);
    }
  }

  // ----- the events on the way through ring 1

  /** Events in ring 1 or on their way into it. */
  ghost function Load(s: State): nat
    requires Ring.Shaped(s.ring1)
  {
    |Ring.Abs(s.ring1)| + Hand(s)
  }

  function Hand(s: State): nat {
    if s.handler.Pushing? then 1 else 0
  }

  lemma LoadOfStep(s: State, l: Label, s': State)
    requires Inv(s) && Next(s, l, s')
    ensures Inv(s') && Load(s') <= Load(s) + (if l.Accepted? then 1 else 0)
  {
    StepRefines(s, l, s');
    LoadOfView(ViewOf(s), l, ViewOf(s'), s.ring1.Capacity(), s.capacity2);
  }

  lemma LoadOfView(v: View, l: Label, v': View, capacity1: nat, capacity2: nat)
    requires ViewStep(v, l, v', capacity1, capacity2)
    ensures |v'.queue1| + |v'.hand| <= |v.queue1| + |v.hand| + (if l.Accepted? then 1 else 0)
  {
  }

  /** What a stretch of a run adds to ring 1 is at most what it accepted. */
  ghost predicate LoadGrows(states: seq<State>, labels: seq<Label>, j: nat, k: nat)
    requires j <= k <= |labels| && |states| == |labels| + 1
  {
    && Inv(states[j]) && Inv(states[k])
    && Load(states[k]) + Rockers(labels, j) + Buttons(labels, j)
       <= Load(states[j]) + Rockers(labels, k) + Buttons(labels, k)
  }

  lemma LoadGrowsOn(states: seq<State>, labels: seq<Label>, j: nat, k: nat)
    requires Run(states, labels) && j <= k < |labels| && LoadGrows(states, labels, j, k)
    ensures LoadGrows(states, labels, j, k + 1)
  {
    assert StepAt(states, labels, k);
    LoadOfStep(states[k], labels[k], states[k + 1]);
  }

  lemma {:induction false} LoadOfRun(states: seq<State>, labels: seq<Label>, j: nat, k: nat)
    requires Run(states, labels) && j <= k <= |labels|
    ensures LoadGrows(states, labels, j, k)
    decreases k - j
  {
    if j == k {
      RunKeepsSound(states, labels, j);
    } else {
      LoadOfRun(states, labels, j, k - 1);
      LoadGrowsOn(states, labels, j, k - 1);
    }
  }

  // ----- no event is refused

  /**
  Ring 1 was empty at step `j`, at most `d` jiffies before step `k`, and has room for what
  `d` jiffies can bring from the rocker, the buttons' events since, and an event that was
  being pushed at step `j`.
  */
  ghost predicate RelievedAt(states: seq<State>, labels: seq<Label>, now: seq<nat>, hz: nat, j: nat, k: nat, d: nat)
    requires hz > 0 && j <= k < |labels| == |now| && |states| == |labels| + 1
  {
    && Ring.Shaped(states[j].ring1) && Ring.Abs(states[j].ring1) == [] && now[k] <= now[j] + d
    && Debounce.WindowLimit(d, hz) + (Buttons(labels, k) - Buttons(labels, j)) + Hand(states[j])
       < states[0].ring1.Capacity()
  }

  /** Whenever a push loads tail, ring 1 was relieved shortly before. */
  ghost predicate RelievedInTime(states: seq<State>, labels: seq<Label>, now: seq<nat>, hz: nat, d: nat)
    requires hz > 0 && |labels| == |now| && |states| == |labels| + 1
  {
    forall k: nat :: k < |labels| && states[k].ring1.producer.LoadTail? ==>
      exists j: nat :: j <= k && RelievedAt(states, labels, now, hz, j, k, d)
  }

  /** A push that loads tail while ring 1 is relieved sees room. */
  lemma SeesRoom(states: seq<State>, labels: seq<Label>, now: seq<nat>, hz: nat, j: nat, k: nat, d: nat)
    requires hz > 0 && TimedRun(states, labels, now, hz) && j <= k < |labels|
    requires RelievedAt(states, labels, now, hz, j, k, d) && states[k].handler.Pushing?
    ensures Ring.Shaped(states[k].ring1) && |Ring.Abs(states[k].ring1)| + 1 < states[k].ring1.Capacity()
  {
    RockerRate(states, labels, now, hz, j, k, d);
    LoadOfRun(states, labels, j, k);
    RunKeepsSound(states, labels, k);
  }

  /**
  The debounce suffices: if every push finds that ring 1 was empty recently enough for
  what the debounce lets through, no event is dropped at capture, whatever the
  interleaving of its loads with the work item.
  */
  lemma NeverRefused(states: seq<State>, labels: seq<Label>, now: seq<nat>, hz: nat, d: nat, n: nat)
    requires hz > 0 && TimedRun(states, labels, now, hz) && n < |labels|
    requires RelievedInTime(states, labels, now, hz, d)
    ensures labels[n] != DroppedAtCapture
  {
    if labels[n] == DroppedAtCapture {
      RunKeepsSound(states, labels, n);
      assert StepAt(states, labels, n);
      DropHasSight(states[n], labels[n], states[n + 1]);
      var k := TestHasLook(states, labels, n);
      var j: nat :| j <= k && RelievedAt(states, labels, now, hz, j, k, d);
      SeesRoom(states, labels, now, hz, j, k, d);
      assert false;
    }
  }

  lemma {:induction false} NothingLostAtCapture(states: seq<State>, labels: seq<Label>, now: seq<nat>, hz: nat, d: nat,
                                                n: nat)
    requires hz > 0 && TimedRun(states, labels, now, hz) && n <= |labels|
    requires RelievedInTime(states, labels, now, hz, d)
    ensures HistoryOf(labels, n).lost1 == {}
    decreases n
  {
    if n > 0 {
      NothingLostAtCapture(states, labels, now, hz, d, n - 1);
      NeverRefused(states, labels, now, hz, d, n - 1);
    }
  }

  // ----- the rocker alone

  /** Ring 1 was empty at step `j` with no push in progress, at most `d` jiffies before step `k`. */
  ghost predicate EmptyAndIdle(states: seq<State>, now: seq<nat>, j: nat, k: nat, d: nat)
    requires j <= k < |now| < |states|
  {
    && Ring.Shaped(states[j].ring1) && Ring.Abs(states[j].ring1) == [] && !states[j].handler.Pushing?
    && now[k] <= now[j] + d
  }

  ghost predicate EmptyAndIdleInTime(states: seq<State>, now: seq<nat>, d: nat)
    requires |now| < |states|
  {
    forall k: nat :: k < |now| && states[k].ring1.producer.LoadTail? ==>
      exists j: nat :: j <= k && EmptyAndIdle(states, now, j, k, d)
  }

  lemma {:induction false} NoButtons(labels: seq<Label>, n: nat)
    requires n <= |labels| && forall i :: 0 <= i < |labels| ==> !ButtonEvent(labels[i])
    ensures Buttons(labels, n) == 0
  {
    if n > 0 {
      NoButtons(labels, n - 1);
    }
  }

  /** `d` jiffies shorter than `capacity - 1` debounce intervals bring less than ring 1 has room for. */
  lemma ShortWindow(d: nat, hz: nat, capacity: nat)
    requires hz > 0 && capacity > 0 && 1000 * d < (capacity - 1) * (20 * hz)
    ensures Debounce.WindowLimit(d, hz) < capacity
  {
    Debounce.DivideAtLeast(1000 * d, Debounce.DEBOUNCE_MSEC * hz, capacity - 1);
  }

  lemma IdleRelieves(states: seq<State>, labels: seq<Label>, now: seq<nat>, hz: nat, d: nat)
    requires hz > 0 && |labels| == |now| && |states| == |labels| + 1
    requires forall i :: 0 <= i < |labels| ==> !ButtonEvent(labels[i])
    requires Debounce.WindowLimit(d, hz) < states[0].ring1.Capacity() && EmptyAndIdleInTime(states, now, d)
    ensures RelievedInTime(states, labels, now, hz, d)
  {
    forall k: nat | k < |labels| && states[k].ring1.producer.LoadTail?
      ensures exists j: nat :: j <= k && RelievedAt(states, labels, now, hz, j, k, d)
    {
      var j: nat :| j <= k && EmptyAndIdle(states, now, j, k, d);
      NoButtons(labels, j);
      NoButtons(labels, k);
      assert RelievedAt(states, labels, now, hz, j, k, d);
    }
  }

  /** With the rocker alone, `d` jiffies may be anything shorter than `capacity - 1` debounce intervals. */
  lemma RockerAloneNeverRefused(states: seq<State>, labels: seq<Label>, now: seq<nat>, hz: nat, d: nat, n: nat)
    requires hz > 0 && TimedRun(states, labels, now, hz) && n <= |labels|
    requires forall i :: 0 <= i < |labels| ==> !ButtonEvent(labels[i])
    requires 1000 * d < (states[0].ring1.Capacity() - 1) * (20 * hz)
    requires EmptyAndIdleInTime(states, now, d)
    ensures HistoryOf(labels, n).lost1 == {}
    ensures forall i :: 0 <= i < |labels| ==> labels[i] != DroppedAtCapture
  {
    RunKeepsSound(states, labels, 0);
    ShortWindow(d, hz, states[0].ring1.Capacity());
    IdleRelieves(states, labels, now, hz, d);
    NothingLostAtCapture(states, labels, now, hz, d, n);
    forall i | 0 <= i < |labels| ensures labels[i] != DroppedAtCapture {
      NeverRefused(states, labels, now, hz, d, i);
    }
  }
}
