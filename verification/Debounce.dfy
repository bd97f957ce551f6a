/**
The software debounce of the interrupt handlers (gpio_oled_irq.c) and what it means for
the first ring buffer when only the rocker fires. Only the rocker handler stores the
jiffy of an accepted event; the two buttons compare with a `last_jiffy` that stays 0.
*/
module Debounce {

  const DEBOUNCE_MSEC := 20

  /** C's division of `long`, which truncates toward zero. */
  function TruncDiv(a: int, b: nat): int
    requires b > 0
  {
    if a >= 0 then a / b else 0 - ((0 - a) / b)
  }

  /** `time_diff * 1000 / HZ` */
  function Msec(now: nat, last: nat, hz: nat): int
    requires hz > 0
  {
    TruncDiv((now - last) * 1000, hz)
  }

  predicate Accepts(now: nat, last: nat, hz: nat)
    requires hz > 0
  {
    !(Msec(now, last, hz) < DEBOUNCE_MSEC)
  }

  /** The truncated millisecond test is an exact comparison of jiffies. */
  lemma AcceptsExactly(now: nat, last: nat, hz: nat)
    requires hz > 0
    ensures Accepts(now, last, hz) <==> (now - last) * 1000 >= 20 * hz
  {
    var a := (now - last) * 1000;
    if a >= 0 {
      DivideAtLeast(a, hz, DEBOUNCE_MSEC);
    } else {
      DivideAtLeast(0 - a, hz, 0);
      assert DEBOUNCE_MSEC * hz > 0;
    }
  }

  lemma DivideAtLeast(a: nat, b: nat, q: nat)
    requires b > 0
    ensures a / b >= q <==> a >= q * b
  {
    var d, r := a / b, a % b;
    assert a == d * b + r;
    Scaled(d, q, b);
    Scaled(q, d + 1, b);
    assert (d + 1) * b == d * b + b;
  }

  lemma Scaled(m: nat, n: nat, b: nat)
    ensures m >= n ==> m * b >= n * b
    ensures n >= m ==> n * b >= m * b
  {
    assert m * b - n * b == (m - n) * b;
  }

  /**
  What storing `last_jiffy` is for. After an event accepted at `now`, a handler that stores
  the jiffy accepts a later one exactly when it is an interval away; the buttons, which
  leave it at 0, accept every later one, bounces in the same jiffy included.
  */
  lemma StoredJiffySpacesEvents(now: nat, later: nat, hz: nat)
    requires hz > 0 && now <= later && Accepts(now, 0, hz)
    ensures Accepts(later, now, hz) <==> (later - now) * 1000 >= 20 * hz
    ensures Accepts(later, 0, hz)
    ensures !Accepts(now, now, hz)
  {
    AcceptsExactly(now, 0, hz);
    AcceptsExactly(later, 0, hz);
    AcceptsExactly(later, now, hz);
    AcceptsExactly(now, now, hz);
  }

  /** What can happen to the rocker and the first ring buffer, with the jiffy it happens at. */
  datatype Op =
    | Irq(now: nat)                // a rocker interrupt
    | Take(now: nat)               // the work item removes an event if there is one

  /** `accepted` counts events past the debounce, `dropped` the ones push refused. */
  datatype Tally = Tally(last: nat, held: nat, accepted: nat, dropped: nat)

  function Apply(t: Tally, op: Op, hz: nat, capacity: nat): Tally
    requires hz > 0
  {
    match op
    case Irq(now) =>
      if !Accepts(now, t.last, hz) then t
      else if t.held + 1 < capacity then Tally(now, t.held + 1, t.accepted + 1, t.dropped)
      else Tally(now, t.held, t.accepted + 1, t.dropped + 1)
    case Take(_) =>
      if t.held > 0 then t.(held := t.held - 1) else t
  }

  /** The tally after the first `n` operations. */
  function After(ops: seq<Op>, n: nat, hz: nat, capacity: nat): Tally
    requires hz > 0 && n <= |ops|
  {
    if n == 0 then Tally(0, 0, 0, 0)
    else Apply(After(ops, n - 1, hz, capacity), ops[n - 1], hz, capacity)
  }

  ghost predicate Monotone(ops: seq<Op>) {
    forall i, j :: 0 <= i <= j < |ops| ==> ops[i].now <= ops[j].now
  }

  /** The number of events accepted by operations `i` up to, not including, `j`. */
  function AcceptedIn(ops: seq<Op>, i: nat, j: nat, hz: nat, capacity: nat): int
    requires hz > 0 && i <= j <= |ops|
  {
    After(ops, j, hz, capacity).accepted - After(ops, i, hz, capacity).accepted
  }

  /** The most events a window of `d` jiffies can accept. */
  function WindowLimit(d: nat, hz: nat): nat
    requires hz > 0
  {
    (1000 * d) / (DEBOUNCE_MSEC * hz) + 1
  }

  /** `n` acceptances from jiffy `start` to jiffy `last` are a debounce interval apart. */
  predicate SpacedOut(n: int, start: int, last: int, gap: nat) {
    n > 0 ==> start <= last && (n - 1) * gap <= (last - start) * 1000
  }

  lemma OneMoreGap(n: nat, start: int, last: int, now: int, gap: nat)
    requires SpacedOut(n, start, last, gap)
    requires start <= now && (now - last) * 1000 >= gap
    ensures SpacedOut(n + 1, start, now, gap)
  {
    if n > 0 {
      assert n * gap == (n - 1) * gap + gap;
    }
  }

  /** Each acceptance at or after operation `i` moved `last` on by a debounce interval. */
  lemma {:induction false} LastAdvances(ops: seq<Op>, i: nat, j: nat, hz: nat, capacity: nat)
    requires hz > 0 && i <= j <= |ops| && Monotone(ops)
    ensures AcceptedIn(ops, i, j, hz, capacity) >= 0
    ensures AcceptedIn(ops, i, j, hz, capacity) > 0 ==>
              i < j && After(ops, j, hz, capacity).last <= ops[j - 1].now
    ensures i < j ==>
              SpacedOut(AcceptedIn(ops, i, j, hz, capacity), ops[i].now, After(ops, j, hz, capacity).last,
                        DEBOUNCE_MSEC * hz)
    decreases j - i
  {
    if i < j {
      LastAdvances(ops, i, j - 1, hz, capacity);
      var before, op := After(ops, j - 1, hz, capacity), ops[j - 1];
      assert ops[i].now <= op.now;
      if op.Irq? && Accepts(op.now, before.last, hz) {
        AcceptsExactly(op.now, before.last, hz);
        OneMoreGap(AcceptedIn(ops, i, j - 1, hz, capacity), ops[i].now, before.last, op.now, DEBOUNCE_MSEC * hz);
      }
    }
  }

  /** The rate bound: a window of `d` jiffies accepts at most `WindowLimit(d)` events. */
  lemma WindowRate(ops: seq<Op>, i: nat, j: nat, d: nat, hz: nat, capacity: nat)
    requires hz > 0 && i < j <= |ops| && Monotone(ops)
    requires ops[j - 1].now - ops[i].now <= d
    ensures AcceptedIn(ops, i, j, hz, capacity) <= WindowLimit(d, hz) == 1000 * d / (20 * hz) + 1
  {
    LastAdvances(ops, i, j, hz, capacity);
    var n, gap := AcceptedIn(ops, i, j, hz, capacity), DEBOUNCE_MSEC * hz;
    if n > 0 {
      assert (n - 1) * gap <= 1000 * d;
      DivideAtLeast(1000 * d, gap, n - 1);
    }
  }

  /** What is held cannot outgrow what was held plus what was accepted since. */
  lemma {:induction false} HeldGrowth(ops: seq<Op>, i: nat, j: nat, hz: nat, capacity: nat)
    requires hz > 0 && i <= j <= |ops|
    ensures After(ops, j, hz, capacity).held
            <= After(ops, i, hz, capacity).held + AcceptedIn(ops, i, j, hz, capacity)
    decreases j - i
  {
    if i < j {
      HeldGrowth(ops, i, j - 1, hz, capacity);
    }
  }

  /** The ring was empty at some moment in the `d` jiffies before operation `k`. */
  ghost predicate EmptiedWithin(ops: seq<Op>, k: nat, d: nat, hz: nat, capacity: nat)
    requires hz > 0 && k < |ops|
  {
    exists j: nat :: j <= k && After(ops, j, hz, capacity).held == 0 && ops[j].now + d >= ops[k].now
  }

  ghost predicate EmptiedOften(ops: seq<Op>, d: nat, hz: nat, capacity: nat)
    requires hz > 0
  {
    forall k: nat :: k < |ops| ==> EmptiedWithin(ops, k, d, hz, capacity)
  }

  /** An event accepted by operation `k` finds room. */
  lemma RoomAfterEmptying(ops: seq<Op>, k: nat, d: nat, hz: nat, capacity: nat)
    requires hz > 0 && k < |ops| && Monotone(ops)
    requires WindowLimit(d, hz) < capacity && EmptiedWithin(ops, k, d, hz, capacity)
    ensures After(ops, k + 1, hz, capacity).dropped == After(ops, k, hz, capacity).dropped
    ensures ops[k].Irq? && Accepts(ops[k].now, After(ops, k, hz, capacity).last, hz) ==>
              After(ops, k, hz, capacity).held + 1 < capacity
  {
    var j: nat :| j <= k && After(ops, j, hz, capacity).held == 0 && ops[j].now + d >= ops[k].now;
    WindowRate(ops, j, k + 1, d, hz, capacity);
    HeldGrowth(ops, j, k, hz, capacity);
  }

  lemma NoDropNext(ops: seq<Op>, k: nat, d: nat, hz: nat, capacity: nat)
    requires hz > 0 && k < |ops| && Monotone(ops) && WindowLimit(d, hz) < capacity
    requires EmptiedOften(ops, d, hz, capacity) && After(ops, k, hz, capacity).dropped == 0
    ensures After(ops, k + 1, hz, capacity).dropped == 0
  {
    RoomAfterEmptying(ops, k, d, hz, capacity);
  }

  lemma {:induction false} NoDropsSoFar(ops: seq<Op>, n: nat, d: nat, hz: nat, capacity: nat)
    requires hz > 0 && n <= |ops| && Monotone(ops) && WindowLimit(d, hz) < capacity
    requires EmptiedOften(ops, d, hz, capacity)
    ensures After(ops, n, hz, capacity).dropped == 0
    decreases n
  {
    if n > 0 {
      NoDropsSoFar(ops, n - 1, d, hz, capacity);
      NoDropNext(ops, n - 1, d, hz, capacity);
    }
  }

  /**
  A ring of `capacity` slots that is emptied at least once in every `d` jiffies, with
  `d` jiffies shorter than `capacity - 1` debounce intervals, never drops a rocker event.
  */
  lemma EmptiedOftenNeverDrops(ops: seq<Op>, d: nat, hz: nat, capacity: nat)
    requires hz > 0 && capacity > 0 && Monotone(ops)
    requires 1000 * d < (capacity - 1) * (20 * hz)
    requires EmptiedOften(ops, d, hz, capacity)
    ensures forall n: nat :: n <= |ops| ==> After(ops, n, hz, capacity).dropped == 0
    ensures forall k: nat ::
              k < |ops| && ops[k].Irq? && Accepts(ops[k].now, After(ops, k, hz, capacity).last, hz)
              ==> After(ops, k, hz, capacity).held + 1 < capacity
  {
    DivideAtLeast(1000 * d, DEBOUNCE_MSEC * hz, capacity - 1);
    forall n: nat | n <= |ops| ensures After(ops, n, hz, capacity).dropped == 0 {
      NoDropsSoFar(ops, n, d, hz, capacity);
    }
    forall k: nat | k < |ops| && ops[k].Irq? && Accepts(ops[k].now, After(ops, k, hz, capacity).last, hz)
      ensures After(ops, k, hz, capacity).held + 1 < capacity
    {
      RoomAfterEmptying(ops, k, d, hz, capacity);
    }
  }
}
