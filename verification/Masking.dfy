/**
The index arithmetic of the power-of-two ring buffer: the capacity test of `init`,
the masking by `capacity - 1`, and the two counting macros of linux/circ_buf.h
(`CIRC_CNT` and `CIRC_SPACE`) that the ring buffer is written with.

C's `&` is modelled on naturals, bit by bit. A C `int` that meets a `size_t` is
converted to 64 bits, which `ToSizeT` writes out.
*/
module Masking {

  const SIZE_T_MODULUS: nat := 0x1_0000_0000_0000_0000
  const MAX_CAPACITY: nat := 0x4000_0000

  /** Bitwise conjunction. */
  function And(a: nat, b: nat): nat
    decreases a
  {
    if a == 0 || b == 0 then 0
    else 2 * And(a / 2, b / 2) + (if a % 2 == 1 && b % 2 == 1 then 1 else 0)
  }

  function Pow2(k: nat): (p: nat)
    ensures p > 0
  {
    if k == 0 then 1 else 2 * Pow2(k - 1)
  }

  ghost predicate IsPow2(n: nat) {
    exists k: nat :: n == Pow2(k)
  }

  predicate Bit(n: nat, i: nat) {
    if i == 0 then n % 2 == 1 else Bit(n / 2, i - 1)
  }

  /** `And` is conjunction in every bit position. */
  lemma {:induction false} AndIsBitwise(a: nat, b: nat, i: nat)
    ensures Bit(And(a, b), i) <==> Bit(a, i) && Bit(b, i)
    decreases i
  {
    if a == 0 || b == 0 {
      ZeroHasNoBits(i);
    } else if i > 0 {
      AndIsBitwise(a / 2, b / 2, i - 1);
    }
  }

  lemma {:induction false} ZeroHasNoBits(i: nat)
    ensures !Bit(0, i)
  {
    if i > 0 {
      ZeroHasNoBits(i - 1);
    }
  }

  lemma {:induction false} AndSelf(a: nat)
    ensures And(a, a) == a
  {
    if a > 0 {
      AndSelf(a / 2);
    }
  }

  lemma EvenPow2(m: nat)
    ensures IsPow2(2 * m) <==> IsPow2(m)
  {
    if IsPow2(m) {
      var k: nat :| m == Pow2(k);
      assert 2 * m == Pow2(k + 1);
    }
    if IsPow2(2 * m) {
      var k: nat :| 2 * m == Pow2(k);
      assert k > 0;
      assert m == Pow2(k - 1);
    }
  }

  lemma OddPow2(n: nat)
    requires n % 2 == 1 && n > 1
    ensures !IsPow2(n)
  {
    forall k: nat ensures n != Pow2(k) {
      if k > 0 {
        assert Pow2(k) == 2 * Pow2(k - 1);
      }
    }
  }

  /** The test of `init` accepts exactly the powers of two. */
  lemma {:induction false} CapacityTest(n: nat)
    requires n != 0
    ensures And(n, n - 1) == 0 <==> IsPow2(n)
  {
    if n % 2 == 0 {
      CapacityTest(n / 2);
      assert (n - 1) / 2 == n / 2 - 1;
      assert n == 2 * (n / 2);
      EvenPow2(n / 2);
    } else if n == 1 {
      assert n == Pow2(0);
    } else {
      AndSelf(n / 2);
      assert (n - 1) / 2 == n / 2;
      OddPow2(n);
    }
  }

  /** Masking with a power of two less one keeps the remainder. */
  lemma {:induction false} MaskIsModulus(a: nat, k: nat)
    ensures And(a, Pow2(k) - 1) == a % Pow2(k)
    decreases k
  {
    if k > 0 {
      var half := Pow2(k - 1);
      MaskIsModulus(a / 2, k - 1);
      AndOdd(a, 2 * half - 1, half - 1);
      DoubleModulus(a, half);
    }
  }

  lemma AndOdd(a: nat, b: nat, m: nat)
    requires b == 2 * m + 1
    ensures And(a, b) == 2 * And(a / 2, m) + a % 2
  {
    assert b / 2 == m && b % 2 == 1;
  }

  lemma DoubleModulus(a: nat, p: nat)
    requires p > 0
    ensures a % (2 * p) == 2 * ((a / 2) % p) + a % 2
  {
    var q, r := (a / 2) / p, (a / 2) % p;
    assert a / 2 == q * p + r;
    assert q * (2 * p) == 2 * (q * p);
    assert a == q * (2 * p) + (2 * r + a % 2);
    ModulusUnique(a, 2 * p, q, 2 * r + a % 2);
  }

  lemma ModulusUnique(a: int, m: nat, q: int, r: nat)
    requires m > 0 && r < m
    requires a == q * m + r
    ensures a % m == r
  {
    var d := a / m - q;
    assert a == (a / m) * m + a % m;
    assert d * m == (a / m) * m - q * m;
    assert d * m == r - a % m;
    MultipleIsFar(d, m);
  }

  lemma MultipleIsFar(d: int, m: nat)
    ensures d >= 1 ==> d * m >= m
    ensures d <= -1 ==> d * m <= 0 - m
  {
    if d >= 1 {
      assert d * m == (d - 1) * m + m;
    } else if d <= -1 {
      assert d * m == (d + 1) * m - m;
    }
  }

  lemma {:induction false} Pow2Splits(i: nat, j: nat)
    ensures Pow2(i + j) == Pow2(i) * Pow2(j)
  {
    if i > 0 {
      Pow2Splits(i - 1, j);
      assert Pow2(i + j) == 2 * (Pow2(i - 1) * Pow2(j));
    }
  }

  lemma Pow2Sixteen()
    ensures Pow2(16) == 0x1_0000
  {
    assert Pow2(4) == 16;
    Pow2Splits(4, 4);
    assert Pow2(8) == 256;
    Pow2Splits(8, 8);
  }

  lemma Pow2SizeT()
    ensures Pow2(64) == SIZE_T_MODULUS
  {
    Pow2Sixteen();
    Pow2Splits(16, 16);
    Pow2Splits(32, 32);
  }

  lemma {:induction false} Pow2Grows(i: nat, j: nat)
    requires i <= j
    ensures Pow2(i) <= Pow2(j)
  {
    if i < j {
      Pow2Grows(i, j - 1);
    }
  }

  /** The conversion of a C `int` to the 64-bit `size_t`. */
  function ToSizeT(x: int): nat {
    x % SIZE_T_MODULUS
  }

  /** `CIRC_CNT(head, tail, capacity)` */
  function CircCnt(head: int, tail: int, capacity: nat): nat
    requires capacity > 0
  {
    And(ToSizeT(head - tail), capacity - 1)
  }

  /** `CIRC_SPACE(head, tail, capacity)` */
  function CircSpace(head: int, tail: int, capacity: nat): nat
    requires capacity > 0
  {
    CircCnt(tail, head + 1, capacity)
  }

  /** The advance of an index: `(index + 1) & (capacity - 1)`. */
  function Advance(index: int, capacity: nat): nat
    requires capacity > 0
  {
    And(ToSizeT(index + 1), capacity - 1)
  }

  /** The masked difference is the true modulus, negative differences included. */
  lemma CircCntIsModulus(head: int, tail: int, capacity: nat)
    requires IsPow2(capacity) && capacity <= MAX_CAPACITY
    ensures CircCnt(head, tail, capacity) == (head - tail) % capacity
  {
    SizeTMask(head - tail, capacity);
  }

  lemma SizeTMask(x: int, capacity: nat)
    requires IsPow2(capacity) && capacity <= MAX_CAPACITY
    ensures And(ToSizeT(x), capacity - 1) == x % capacity
  {
    var k: nat :| capacity == Pow2(k);
    MaskIsModulus(ToSizeT(x), k);
    Pow2SizeT();
    if k > 64 {
      Pow2Grows(64, k);
    }
    Pow2Splits(k, 64 - k);
    ModulusOfMultiple(x, capacity, Pow2(64 - k));
  }

  lemma ModulusOfMultiple(x: int, c: nat, d: nat)
    requires c > 0 && d > 0 && c * d > 0
    ensures (x % (c * d)) % c == x % c
  {
    var m := c * d;
    var q, r := x / m, x % m;
    var s, t := r / c, r % c;
    assert x == q * m + r && r == s * c + t;
    assert q * m == (q * d) * c by {
      assert q * (c * d) == (q * d) * c;
    }
    assert (q * d + s) * c == (q * d) * c + s * c;
    ModulusUnique(x, c, q * d + s, t);
  }

  /** The number of elements between tail and head going round the ring. */
  function Distance(head: int, tail: int, capacity: nat): int {
    if head >= tail then head - tail else head - tail + capacity
  }

  /** An index at most one lap past the end, brought back. */
  function Wrap(index: int, capacity: nat): int {
    if index < capacity then index else index - capacity
  }

  predicate InRing(index: int, capacity: nat) {
    0 <= index < capacity
  }

  lemma MaskedCount(head: int, tail: int, capacity: nat)
    requires IsPow2(capacity) && capacity <= MAX_CAPACITY
    requires InRing(head, capacity) && InRing(tail, capacity)
    ensures CircCnt(head, tail, capacity) == Distance(head, tail, capacity)
  {
    CircCntIsModulus(head, tail, capacity);
    ModulusUnique(head - tail, capacity, if head >= tail then 0 else -1, Distance(head, tail, capacity));
  }

  lemma MaskedSpace(head: int, tail: int, capacity: nat)
    requires IsPow2(capacity) && capacity <= MAX_CAPACITY
    requires InRing(head, capacity) && InRing(tail, capacity)
    ensures CircSpace(head, tail, capacity) == capacity - 1 - Distance(head, tail, capacity)
  {
    CircCntIsModulus(tail, head + 1, capacity);
    ModulusUnique(tail - (head + 1), capacity, if head >= tail then -1 else 0,
                  capacity - 1 - Distance(head, tail, capacity));
  }

  lemma MaskedAdvance(index: int, capacity: nat)
    requires IsPow2(capacity) && capacity <= MAX_CAPACITY && InRing(index, capacity)
    ensures Advance(index, capacity) == Wrap(index + 1, capacity)
  {
    SizeTMask(index + 1, capacity);
    ModulusUnique(index + 1, capacity, if index + 1 < capacity then 0 else 1, Wrap(index + 1, capacity));
  }

  /** What the three masked expressions of the ring buffer compute on in-range indices. */
  lemma MaskedIndices(head: int, tail: int, capacity: nat)
    requires IsPow2(capacity) && capacity <= MAX_CAPACITY
    requires InRing(head, capacity) && InRing(tail, capacity)
    ensures CircCnt(head, tail, capacity) == Distance(head, tail, capacity)
    ensures CircSpace(head, tail, capacity) == capacity - 1 - Distance(head, tail, capacity)
    ensures Advance(head, capacity) == Wrap(head + 1, capacity)
    ensures CircCnt(head, tail, capacity) + CircSpace(head, tail, capacity) == capacity - 1
  {
    MaskedCount(head, tail, capacity);
    MaskedSpace(head, tail, capacity);
    MaskedAdvance(head, capacity);
  }
}
