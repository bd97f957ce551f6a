/**
The message that the writer process formats into shared memory (ipc/shared_mem_semaphore,
writer.cpp), and C strings in a fixed buffer.
*/
module HandshakeText {

  const BUFFER_SIZE: nat := 512
  const NUL: char := '\0'
  const INT_LIMIT: int := 0x8000_0000

  predicate IsInt(n: int) {
    -INT_LIMIT <= n < INT_LIMIT
  }

  function Digit(d: nat): (c: char)
    requires d < 10
    ensures c != NUL
  {
    "0123456789"[d]
  }

  function Digits(n: nat): (s: string)
    ensures NUL !in s
  {
    if n < 10 then [Digit(n)] else Digits(n / 10) + [Digit(n % 10)]
  }

  function Pow10(k: nat): nat {
    if k == 0 then 1 else 10 * Pow10(k - 1)
  }

  lemma {:induction false} DigitsLength(n: nat, k: nat)
    requires 0 < k && n < Pow10(k)
    ensures |Digits(n)| <= k
  {
    assert Pow10(1) == 10;
    if n >= 10 {
      DigitsLength(n / 10, k - 1);
    }
  }

  /** `%d` */
  function Decimal(n: int): (s: string)
    ensures NUL !in s
  {
    if n < 0 then "-" + Digits(0 - n) else Digits(n)
  }

  lemma DecimalLength(n: int)
    requires IsInt(n)
    ensures |Decimal(n)| <= 11
  {
    assert Pow10(5) == 100000;
    assert Pow10(10) == 10 * (10 * (10 * (10 * (10 * Pow10(5)))));
    DigitsLength(if n < 0 then 0 - n else n, 10);
  }

  function Text(pid: int, val: int): (s: string)
    ensures NUL !in s
  {
    "PID: " + Decimal(pid) + ", val: " + Decimal(val) + "\n"
  }

  // ----- reading a message back

  /** The number that a row of digits stands for. */
  function ReadBack(s: string): int {
    if s == [] then 0 else 10 * ReadBack(s[..|s| - 1]) + (s[|s| - 1] as int - '0' as int)
  }

  lemma DigitStands(d: nat)
    requires d < 10
    ensures Digit(d) as int == '0' as int + d && '0' <= Digit(d) <= '9'
  {
    assert d == 0 || d == 1 || d == 2 || d == 3 || d == 4 || d == 5 || d == 6 || d == 7 || d == 8 || d == 9;
  }

  lemma {:induction false} DigitsReadBack(n: nat)
    ensures ReadBack(Digits(n)) == n && Digits(n) != []
    ensures forall i :: 0 <= i < |Digits(n)| ==> '0' <= Digits(n)[i] <= '9'
  {
    DigitStands(n % 10);
    if n >= 10 {
      DigitsReadBack(n / 10);
      assert Digits(n)[..|Digits(n)| - 1] == Digits(n / 10);
    }
  }

  /** The decimal form of an `int` has no comma and determines it. */
  lemma DecimalReadsBack(n: int)
    ensures Decimal(n) != [] && ',' !in Decimal(n)
    ensures n == if Decimal(n)[0] == '-' then 0 - ReadBack(Decimal(n)[1..]) else ReadBack(Decimal(n))
  {
    DigitsReadBack(if n < 0 then 0 - n else n);
    if n < 0 {
      assert Decimal(n)[1..] == Digits(0 - n);
    }
  }

  lemma SameDecimal(m: int, n: int)
    requires Decimal(m) == Decimal(n)
    ensures m == n
  {
    DecimalReadsBack(m);
    DecimalReadsBack(n);
  }

  lemma DropFront(p: string, a: string, b: string)
    requires p + a == p + b
    ensures a == b
  {
    assert (p + a)[|p|..] == a && (p + b)[|p|..] == b;
  }

  lemma DropBack(a: string, b: string, z: string)
    requires a + z == b + z
    ensures a == b
  {
    assert |a + z| == |b + z|;
    assert (a + z)[..|a|] == a && (b + z)[..|b|] == b;
  }

  /** Two strings that agree up to and behind the first `mark`. */
  lemma SplitAtMark(a: string, b: string, c: string, d: string, mark: char)
    requires mark !in a && mark !in c && a + ([mark] + b) == c + ([mark] + d)
    ensures a == c && b == d
  {
    var s := a + ([mark] + b);
    assert s[|a|] == mark && s[|c|] == mark;
    assert forall i :: 0 <= i < |a| ==> s[i] == a[i] && a[i] in a;
    assert forall i :: 0 <= i < |c| ==> s[i] == c[i] && c[i] in c;
    assert |a| == |c|;
    assert a == s[..|a|] && c == s[..|c|];
    DropFront(a, [mark] + b, [mark] + d);
    DropFront([mark], b, d);
  }

  lemma SplitText(front: string, a: string, mark: char, middle: string, b: string, end: string, c: string, d: string)
    requires mark !in a && mark !in c
    requires front + a + ([mark] + middle) + b + end == front + c + ([mark] + middle) + d + end
    ensures a == c && b == d
  {
    assert front + a + ([mark] + middle) + b + end == front + (a + ([mark] + (middle + (b + end))));
    assert front + c + ([mark] + middle) + d + end == front + (c + ([mark] + (middle + (d + end))));
    DropFront(front, a + ([mark] + (middle + (b + end))), c + ([mark] + (middle + (d + end))));
    SplitAtMark(a, middle + (b + end), c, middle + (d + end), mark);
    DropFront(middle, b + end, d + end);
    DropBack(b, d, end);
  }

  /** A message tells both its numbers. */
  lemma TextDeterminesNumbers(pid: int, val: int, pid': int, val': int)
    ensures Text(pid, val) == Text(pid', val') <==> pid == pid' && val == val'
    ensures Text(7, -12) == "PID: 7, val: -12\n"
  {
    if Text(pid, val) == Text(pid', val') {
      DecimalReadsBack(pid);
      DecimalReadsBack(pid');
      assert ", val: " == [','] + " val: ";
      SplitText("PID: ", Decimal(pid), ',', " val: ", Decimal(val), "\n", Decimal(pid'), Decimal(val'));
      SameDecimal(pid, pid');
      SameDecimal(val, val');
    }
    TextExample();
  }

  lemma TextExample()
    ensures Text(7, -12) == "PID: 7, val: -12\n"
  {
    assert Digits(12) == Digits(1) + [Digit(2)];
  }

  /** sprintf never overruns the shared buffer. */
  lemma TextFits(pid: int, val: int)
    requires IsInt(pid) && IsInt(val)
    ensures |Text(pid, val)| <= 35 < BUFFER_SIZE
  {
    DecimalLength(pid);
    DecimalLength(val);
  }

  /** The buffer holds `text` as a C string. */
  predicate Holds(buffer: seq<char>, text: string) {
    |text| < |buffer| && buffer[..|text|] == text && buffer[|text|] == NUL && NUL !in text
  }
}
