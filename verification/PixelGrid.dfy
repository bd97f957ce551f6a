/**
The picture that a frame buffer holds. After a prefix byte the buffer holds one byte for
every eight vertical pixels, page by page (i2c_oled.c); the picture is the set of lit
points of the grid `[0, width) x [0, 8 * pages)`.
*/
module PixelGrid {

  const PREFIX: bv8 := 0x40

  datatype Point = Point(x: nat, y: nat)

  /** `DIV_ROUND_UP(height, 8)` */
  function PagesFor(height: nat): nat {
    (height + 7) / 8
  }

  /** Bit `offset` of a byte. */
  predicate BitOf(b: bv8, offset: nat)
    requires offset < 8
  {
    (b >> (offset as bv8)) & 0x01 == 0x01
  }

  /** A byte with bit `offset` set to `on`. */
  function WithBit(b: bv8, offset: nat, on: bool): bv8
    requires offset < 8
  {
    (b & !((0x01 as bv8) << (offset as bv8))) | ((if on then 0x01 as bv8 else 0) << (offset as bv8))
  }

  lemma WithBitSetsOne(b: bv8, offset: nat, on: bool, other: nat)
    requires offset < 8 && other < 8
    ensures BitOf(WithBit(b, offset, on), other) == if other == offset then on else BitOf(b, other)
  {
    SmallConversion(offset);
    SmallConversion(other);
    BitVectorWithBit(b, offset as bv8, on, other as bv8);
  }

  lemma SmallConversion(n: nat)
    requires n < 8
    ensures (n as bv8) as nat == n && n as bv8 < 8
  {
  }

  lemma BitVectorWithBit(b: bv8, offset: bv8, on: bool, other: bv8)
    requires offset < 8 && other < 8
    ensures ((((b & !((0x01 as bv8) << offset)) | ((if on then 0x01 as bv8 else 0) << offset)) >> other) & 0x01 == 0x01)
            == if other == offset then on else (b >> other) & 0x01 == 0x01
  {
  }

  /** Bit 0, the least one, is the topmost pixel of a byte. */
  lemma BitsOfByte(b: bv8)
    ensures BitOf(b, 0) <==> b & 0x01 != 0
    ensures BitOf(b, 1) <==> b & 0x02 != 0
    ensures BitOf(b, 2) <==> b & 0x04 != 0
    ensures BitOf(b, 3) <==> b & 0x08 != 0
    ensures BitOf(b, 4) <==> b & 0x10 != 0
    ensures BitOf(b, 5) <==> b & 0x20 != 0
    ensures BitOf(b, 6) <==> b & 0x40 != 0
    ensures BitOf(b, 7) <==> b & 0x80 != 0
  {
  }

  lemma BitsDetermineByte(a: bv8, b: bv8)
    requires forall offset :: 0 <= offset < 8 ==> BitOf(a, offset) == BitOf(b, offset)
    ensures a == b
  {
    assert BitOf(a, 0) == BitOf(b, 0) && BitOf(a, 1) == BitOf(b, 1);
    assert BitOf(a, 2) == BitOf(b, 2) && BitOf(a, 3) == BitOf(b, 3);
    assert BitOf(a, 4) == BitOf(b, 4) && BitOf(a, 5) == BitOf(b, 5);
    assert BitOf(a, 6) == BitOf(b, 6) && BitOf(a, 7) == BitOf(b, 7);
  }

  // ----- where a pixel lives

  /** The place of a page's column in the display data. */
  function CellIndex(width: nat, page: nat, column: nat): nat {
    page * width + column
  }

  /** The byte of a pixel: `(y >> 3) * stride + x`, behind the prefix. */
  function ByteIndex(width: nat, x: nat, y: nat): nat {
    1 + CellIndex(width, y / 8, x)
  }

  /** The pixel of bit `offset` of byte `index`. */
  function PixelOf(width: nat, index: nat, offset: nat): Point
    requires width > 0 && index > 0 && offset < 8
  {
    Point((index - 1) % width, ((index - 1) / width) * 8 + offset)
  }

  predicate OnGrid(width: nat, pages: nat, p: Point) {
    p.x < width && p.y < 8 * pages
  }

  lemma RowBefore(width: nat, a: int, b: int)
    requires a < b
    ensures a * width + width <= b * width
  {
    var d: nat := b - a - 1;
    assert b * width == a * width + width + d * width by {
      assert b == a + 1 + d;
      assert (a + 1 + d) * width == a * width + width + d * width;
    }
    assert d * width >= 0;
  }

  lemma RowsApart(width: nat, a: int, b: int, i: int, j: int)
    requires 0 <= i < width && 0 <= j < width
    ensures a * width + i == b * width + j <==> a == b && i == j
    ensures a < b ==> a * width + i < b * width + j
  {
    if a < b {
      RowBefore(width, a, b);
    } else if b < a {
      RowBefore(width, b, a);
    }
  }

  lemma RowAndColumn(width: nat, row: nat, column: nat)
    requires column < width
    ensures (row * width + column) / width == row && (row * width + column) % width == column
  {
    var n := row * width + column;
    RowsApart(width, row, n / width, column, n % width);
  }

  /** Pixels of the grid and bits of the bytes behind the prefix are in one-to-one correspondence. */
  lemma PixelToBitAndBack(width: nat, pages: nat, p: Point)
    requires OnGrid(width, pages, p)
    ensures 1 <= ByteIndex(width, p.x, p.y) == 1 + (p.y / 8) * width + p.x <= width * pages
    ensures PixelOf(width, ByteIndex(width, p.x, p.y), p.y % 8) == p
  {
    RowAndColumn(width, p.y / 8, p.x);
    RowsApart(width, p.y / 8, pages, p.x, 0);
  }

  lemma BitToPixelAndBack(width: nat, pages: nat, index: nat, offset: nat)
    requires width > 0 && 1 <= index <= width * pages && offset < 8
    ensures var p := PixelOf(width, index, offset);
            OnGrid(width, pages, p) && ByteIndex(width, p.x, p.y) == index && p.y % 8 == offset
  {
    var row, column := (index - 1) / width, (index - 1) % width;
    assert index - 1 == row * width + column;
    if row >= pages {
      RowsBelow(width, pages, row);
      assert row * width <= index - 1;
    }
    assert (row * 8 + offset) / 8 == row;
  }

  lemma RowsBelow(width: nat, a: nat, b: nat)
    requires a <= b
    ensures a * width <= b * width
  {
    assert b * width == a * width + (b - a) * width;
  }

  // ----- the picture

  predicate IsFrame(buffer: seq<bv8>, width: nat, pages: nat) {
    width > 0 && |buffer| == width * pages + 1
  }

  predicate LitAt(buffer: seq<bv8>, width: nat, p: Point) {
    var index := ByteIndex(width, p.x, p.y);
    index < |buffer| && BitOf(buffer[index], p.y % 8)
  }

  function Grid(width: nat, pages: nat): set<Point> {
    Region(0, 0, width, 8 * pages)
  }

  /** The lit points of a frame buffer, padding rows included. */
  function Lit(buffer: seq<bv8>, width: nat, pages: nat): set<Point> {
    set p | p in Grid(width, pages) && LitAt(buffer, width, p)
  }

  /** What the picture is: a point of the grid is lit exactly when its bit of its byte is set. */
  lemma PointInPicture(buffer: seq<bv8>, width: nat, pages: nat, x: nat, y: nat)
    requires IsFrame(buffer, width, pages)
    ensures Point(x, y) in Lit(buffer, width, pages) ==> x < width && y < 8 * pages
    ensures x < width && y < 8 * pages ==>
              && 1 + (y / 8) * width + x < |buffer|
              && (Point(x, y) in Lit(buffer, width, pages) <==> BitOf(buffer[1 + (y / 8) * width + x], y % 8))
  {
    if x < width && y < 8 * pages {
      PixelToBitAndBack(width, pages, Point(x, y));
    }
  }

  predicate InRegion(x: nat, y: nat, w: nat, h: nat, p: Point) {
    x <= p.x < x + w && y <= p.y < y + h
  }

  /** The points of a rectangle. */
  function Region(x: nat, y: nat, w: nat, h: nat): (r: set<Point>)
    ensures forall p :: p in r <==> InRegion(x, y, w, h, p)
  {
    set i, j | x <= i < x + w && y <= j < y + h :: Point(i, j)
  }

  function Paint(lit: set<Point>, region: set<Point>, on: bool): set<Point> {
    if on then lit + region else lit - region
  }

  lemma PaintTwice(lit: set<Point>, a: set<Point>, b: set<Point>, on: bool)
    ensures Paint(Paint(lit, a, on), b, on) == Paint(lit, a + b, on)
  {
  }

  /** The same picture behind the same prefix is the same buffer. */
  lemma PictureDeterminesFrame(a: seq<bv8>, b: seq<bv8>, width: nat, pages: nat)
    requires IsFrame(a, width, pages) && IsFrame(b, width, pages) && a[0] == b[0]
    ensures Lit(a, width, pages) == Lit(b, width, pages) <==> a == b
  {
    if Lit(a, width, pages) == Lit(b, width, pages) {
      forall index | 1 <= index < |a| ensures a[index] == b[index] {
        forall offset | 0 <= offset < 8 ensures BitOf(a[index], offset) == BitOf(b[index], offset) {
          BitToPixelAndBack(width, pages, index, offset);
          var p := PixelOf(width, index, offset);
          assert p in Lit(a, width, pages) <==> p in Lit(b, width, pages);
        }
        BitsDetermineByte(a[index], b[index]);
      }
    }
  }

  // ----- writing one row of pixels

  /** `n` bytes from `first` on with bit `offset` set to `on`. */
  function WriteRow(buffer: seq<bv8>, first: nat, n: nat, offset: nat, on: bool): (r: seq<bv8>)
    requires offset < 8
    ensures |r| == |buffer|
    ensures forall i :: 0 <= i < |buffer| ==>
              r[i] == if first <= i < first + n then WithBit(buffer[i], offset, on) else buffer[i]
  {
    seq(|buffer|, i requires 0 <= i < |buffer| =>
      if first <= i < first + n then WithBit(buffer[i], offset, on) else buffer[i])
  }

  lemma SameBytes(width: nat, x: nat, y: nat, n: nat, p: Point)
    requires x + n <= width && p.x < width
    ensures var first := ByteIndex(width, x, y);
            first <= ByteIndex(width, p.x, p.y) < first + n <==> p.y / 8 == y / 8 && x <= p.x < x + n
  {
    if n > 0 {
      RowsApart(width, p.y / 8, y / 8, p.x, x);
      RowsApart(width, y / 8, p.y / 8, x + n - 1, p.x);
    }
  }

  /** Writing bit `y % 8` of the bytes of a row paints that row and nothing else. */
  lemma RowPaints(buffer: seq<bv8>, width: nat, pages: nat, x: nat, y: nat, n: nat, on: bool)
    requires IsFrame(buffer, width, pages) && x + n <= width && y < 8 * pages
    ensures Lit(WriteRow(buffer, ByteIndex(width, x, y), n, y % 8, on), width, pages)
            == Paint(Lit(buffer, width, pages), Region(x, y, n, 1), on)
  {
    var row := WriteRow(buffer, ByteIndex(width, x, y), n, y % 8, on);
    forall p | p in Grid(width, pages)
      ensures LitAt(row, width, p) == if InRegion(x, y, n, 1, p) then on else LitAt(buffer, width, p)
    {
      PixelToBitAndBack(width, pages, p);
      SameBytes(width, x, y, n, p);
      var index := ByteIndex(width, p.x, p.y);
      WithBitSetsOne(buffer[index], y % 8, on, p.y % 8);
    }
    forall p | InRegion(x, y, n, 1, p) ensures p in Grid(width, pages) {
    }
  }

  /** Writing the bit that a pixel indexes paints the pixel that owns it, on screen the pixel itself. */
  lemma PixelPaints(buffer: seq<bv8>, width: nat, pages: nat, x: nat, y: nat, on: bool)
    requires IsFrame(buffer, width, pages) && ByteIndex(width, x, y) <= width * pages
    ensures Lit(WriteRow(buffer, ByteIndex(width, x, y), 1, y % 8, on), width, pages)
            == Paint(Lit(buffer, width, pages), {PixelOf(width, ByteIndex(width, x, y), y % 8)}, on)
    ensures OnGrid(width, pages, Point(x, y)) ==> PixelOf(width, ByteIndex(width, x, y), y % 8) == Point(x, y)
  {
    var p := PixelOf(width, ByteIndex(width, x, y), y % 8);
    BitToPixelAndBack(width, pages, ByteIndex(width, x, y), y % 8);
    RowPaints(buffer, width, pages, p.x, p.y, 1, on);
    assert Region(p.x, p.y, 1, 1) == {p};
    if OnGrid(width, pages, Point(x, y)) {
      PixelToBitAndBack(width, pages, Point(x, y));
    }
  }
}
