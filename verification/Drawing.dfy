/**
What each user command means for the picture: the decoding done by `ess_oled_write` and
`ess_oled_ioctl`, and the effect of a command as an update of the set of lit points. The
driver in Oled is proved to do just this.
*/
module Drawing {
  import opened DeviceInterface
  import opened PixelGrid

  type U8 = n: nat | n < 256

  datatype Command =
    | Ignored
    | DisplayOff
    | DisplayOn
    | FillAll(on: bool)
    | PutPixel(x: U8, y: U8)
    | Box(x: U8, y: U8, w: U8, h: U8, on: bool)

  /** The command in the bytes of a write; `copied` is the copy from user space succeeding. */
  function ParseWrite(buff: seq<U8>, copied: bool): Command {
    if !copied || buff == [] then Ignored
    else if |buff| == 1 then
      if buff[0] == CMD_DISABLE_SEQ_NUM then DisplayOff
      else if buff[0] == CMD_ENABLE_SEQ_NUM then DisplayOn
      else if buff[0] == CMD_FILL_BUFFER_SEQ_NUM then FillAll(true)
      else if buff[0] == CMD_CLEAR_BUFFER_SEQ_NUM then FillAll(false)
      else Ignored
    else if |buff| == 3 && buff[0] == CMD_SET_PIXEL then PutPixel(buff[1], buff[2])
    else if |buff| == 4 && buff[0] == CMD_H_LINE then Box(buff[1], buff[2], buff[3], 1, true)
    else if |buff| == 4 && buff[0] == CMD_V_LINE then Box(buff[1], buff[2], 1, buff[3], true)
    else if |buff| == 5 && buff[0] == CMD_RECT_FILL then Box(buff[1], buff[2], buff[3], buff[4], true)
    else if |buff| == 5 && buff[0] == CMD_RECT_CLEAR then Box(buff[1], buff[2], buff[3], buff[4], false)
    else Ignored
  }

  function ParseIoctl(cmd: nat): Command {
    if cmd == IoctlCode(CMD_DISABLE_SEQ_NUM) then DisplayOff
    else if cmd == IoctlCode(CMD_ENABLE_SEQ_NUM) then DisplayOn
    else if cmd == IoctlCode(CMD_FILL_BUFFER_SEQ_NUM) then FillAll(true)
    else if cmd == IoctlCode(CMD_CLEAR_BUFFER_SEQ_NUM) then FillAll(false)
    else Ignored
  }

  predicate Draws(c: Command) {
    c.FillAll? || c.PutPixel? || c.Box?
  }

  /** `set_pixel` does not check its coordinates: they must index into the buffer. */
  predicate Safe(c: Command, width: nat, pages: nat) {
    c.PutPixel? ==> ByteIndex(width, c.x, c.y) <= width * pages
  }

  /** The on-screen part of a rectangle. */
  function Clip(x: nat, y: nat, w: nat, h: nat, width: nat, height: nat): set<Point> {
    Region(x, y, w, h) * Region(0, 0, width, height)
  }

  /** Whether a neighbour of `p` lies outside `area`. */
  predicate AtEdge(area: set<Point>, p: Point) {
    || p.x == 0 || Point(p.x - 1, p.y) !in area || Point(p.x + 1, p.y) !in area
    || p.y == 0 || Point(p.x, p.y - 1) !in area || Point(p.x, p.y + 1) !in area
  }

  /** The points of an area that touch its outside. */
  function Border(area: set<Point>): set<Point> {
    set p | p in area && AtEdge(area, p)
  }

  /**
  The picture after a command. An off-screen pixel that still indexes into the buffer
  lights the pixel that owns the bit.
  */
  function Draw(lit: set<Point>, c: Command, width: nat, height: nat): set<Point>
    requires width > 0
  {
    match c
    case FillAll(on) => if on then Grid(width, PagesFor(height)) else {}
    case PutPixel(x, y) => lit + {PixelOf(width, ByteIndex(width, x, y), y % 8)}
    case Box(x, y, w, h, on) => Paint(lit, Clip(x, y, w, h, width, height), on)
    case _ => lit
  }

  function DrawAll(lit: set<Point>, cs: seq<Command>, width: nat, height: nat): set<Point>
    requires width > 0
    decreases |cs|
  {
    if cs == [] then lit
    else Draw(DrawAll(lit, cs[..|cs| - 1], width, height), cs[|cs| - 1], width, height)
  }

  /**
  A pixel write stays inside the buffer exactly when its page and the pages that its column
  runs on by are fewer than there are; on a 128 by 64 panel (0, 64) already does not.
  */
  lemma PixelWriteInBuffer(width: nat, pages: nat, x: U8, y: U8)
    requires width > 0
    ensures Safe(PutPixel(x, y), width, pages) <==> y / 8 + x / width < pages
    ensures !Safe(PutPixel(0, 64), 128, 8)
  {
    var row := y / 8 + x / width;
    assert (y / 8) * width + x == row * width + x % width by {
      assert x == (x / width) * width + x % width;
      assert row * width == (y / 8) * width + (x / width) * width;
    }
    if row < pages {
      RowBefore(width, row, pages);
    } else {
      RowsBelow(width, pages, row);
    }
  }

  /** On the screen the pixel that owns the bit is the pixel asked for. */
  lemma PixelOnScreen(width: nat, pages: nat, x: nat, y: nat)
    requires OnGrid(width, pages, Point(x, y))
    ensures ByteIndex(width, x, y) <= width * pages
    ensures PixelOf(width, ByteIndex(width, x, y), y % 8) == Point(x, y)
  {
    PixelToBitAndBack(width, pages, Point(x, y));
  }

  // ----- what commands do, point by point

  lemma ClippedPoints(lit: set<Point>, x: nat, y: nat, w: nat, h: nat, on: bool, width: nat, height: nat)
    ensures forall p :: p in Paint(lit, Clip(x, y, w, h, width, height), on) <==>
              if x <= p.x < x + w && y <= p.y < y + h && p.x < width && p.y < height then on else p in lit
  {
  }

  lemma BorderPoints(x: nat, y: nat, w: nat, h: nat, width: nat, height: nat)
    ensures forall p :: p in Border(Clip(x, y, w, h, width, height)) <==>
              && x <= p.x < x + w && y <= p.y < y + h && p.x < width && p.y < height
              && (p.x == x || p.x == x + w - 1 || p.x == width - 1 || p.y == y || p.y == y + h - 1 || p.y == height - 1)
  {
    var clip := Clip(x, y, w, h, width, height);
    forall p | p in clip
      ensures AtEdge(clip, p) <==>
                p.x == x || p.x == x + w - 1 || p.x == width - 1 || p.y == y || p.y == y + h - 1 || p.y == height - 1
    {
      assert p.x > 0 ==> (Point(p.x - 1, p.y) !in clip <==> p.x == x);
      assert Point(p.x + 1, p.y) !in clip <==> p.x == x + w - 1 || p.x == width - 1;
      assert p.y > 0 ==> (Point(p.x, p.y - 1) !in clip <==> p.y == y);
      assert Point(p.x, p.y + 1) !in clip <==> p.y == y + h - 1 || p.y == height - 1;
    }
  }

  /** A rectangle, or the border of what is on screen of it, point by point. */
  lemma RectPoints(lit: set<Point>, x: nat, y: nat, w: nat, h: nat, fill: bool, on: bool, width: nat, height: nat)
    ensures var clip := Clip(x, y, w, h, width, height);
            forall p :: p in Paint(lit, if fill then clip else Border(clip), on) <==>
              if x <= p.x < x + w && y <= p.y < y + h && p.x < width && p.y < height
                 && (fill || p.x == x || p.x == x + w - 1 || p.x == width - 1
                     || p.y == y || p.y == y + h - 1 || p.y == height - 1)
              then on else p in lit
  {
    ClippedPoints(lit, x, y, w, h, on, width, height);
    BorderPoints(x, y, w, h, width, height);
  }

  /** The write commands, byte by byte and point by point. */
  lemma WriteMeans(lit: set<Point>, buff: seq<U8>, width: nat, height: nat)
    requires width > 0
    ensures var after := Draw(lit, ParseWrite(buff, true), width, height);
            && (buff == [0x03] ==> forall p :: p in after <==> p.x < width && p.y < 8 * PagesFor(height))
            && (buff == [0x04] ==> after == {})
            && (|buff| == 3 && buff[0] == 0x05 && buff[1] < width && buff[2] < height ==>
                  after == lit + {Point(buff[1], buff[2])})
            && (|buff| == 4 && buff[0] == 0x07 ==> forall p :: p in after <==>
                  p in lit || (0 <= p.x - buff[1] < buff[3] && p.y == buff[2] && p.x < width && p.y < height))
            && (|buff| == 4 && buff[0] == 0x08 ==> forall p :: p in after <==>
                  p in lit || (p.x == buff[1] && 0 <= p.y - buff[2] < buff[3] && p.x < width && p.y < height))
            && (|buff| == 5 && buff[0] == 0x09 ==> forall p :: p in after <==>
                  p in lit || (0 <= p.x - buff[1] < buff[3] && 0 <= p.y - buff[2] < buff[4]
                               && p.x < width && p.y < height))
            && (|buff| == 5 && buff[0] == 0x0A ==> forall p :: p in after <==>
                  p in lit && !(0 <= p.x - buff[1] < buff[3] && 0 <= p.y - buff[2] < buff[4]
                                && p.x < width && p.y < height))
  {
    if |buff| == 3 && buff[0] == 0x05 && buff[1] < width && buff[2] < height {
      PixelOnScreen(width, PagesFor(height), buff[1], buff[2]);
    } else if |buff| == 4 && buff[0] == 0x07 {
      ClippedPoints(lit, buff[1], buff[2], buff[3], 1, true, width, height);
    } else if |buff| == 4 && buff[0] == 0x08 {
      ClippedPoints(lit, buff[1], buff[2], 1, buff[3], true, width, height);
    } else if |buff| == 5 && (buff[0] == 0x09 || buff[0] == 0x0A) {
      ClippedPoints(lit, buff[1], buff[2], buff[3], buff[4], buff[0] == 0x09, width, height);
    }
  }

  /** The ioctl codes. */
  lemma IoctlMeans(lit: set<Point>, cmd: nat, width: nat, height: nat)
    requires width > 0
    ensures var c := ParseIoctl(cmd);
            && (c.DisplayOff? <==> cmd == 0x4501) && (c.DisplayOn? <==> cmd == 0x4502)
            && (Draws(c) <==> cmd == 0x4503 || cmd == 0x4504)
            && (forall p :: p in Draw(lit, c, width, height) <==>
                  if cmd == 0x4503 then p.x < width && p.y < 8 * PagesFor(height) else cmd != 0x4504 && p in lit)
  {
  }

  /** The byte strings that draw, and the two that switch the display. */
  lemma WriteKinds(buff: seq<U8>)
    ensures Draws(ParseWrite(buff, true)) <==>
              || buff == [0x03] || buff == [0x04]
              || (|buff| == 3 && buff[0] == 0x05) || (|buff| == 4 && (buff[0] == 0x07 || buff[0] == 0x08))
              || (|buff| == 5 && (buff[0] == 0x09 || buff[0] == 0x0A))
    ensures ParseWrite(buff, true).DisplayOff? <==> buff == [0x01]
    ensures ParseWrite(buff, true).DisplayOn? <==> buff == [0x02]
    ensures forall lit, width: nat, height: nat :: width > 0 && !Draws(ParseWrite(buff, true)) ==>
              Draw(lit, ParseWrite(buff, true), width, height) == lit
  {
  }

  lemma {:induction false} DrawAllInParts(lit: set<Point>, early: seq<Command>, late: seq<Command>, width: nat,
                                          height: nat)
    requires width > 0
    ensures DrawAll(lit, [], width, height) == lit
    ensures forall c :: DrawAll(lit, [c], width, height) == Draw(lit, c, width, height)
    ensures DrawAll(lit, early + late, width, height)
            == DrawAll(DrawAll(lit, early, width, height), late, width, height)
    decreases |late|
  {
    if late == [] {
      assert early + late == early;
    } else {
      var n := |late| - 1;
      assert (early + late)[..|early| + n] == early + late[..n];
      DrawAllInParts(lit, early, late[..n], width, height);
    }
  }

  /** Of a session only what follows its last fill or clear can be seen. */
  lemma FillForgets(lit: set<Point>, early: seq<Command>, on: bool, late: seq<Command>, width: nat, height: nat)
    requires width > 0
    ensures DrawAll(lit, early + [FillAll(on)] + late, width, height)
            == DrawAll(if on then Grid(width, PagesFor(height)) else {}, late, width, height)
  {
    var start := early + [FillAll(on)];
    assert start[..|start| - 1] == early;
    DrawAllInParts(lit, start, late, width, height);
  }

  /** Only a fill touches the padding rows below the screen. */
  lemma BoxesKeepPadding(lit: set<Point>, c: Command, width: nat, height: nat, p: Point)
    requires width > 0 && c.Box? && p.y >= height
    ensures p in Draw(lit, c, width, height) <==> p in lit
  {
  }

  /** A box over the whole screen, and a fill, agree but for the padding rows. */
  lemma FullBoxIsFill(lit: set<Point>, on: bool, width: U8, height: U8)
    requires 0 < width && 0 < height && lit <= Grid(width, PagesFor(height))
    ensures Draw(lit, Box(0, 0, width, height, on), width, height) == Draw(lit, FillAll(on), width, height)
       <==> forall p :: p in Grid(width, PagesFor(height)) && p.y >= height ==> (p in lit <==> on)
    ensures height % 8 == 0 ==>
            Draw(lit, Box(0, 0, width, height, on), width, height) == Draw(lit, FillAll(on), width, height)
    ensures Draw({}, Box(0, 0, 8, 12, true), 8, 12) != Draw({}, FillAll(true), 8, 12)
  {
    var box, fill := Draw(lit, Box(0, 0, width, height, on), width, height), Draw(lit, FillAll(on), width, height);
    var grid := Grid(width, PagesFor(height));
    assert forall p :: p in box ==> p in grid;
    assert forall p :: p in grid && p.y < height ==> (p in box <==> on) && (p in fill <==> on);
    forall p | p in grid && p.y >= height ensures (p in box <==> p in lit) && (p in fill <==> on) {
      BoxesKeepPadding(lit, Box(0, 0, width, height, on), width, height, p);
    }
    if box == fill {
      assert forall p :: p in box <==> p in fill;
    }
    assert Point(0, 12) in Draw({}, FillAll(true), 8, 12);
    assert Point(0, 12) !in Draw({}, Box(0, 0, 8, 12, true), 8, 12);
  }

  /**
  The byte-wise fill and the bit-wise box over the whole screen leave the same buffer,
  byte for byte, exactly when the padding bits already had the colour; on a height that is
  a multiple of 8 there are none.
  */
  lemma FillEqualsFullBox(before: seq<bv8>, filled: seq<bv8>, boxed: seq<bv8>, on: bool, width: U8, height: U8)
    requires 0 < width && 0 < height
    requires IsFrame(before, width, PagesFor(height)) && IsFrame(filled, width, PagesFor(height))
    requires IsFrame(boxed, width, PagesFor(height)) && filled[0] == boxed[0]
    requires Lit(filled, width, PagesFor(height))
             == Draw(Lit(before, width, PagesFor(height)), FillAll(on), width, height)
    requires Lit(boxed, width, PagesFor(height))
             == Draw(Lit(before, width, PagesFor(height)), Box(0, 0, width, height, on), width, height)
    ensures filled == boxed
       <==> forall p :: p in Grid(width, PagesFor(height)) && p.y >= height ==> (LitAt(before, width, p) <==> on)
    ensures height % 8 == 0 ==> filled == boxed
  {
    FullBoxIsFill(Lit(before, width, PagesFor(height)), on, width, height);
    PictureDeterminesFrame(filled, boxed, width, PagesFor(height));
  }
}
