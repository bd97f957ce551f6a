/**
The OLED driver of modules/rpi_4b/1_i2c/OLED/module/i2c_oled.c: drawing into the frame
buffer in place, streaming it to the controller, and the write and ioctl commands. The
specification of every drawing operation is an update of the set of lit points.
*/
module Oled {
  import opened DeviceInterface
  import opened Drawing
  import opened Masking
  import opened PanelLink
  import opened PixelGrid
  import opened Ssd1306

  /** A call of the driver by a user program. */
  datatype Request = Write(buff: seq<U8>, copied: bool) | Ioctl(cmd: nat)

  function Meaning(r: Request): Command {
    match r
    case Write(buff, copied) => ParseWrite(buff, copied)
    case Ioctl(cmd) => ParseIoctl(cmd)
  }

  function Meanings(rs: seq<Request>): (cs: seq<Command>)
    ensures |cs| == |rs| && forall i :: 0 <= i < |rs| ==> cs[i] == Meaning(rs[i])
  {
    seq(|rs|, i requires 0 <= i < |rs| => Meaning(rs[i]))
  }

  class Oled {
    var buffer: array<bv8>
    var width: nat
    var height: nat
    var pages: nat
    var panel: Controller                  // the device at the other end of the bus

    ghost predicate Valid()
      reads this, buffer
    {
      && 0 < width < 256 && 0 < height < 256 && pages == PagesFor(height)
      && IsFrame(buffer[..], width, pages) && buffer[0] == PREFIX
      && width <= panel.columns && pages <= panel.rows
    }

    ghost function Picture(): set<Point>
      reads this, buffer
    {
      Lit(buffer[..], width, pages)
    }

    /**
    `ess_oled_probe` with every transfer succeeding: a cleared frame buffer, the controller
    configured and switched on, and the opening picture drawn. The controller may be in any
    state, waiting for an argument included.
    */
    constructor Probe(device: Controller)
      requires device.columns >= 128 && device.rows >= 8
      ensures Valid() && fresh(buffer) && width == 128 && height == 64 && pages == 8
      ensures Picture() == OpeningPicture()
      ensures Displayed(panel, width, pages) == Picture() && ReadyForShow(panel, width, pages)
      ensures panel.face == Face(true, 0, false, false, true, true)
      ensures AllSet(panel.settings, 64)
    {
      height := 64;
      width := 128;
      pages := 8;
      buffer := new bv8[128 * 8 + 1](i => 0);
      panel := device;
      new;
      StartDisplay();
      TestPixels();
      TestShapes();
    }

    /** The middle of probe: the prefix byte, the configuration and the first `show`. */
    method StartDisplay()
      requires width == 128 && height == 64 && pages == 8 && buffer.Length == 128 * 8 + 1
      requires forall k :: 0 <= k < buffer.Length ==> buffer[k] == 0x00
      requires panel.columns >= 128 && panel.rows >= 8
      modifies this`panel, buffer
      ensures Valid() && Picture() == {} && Showing(panel, Picture(), width, pages)
      ensures panel.face == Face(true, 0, false, false, true, true)
      ensures AllSet(panel.settings, height)
    {
      buffer[0] := PREFIX;
      UniformPicture(buffer[..], width, pages, 0x00);
      Configure();
      var ret := Show(NoFault(buffer.Length));
    }

    /** A pixel on the screen. */
    method LightPixel(x: U8, y: U8)
      requires Valid() && OnGrid(width, pages, Point(x, y))
      modifies buffer
      ensures Valid() && Picture() == old(Picture()) + {Point(x, y)}
    {
      PixelOnScreen(width, pages, x, y);
      SetPixel(x, y, 1);
    }

    /** A `show` on the running panel, every transfer succeeding. */
    method ShowAgain()
      requires Valid() && Showable(panel, width, pages)
      modifies this`panel
      ensures Valid() && Showing(panel, Picture(), width, pages)
      ensures panel.face == old(panel.face) && panel.settings == old(panel.settings)
    {
      var ret := Show(NoFault(buffer.Length));
    }

    /** The three pixels of probe: two corners and the middle. */
    method TestPixels()
      requires Valid() && width == 128 && height == 64 && pages == 8
      requires Showing(panel, Picture(), width, pages) && Picture() == {}
      modifies this`panel, buffer
      ensures Valid() && Showing(panel, Picture(), width, pages)
      ensures panel.face == old(panel.face) && panel.settings == old(panel.settings)
      ensures Picture() == {Point(0, 0), Point(64, 32), Point(127, 63)}
    {
      LightPixel(0, 0);
      LightPixel(64, 32);
      LightPixel(127, 63);
      ShowAgain();
    }

    /** The box and the two lines of probe. */
    method TestShapes()
      requires Valid() && width == 128 && height == 64 && pages == 8
      requires Showing(panel, Picture(), width, pages) && Picture() == {Point(0, 0), Point(64, 32), Point(127, 63)}
      modifies this`panel, buffer
      ensures Valid() && Showing(panel, Picture(), width, pages)
      ensures panel.face == old(panel.face) && panel.settings == old(panel.settings)
      ensures Picture() == OpeningPicture()
    {
      Rect(10, 10, 20, 10, 1, 1);
      ShowAgain();
      HLine(31, 11, 10, 1);
      ShowAgain();
      VLine(31, 11, 10, 1);
      ShowAgain();
      OpeningIsOnScreen();
    }

    /**
    The configuration commands of probe: from every addressing mode and with any argument
    pending, which the first two commands use up, the controller becomes ready, follows its
    RAM from the first row, and has all its settings.
    */
    method Configure()
      requires Valid()
      modifies this`panel
      ensures Valid() && SameSize(old(panel), panel) && panel.ram == old(panel.ram)
      ensures panel.horizontal && panel.await == Nothing
      ensures panel.face == Face(true, 0, false, false, true, true)
      ensures {0xA8, 0xD3, 0xDA, 0xD5, 0xD9, 0xDB, 0x81, 0x8D} <= panel.settings.Keys
      ensures panel.settings[0xA8] == height - 1 && panel.settings[0xD3] == 0
      ensures panel.settings[0xDA] == if height == 32 || height == 16 then 0x02 else 0x12
      ensures panel.settings[0xD5] == 0x80 && panel.settings[0xD9] == 0xF1 && panel.settings[0xDB] == 0x30
      ensures panel.settings[0x81] == 0xFF && panel.settings[0x8D] == 0x14
    {
      Wake();
      Layout();
      Drive();
      TurnOn();
    }

    /** The first three settings: two pending arguments at most are used up, then the mode is set. */
    method Wake()
      requires Valid()
      modifies this`panel
      ensures Valid() && SameSize(old(panel), panel) && panel.ram == old(panel.ram)
      ensures panel.horizontal && panel.await == Nothing
    {
      var ret := WriteCmd(SET_DISP_ON, 0);
      ret := WriteCmd(SET_DISP_OFF, 0);
      ret := WriteCmdData(SET_MEM_ADDR, 0x00, 0, 0);
    }

    /** Resolution and layout. */
    method Layout()
      requires Valid() && panel.await == Nothing
      modifies this`panel
      ensures panel == old(panel).(face := old(panel).face.(startLine := 0, remapped := true, flipped := true),
                                   settings := panel.settings)
      ensures panel.settings
              == old(panel).settings[0xA8 := height - 1][0xD3 := 0]
                                    [0xDA := if height == 32 || height == 16 then 0x02 else 0x12]
    {
      var ret := WriteCmd(SET_DISP_START_LINE, 0);
      ret := WriteCmd(SET_SEG_REMAP + 0x01, 0);
      ret := Setting(SET_MUX_RATIO, height - 1);
      ret := WriteCmd(SET_COM_OUT_DIR + 0x08, 0);
      ret := Setting(SET_DISP_OFFSET, 0x00);
      ret := Setting(SET_COM_PIN_CFG, if height == 32 || height == 16 then 0x02 else 0x12);
    }

    /** Timing and driving scheme. */
    method Drive()
      requires Valid() && panel.await == Nothing
      modifies this`panel
      ensures panel == old(panel).(settings := old(panel).settings[0xD5 := 0x80][0xD9 := 0xF1][0xDB := 0x30])
    {
      var ret := Setting(SET_DISP_CLK_DIV, 0x80);
      ret := Setting(SET_PRECHARGE, 0xF1);
      ret := Setting(SET_VCOM_DESEL, 0x30);
    }

    /** Contrast, the picture from RAM and not inverted, charge pump, on. */
    method TurnOn()
      requires Valid() && panel.await == Nothing
      modifies this`panel
      ensures panel == old(panel).(face := old(panel).face.(on := true, inverted := false, entireOn := false),
                                   settings := old(panel).settings[0x81 := 0xFF][0x8D := 0x14])
    {
      var ret := Setting(SET_CONTRAST, 0xFF);
      ret := WriteCmd(SET_ENTIRE_ON, 0);
      ret := WriteCmd(SET_NORM_INV, 0);
      ret := Setting(SET_CHARGE_PUMP, 0x14);
      ret := WriteCmd(SET_DISP_ON, 0);
    }

    /** A setting with one argument. */
    method Setting(cmd: U8, data: U8) returns (r: int)
      requires Valid() && panel.await == Nothing && TakesArgument(cmd)
      modifies this`panel
      ensures r == 0 && panel == old(panel).(settings := old(panel).settings[cmd := data])
    {
      r := WriteCmdData(cmd, data, 0, 0);
    }

    /** `write_cmd_data`: the data byte follows only a command that reported 0. */
    method WriteCmdData(cmd: U8, data: U8, ret1: int, ret2: int) returns (r: int)
      requires panel.columns > 0 && panel.rows > 0
      modifies this`panel
      ensures r == if ret1 == 0 then ret2 else ret1
      ensures panel == if ret1 < 0 then old(panel)
                       else if ret1 > 0 || ret2 < 0 then Ssd1306.Command(old(panel), cmd)
                       else Ssd1306.Command(Ssd1306.Command(old(panel), cmd), data)
    {
      r := WriteCmd(cmd, ret1);
      if r == 0 {
        r := WriteCmd(data, ret2);
      }
    }

    /** `set_pixel`; a pixel off the screen can still index into the buffer. */
    method SetPixel(x: U8, y: U8, color: U8)
      requires Valid() && ByteIndex(width, x, y) <= width * pages
      modifies buffer
      ensures Valid()
      ensures Picture() == Paint(old(Picture()), {PixelOf(width, ByteIndex(width, x, y), y % 8)}, color != 0)
      ensures x < width && y < height ==>
                Picture() == if color != 0 then old(Picture()) + {Point(x, y)} else old(Picture()) - {Point(x, y)}
    {
      PixelPaints(buffer[..], width, pages, x, y, color != 0);
      ghost var before := buffer[..];
      var stride := width;
      var index := (y / 8) * stride + x;
      MaskIsModulus(y, 3);
      var offset := And(y, 0x07);
      assert index + 1 == ByteIndex(width, x, y);
      buffer[index + 1] := WithBit(buffer[index + 1], offset, color != 0);
      assert buffer[..] == WriteRow(before, index + 1, 1, offset, color != 0);
    }

    /** `get_pixel`: 1 when the pixel is lit. */
    function GetPixel(x: U8, y: U8): (color: int)
      requires Valid() && ByteIndex(width, x, y) <= width * pages
      reads this, buffer
      ensures color == if PixelOf(width, ByteIndex(width, x, y), y % 8) in Picture() then 1 else 0
      ensures x < width && y < height ==> color == if Point(x, y) in Picture() then 1 else 0
    {
      if x < width && y < height then PixelOnScreen(width, pages, x, y); GetBit(x, y) else GetBit(x, y)
    }

    /** The bit of a pixel. */
    function GetBit(x: U8, y: U8): (color: int)
      requires Valid() && ByteIndex(width, x, y) <= width * pages
      reads this, buffer
      ensures color == if PixelOf(width, ByteIndex(width, x, y), y % 8) in Picture() then 1 else 0
    {
      BitToPixelAndBack(width, pages, ByteIndex(width, x, y), y % 8);
      if BitOf(buffer[ByteIndex(width, x, y)], y % 8) then 1 else 0
    }

    method Fill(color: U8)
      requires Valid()
      modifies buffer
      ensures Valid()
      ensures Picture() == if color != 0 then Grid(width, pages) else {}
      ensures forall p :: p in Picture() <==> color != 0 && p.x < width && p.y < 8 * pages
    {
      var fillValue: bv8 := 0x00;
      if color != 0 {
        fillValue := 0xFF;
      }
      var i := 0;
      while i < pages * width
        invariant 0 <= i < buffer.Length
        invariant buffer[0] == PREFIX
        invariant forall k :: 1 <= k <= i ==> buffer[k] == fillValue
      {
        buffer[i + 1] := fillValue;
        i := i + 1;
      }
      UniformPicture(buffer[..], width, pages, fillValue);
    }

    /** The inner loop of `fill_rect`: one bit of `n` bytes. */
    method WriteBits(first: nat, n: nat, offset: nat, on: bool)
      requires offset < 8 && first + n <= buffer.Length
      modifies buffer
      ensures buffer[..] == WriteRow(old(buffer[..]), first, n, offset, on)
    {
      ghost var before := buffer[..];
      var w := 0;
      while w < n
        invariant 0 <= w <= n
        invariant buffer[..] == WriteRow(before, first, w, offset, on)
      {
        buffer[first + w] := WithBit(buffer[first + w], offset, on);
        w := w + 1;
      }
    }

    /** The body of the outer loop of `fill_rect`: one row of pixels. */
    method FillRow(x: U8, row: U8, n: nat, on: bool)
      requires Valid() && x + n <= width && row < 8 * pages
      modifies buffer
      ensures Valid() && Picture() == Paint(old(Picture()), Region(x, row, n, 1), on)
    {
      var index := (row / 8) * width + x;
      MaskIsModulus(row, 3);
      var offset := And(row, 0x07);
      assert index + 1 == ByteIndex(width, x, row);
      RowInBuffer(width, pages, x, row, n);
      RowPaints(buffer[..], width, pages, x, row, n, on);
      WriteBits(index + 1, n, offset, on);
    }

    /** `fill_rect` on a rectangle inside the grid; its row counter is a byte. */
    method FillRect(x: U8, y: U8, w: U8, h: U8, color: U8)
      requires Valid() && x + w <= width && y + h <= 8 * pages
      modifies buffer
      ensures Valid()
      ensures Picture() == Paint(old(Picture()), Region(x, y, w, h), color != 0)
      ensures forall p :: p in Picture() <==>
                if x <= p.x < x + w && y <= p.y < y + h then color != 0 else p in old(Picture())
    {
      ghost var lit := Picture();
      ghost var done: nat := 0;
      var row: U8, left: U8 := y, h;
      while left > 0
        invariant Valid()
        invariant left + done == h && (left > 0 ==> row == y + done)
        invariant Picture() == Paint(lit, Region(x, y, w, done), color != 0)
        decreases left
      {
        assert row == y + done < 8 * pages;
        FillRow(x, row, w, color != 0);
        NextRow(lit, x, y, w, done, color != 0);
        row := (row + 1) % 256;
        left := left - 1;
        done := done + 1;
      }
    }

    /** `rect`: the clipped rectangle when `fill` is set, its one-pixel border otherwise. */
    method Rect(x: U8, y: U8, w: U8, h: U8, color: U8, fill: U8)
      requires Valid()
      modifies buffer
      ensures Valid()
      ensures var clip := Clip(x, y, w, h, width, height);
              Picture() == Paint(old(Picture()), if fill != 0 then clip else Border(clip), color != 0)
      ensures forall p :: p in Picture() <==>
                if x <= p.x < x + w && y <= p.y < y + h && p.x < width && p.y < height
                   && (fill != 0 || p.x == x || p.x == x + w - 1 || p.x == width - 1
                       || p.y == y || p.y == y + h - 1 || p.y == height - 1)
                then color != 0 else p in old(Picture())
    {
      ghost var lit := Picture();
      ClipAndFill(x, y, w, h, color, fill);
      RectPoints(lit, x, y, w, h, fill != 0, color != 0, width, height);
    }

    /** The body of `rect`. */
    method ClipAndFill(x: U8, y: U8, w: U8, h: U8, color: U8, fill: U8)
      requires Valid()
      modifies buffer
      ensures Valid()
      ensures var clip := Clip(x, y, w, h, width, height);
              Picture() == Paint(old(Picture()), if fill != 0 then clip else Border(clip), color != 0)
    {
      if w < 1 || h < 1 || x + w <= 0 || y + h <= 0 || y >= height || x >= width {
        EmptyClip(x, y, w, h, width, height);
        return;
      }
      var xEnd := if width - 1 < x + w - 1 then width - 1 else x + w - 1;
      var yEnd := if height - 1 < y + h - 1 then height - 1 else y + h - 1;
      var clippedW, clippedH := ToU8(xEnd - x + 1), ToU8(yEnd - y + 1);
      ClipIsRegion(x, y, w, h, width, height, clippedW, clippedH);
      if fill != 0 {
        FillRect(x, y, clippedW, clippedH, color);
      } else {
        BorderIsFourStrips(x, y, xEnd, yEnd, clippedW, clippedH);
        Outline(x, y, xEnd, yEnd, color);
      }
    }

    /** The four strips of an outlined rectangle; they overlap in the corners. */
    method Outline(x: U8, y: U8, xEnd: U8, yEnd: U8, color: U8)
      requires Valid() && x <= xEnd < width && y <= yEnd < height
      modifies buffer
      ensures Valid() && Picture() == Paint(old(Picture()), FourStrips(x, y, xEnd, yEnd), color != 0)
    {
      var w, h: U8 := ToU8(xEnd - x + 1), ToU8(yEnd - y + 1);
      assert w == xEnd - x + 1 && h == yEnd - y + 1;
      ghost var lit := Picture();
      UpperLeft(x, y, w, h, color);
      LowerRight(x, y, xEnd, yEnd, w, h, color);
      PaintTwice(lit, Region(x, y, w, 1) + Region(x, y, 1, h), Region(x, yEnd, w, 1) + Region(xEnd, y, 1, h),
                 color != 0);
      assert FourStrips(x, y, xEnd, yEnd)
          == (Region(x, y, w, 1) + Region(x, y, 1, h)) + (Region(x, yEnd, w, 1) + Region(xEnd, y, 1, h));
    }

    /** The upper and the left strip. */
    method UpperLeft(x: U8, y: U8, w: U8, h: U8, color: U8)
      requires Valid() && 0 < w && 0 < h && x + w <= width && y + h <= height
      modifies buffer
      ensures Valid()
      ensures Picture() == Paint(old(Picture()), Region(x, y, w, 1) + Region(x, y, 1, h), color != 0)
    {
      ghost var lit := Picture();
      FillRect(x, y, w, 1, color);
      FillRect(x, y, 1, h, color);
      PaintTwice(lit, Region(x, y, w, 1), Region(x, y, 1, h), color != 0);
    }

    /** The lower and the right strip. */
    method LowerRight(x: U8, y: U8, xEnd: U8, yEnd: U8, w: U8, h: U8, color: U8)
      requires Valid() && xEnd < width && yEnd < height && x + w <= width && y + h <= height
      modifies buffer
      ensures Valid()
      ensures Picture() == Paint(old(Picture()), Region(x, yEnd, w, 1) + Region(xEnd, y, 1, h), color != 0)
    {
      ghost var lit := Picture();
      FillRect(x, yEnd, w, 1, color);
      FillRect(xEnd, y, 1, h, color);
      PaintTwice(lit, Region(x, yEnd, w, 1), Region(xEnd, y, 1, h), color != 0);
    }

    method HLine(x: U8, y: U8, w: U8, color: U8)
      requires Valid()
      modifies buffer
      ensures Valid() && Picture() == Paint(old(Picture()), Clip(x, y, w, 1, width, height), color != 0)
      ensures forall p :: p in Picture() <==>
                if x <= p.x < x + w && p.y == y && p.x < width && p.y < height then color != 0
                else p in old(Picture())
    {
      Rect(x, y, w, 1, color, 1);
    }

    method VLine(x: U8, y: U8, h: U8, color: U8)
      requires Valid()
      modifies buffer
      ensures Valid() && Picture() == Paint(old(Picture()), Clip(x, y, 1, h, width, height), color != 0)
      ensures forall p :: p in Picture() <==>
                if p.x == x && y <= p.y < y + h && p.x < width && p.y < height then color != 0
                else p in old(Picture())
    {
      Rect(x, y, 1, h, color, 1);
    }

    /** `write_cmd`, where `ret` is what the bus reports. */
    method WriteCmd(cmd: U8, ret: int) returns (r: int)
      requires panel.columns > 0 && panel.rows > 0
      modifies this`panel
      ensures r == ret && panel == if ret < 0 then old(panel) else Ssd1306.Command(old(panel), cmd)
    {
      if ret >= 0 {
        panel := Ssd1306.Command(panel, cmd);
      }
      r := ret;
    }

    /** The six commands that open `show`; the first failure ends it. */
    method SetBothWindows(bus: Bus) returns (ret: int)
      requires Valid() && |bus.cmd| == 6
      modifies this`panel
      ensures ret < 0 <==> !CommandsSucceed(bus)
      ensures Valid() && panel == Opening(old(panel), FirstFailure(bus), width, pages)
    {
      AllSucceedOrFirstFails(bus);
      ghost var c := panel;
      var xpos0, xpos1 := 0, width - 1;
      ret := WriteCmd(SET_COL_ADDR, bus.cmd[0]);
      if ret < 0 { return; }
      assert panel == Opening(c, 1, width, pages);
      ret := WriteCmd(xpos0, bus.cmd[1]);
      if ret < 0 { return; }
      assert panel == Opening(c, 2, width, pages);
      ret := WriteCmd(xpos1, bus.cmd[2]);
      if ret < 0 { return; }
      assert panel == Opening(c, 3, width, pages);
      ret := WriteCmd(SET_PAGE_ADDR, bus.cmd[3]);
      if ret < 0 { return; }
      assert panel == Opening(c, 4, width, pages);
      ret := WriteCmd(0, bus.cmd[4]);
      if ret < 0 { return; }
      assert panel == Opening(c, 5, width, pages);
      ret := WriteCmd(pages - 1, bus.cmd[5]);
    }

    /**
    `show`. From any controller that is ready for it, when every transfer succeeds the
    controller displays the picture, wherever its windows and pointers were. When a command
    fails nothing is displayed; when the data transfer is cut short, exactly the bytes that
    reached the controller are. The controller is ready again exactly when no command failed
    or the first to fail was one that opens a window; with an argument already pending, it
    is followed exactly too.
    */
    method Show(bus: Bus) returns (ret: int)
      requires Valid() && WellFormed(bus, buffer.Length)
      modifies this`panel
      ensures Valid() && SameSize(old(panel), panel)
      ensures if CommandsSucceed(bus) then ret == bus.sent else ret < 0
      ensures !CommandsSucceed(bus) ==> panel.ram == old(panel.ram)
      ensures ReadyForShow(old(panel), width, pages) && CommandsSucceed(bus) ==>
                CellsWritten(old(panel), panel, buffer[..][1..], Payload(bus), width, pages)
      ensures ReadyForShow(old(panel), width, pages) ==>
                && SameMode(old(panel), panel)
                && (ReadyForShow(panel, width, pages) <==> Recoverable(bus))
      ensures Tracked(old(panel), width) ==>
                panel.horizontal && LinkOf(panel) == ShowLink(LinkOf(old(panel)), FirstFailure(bus), width)
      ensures ReadyForShow(old(panel), width, pages) && Succeeds(bus, buffer.Length) ==>
                && AtStart(panel, width, pages) && FrameInRam(panel, buffer[..], width, pages)
                && InRam(panel, width, pages) == Picture()
      ensures Showable(old(panel), width, pages) && Succeeds(bus, buffer.Length) ==>
                Showing(panel, Picture(), width, pages)
    {
      OpeningFollowed(panel, FirstFailure(bus), width, pages);
      if ReadyForShow(panel, width, pages) {
        WindowsSet(panel, width, pages);
      }
      ret := SetBothWindows(bus);
      if ret < 0 {
        return;
      }
      ret := MasterSend(bus);
      if Plain(panel) {
        UprightDisplay(panel, width, pages);
      }
    }

    /** `i2c_master_send` of the whole buffer. */
    method MasterSend(bus: Bus) returns (ret: int)
      requires Valid() && WellFormed(bus, buffer.Length)
      modifies this`panel
      ensures Valid() && ret == bus.sent && SameSettings(old(panel), panel)
      ensures AtStart(old(panel), width, pages) ==>
                CellsWritten(old(panel), panel, buffer[..][1..], Payload(bus), width, pages)
      ensures AtStart(old(panel), width, pages) && bus.sent == buffer.Length ==>
                && AtStart(panel, width, pages) && FrameInRam(panel, buffer[..], width, pages)
                && InRam(panel, width, pages) == Picture()
    {
      if AtStart(panel, width, pages) {
        PartialFrame(panel, buffer[..], bus.reached, width, pages);
        if bus.reached == buffer.Length {
          FrameIsDisplayed(panel, buffer[..], width, pages);
          assert buffer[..buffer.Length] == buffer[..];
        }
      }
      TransferKeepsSettings(panel, buffer[..bus.reached]);
      panel := Transfer(panel, buffer[..bus.reached]);
      ret := bus.sent;
    }

    /** Fill or clear, then update the display. */
    method FillAndShow(color: U8, bus: Bus) returns (ret: int)
      requires Valid() && WellFormed(bus, buffer.Length)
      modifies this`panel, buffer
      ensures Valid() && Picture() == Draw(old(Picture()), FillAll(color != 0), width, height)
      ensures PanelFollows(old(panel), FillAll(color != 0), bus, panel, Picture(), width, pages, buffer.Length)
    {
      Fill(color);
      ret := Show(bus);
    }

    /** The single-byte branch of `ess_oled_write`. */
    method WriteOne(buff: seq<U8>, bus: Bus)
      requires Valid() && WellFormed(bus, buffer.Length) && |buff| == 1
      modifies this`panel, buffer
      ensures Valid() && Picture() == Draw(old(Picture()), ParseWrite(buff, true), width, height)
      ensures PanelFollows(old(panel), ParseWrite(buff, true), bus, panel, Picture(), width, pages, buffer.Length)
    {
      SwitchIsFollowed(panel, ParseWrite(buff, true), bus, Picture(), width, pages, buffer.Length);
      var ret := 0;
      if buff[0] == CMD_DISABLE_SEQ_NUM {
        ret := WriteCmd(SET_DISP_OFF, bus.cmd[0]);
      } else if buff[0] == CMD_ENABLE_SEQ_NUM {
        ret := WriteCmd(SET_DISP_ON, bus.cmd[0]);
      } else if buff[0] == CMD_FILL_BUFFER_SEQ_NUM {
        ret := FillAndShow(1, bus);
      } else if buff[0] == CMD_CLEAR_BUFFER_SEQ_NUM {
        ret := FillAndShow(0, bus);
      }
    }

    /** The pixel branch. */
    method WriteThree(buff: seq<U8>, bus: Bus)
      requires Valid() && WellFormed(bus, buffer.Length) && |buff| == 3 && Safe(ParseWrite(buff, true), width, pages)
      modifies this`panel, buffer
      ensures Valid() && Picture() == Draw(old(Picture()), ParseWrite(buff, true), width, height)
      ensures PanelFollows(old(panel), ParseWrite(buff, true), bus, panel, Picture(), width, pages, buffer.Length)
    {
      if buff[0] == CMD_SET_PIXEL {
        SetPixel(buff[1], buff[2], 1);
        var ret := Show(bus);
      }
    }

    /** The line branch. */
    method WriteFour(buff: seq<U8>, bus: Bus)
      requires Valid() && WellFormed(bus, buffer.Length) && |buff| == 4
      modifies this`panel, buffer
      ensures Valid() && Picture() == Draw(old(Picture()), ParseWrite(buff, true), width, height)
      ensures PanelFollows(old(panel), ParseWrite(buff, true), bus, panel, Picture(), width, pages, buffer.Length)
    {
      if buff[0] == CMD_H_LINE {
        HLine(buff[1], buff[2], buff[3], 1);
        var ret := Show(bus);
      } else if buff[0] == CMD_V_LINE {
        VLine(buff[1], buff[2], buff[3], 1);
        var ret := Show(bus);
      }
    }

    /** The rectangle branch. */
    method WriteFive(buff: seq<U8>, bus: Bus)
      requires Valid() && WellFormed(bus, buffer.Length) && |buff| == 5
      modifies this`panel, buffer
      ensures Valid() && Picture() == Draw(old(Picture()), ParseWrite(buff, true), width, height)
      ensures PanelFollows(old(panel), ParseWrite(buff, true), bus, panel, Picture(), width, pages, buffer.Length)
    {
      if buff[0] == CMD_RECT_FILL {
        Rect(buff[1], buff[2], buff[3], buff[4], 1, 1);
        var ret := Show(bus);
      } else if buff[0] == CMD_RECT_CLEAR {
        Rect(buff[1], buff[2], buff[3], buff[4], 0, 1);
        var ret := Show(bus);
      }
    }

    /** `ess_oled_write`: the whole count is reported whatever happens. */
    method WriteBytes(buff: seq<U8>, copied: bool, bus: Bus) returns (count: nat)
      requires Valid() && WellFormed(bus, buffer.Length) && Safe(ParseWrite(buff, copied), width, pages)
      modifies this`panel, buffer
      ensures count == |buff|
      ensures Valid() && Picture() == Draw(old(Picture()), ParseWrite(buff, copied), width, height)
      ensures PanelFollows(old(panel), ParseWrite(buff, copied), bus, panel, Picture(), width, pages, buffer.Length)
      // the bytes, one by one
      ensures copied && buff == [0x03] ==> forall p :: p in Picture() <==> p.x < width && p.y < 8 * pages
      ensures copied && buff == [0x04] ==> Picture() == {}
      ensures copied && |buff| == 3 && buff[0] == 0x05 && buff[1] < width && buff[2] < height ==>
                Picture() == old(Picture()) + {Point(buff[1], buff[2])}
      ensures copied && |buff| == 4 && buff[0] == 0x07 ==> forall p :: p in Picture() <==>
                || p in old(Picture())
                || (0 <= p.x - buff[1] < buff[3] && p.y == buff[2] && p.x < width && p.y < height)
      ensures copied && |buff| == 4 && buff[0] == 0x08 ==> forall p :: p in Picture() <==>
                || p in old(Picture())
                || (p.x == buff[1] && 0 <= p.y - buff[2] < buff[3] && p.x < width && p.y < height)
      ensures copied && |buff| == 5 && buff[0] == 0x09 ==> forall p :: p in Picture() <==>
                || p in old(Picture())
                || (0 <= p.x - buff[1] < buff[3] && 0 <= p.y - buff[2] < buff[4] && p.x < width && p.y < height)
      ensures copied && |buff| == 5 && buff[0] == 0x0A ==> forall p :: p in Picture() <==>
                && p in old(Picture())
                && !(0 <= p.x - buff[1] < buff[3] && 0 <= p.y - buff[2] < buff[4] && p.x < width && p.y < height)
      ensures var draws := copied && (|| (|buff| == 1 && (buff[0] == 0x03 || buff[0] == 0x04))
                                      || (|buff| == 3 && buff[0] == 0x05)
                                      || (|buff| == 4 && (buff[0] == 0x07 || buff[0] == 0x08))
                                      || (|buff| == 5 && (buff[0] == 0x09 || buff[0] == 0x0A)));
              && (draws && ReadyForShow(old(panel), width, pages) && Plain(old(panel)) && Succeeds(bus, buffer.Length)
                  ==> Displayed(panel, width, pages) == Picture())
              && (!draws ==> Picture() == old(Picture()))
              && (!draws && !(copied && (buff == [0x01] || buff == [0x02])) ==> panel == old(panel))
      ensures copied && (buff == [0x01] || buff == [0x02]) && old(panel).await.Nothing? && bus.cmd[0] >= 0 ==>
                panel == old(panel).(face := old(panel).face.(on := buff == [0x02]))
    {
      WriteMeans(Picture(), buff, width, height);
      WriteKinds(buff);
      count := |buff|;
      if !copied {
        return;
      }
      if count == 1 {
        WriteOne(buff, bus);
      } else if count == 3 {
        WriteThree(buff, bus);
      } else if count == 4 {
        WriteFour(buff, bus);
      } else if count == 5 {
        WriteFive(buff, bus);
      }
    }

    /** `ess_oled_ioctl`; releasing the pollers does not concern the display. */
    method IoctlCommand(cmd: nat, bus: Bus) returns (retval: int)
      requires Valid() && WellFormed(bus, buffer.Length)
      modifies this`panel, buffer
      ensures retval == if 0x4501 <= cmd <= 0x4505 then 0 else -1
      ensures Valid() && Picture() == Draw(old(Picture()), ParseIoctl(cmd), width, height)
      ensures PanelFollows(old(panel), ParseIoctl(cmd), bus, panel, Picture(), width, pages, buffer.Length)
      // the codes, one by one
      ensures cmd == 0x4503 ==> forall p :: p in Picture() <==> p.x < width && p.y < 8 * pages
      ensures cmd == 0x4504 ==> Picture() == {}
      ensures (cmd == 0x4503 || cmd == 0x4504)
              && ReadyForShow(old(panel), width, pages) && Plain(old(panel)) && Succeeds(bus, buffer.Length)
              ==> Displayed(panel, width, pages) == Picture()
      ensures cmd != 0x4503 && cmd != 0x4504 ==> Picture() == old(Picture())
      ensures !(0x4501 <= cmd <= 0x4504) ==> panel == old(panel)
      ensures (cmd == 0x4501 || cmd == 0x4502) && old(panel).await.Nothing? && bus.cmd[0] >= 0 ==>
                panel == old(panel).(face := old(panel).face.(on := cmd == 0x4502))
    {
      SwitchIsFollowed(panel, ParseIoctl(cmd), bus, Picture(), width, pages, buffer.Length);
      retval := 0;
      var ret := 0;
      if cmd == IoctlCode(CMD_DISABLE_SEQ_NUM) {
        ret := WriteCmd(SET_DISP_OFF, bus.cmd[0]);
      } else if cmd == IoctlCode(CMD_ENABLE_SEQ_NUM) {
        ret := WriteCmd(SET_DISP_ON, bus.cmd[0]);
      } else if cmd == IoctlCode(CMD_FILL_BUFFER_SEQ_NUM) {
        ret := FillAndShow(1, bus);
      } else if cmd == IoctlCode(CMD_CLEAR_BUFFER_SEQ_NUM) {
        ret := FillAndShow(0, bus);
      } else if cmd != IoctlCode(CMD_RELEASE_POLL_SEQ_NUM) {
        retval := 0 - EPERM;
      }
    }

    /** One request of a user program. */
    method Serve(r: Request, bus: Bus)
      requires Valid() && WellFormed(bus, buffer.Length) && Safe(Meaning(r), width, pages)
      modifies this`panel, buffer
      ensures Valid() && Picture() == Draw(old(Picture()), Meaning(r), width, height)
      ensures PanelFollows(old(panel), Meaning(r), bus, panel, Picture(), width, pages, buffer.Length)
    {
      match r
      case Write(buff, copied) => var _ := WriteBytes(buff, copied, bus);
      case Ioctl(cmd) => var _ := IoctlCommand(cmd, bus);
    }

    /** The calls of a session, one after the other. */
    method ServeAll(rs: seq<Request>, buses: seq<Bus>, ghost l: Link, ghost held: bool)
      requires Valid() && |buses| == |rs|
      requires SixEach(buses) && forall i :: 0 <= i < |rs| ==> WellFormed(buses[i], buffer.Length)
      requires forall i :: 0 <= i < |rs| ==> Safe(Meaning(rs[i]), width, pages)
      requires l == LinkOf(panel) && held == (InRam(panel, width, pages) == Picture())
      modifies this`panel, buffer
      ensures Valid() && Picture() == DrawAll(old(Picture()), Meanings(rs), width, height)
      ensures old(panel).horizontal && Followable(l, Meanings(rs), buses, width) ==>
                OnTrack(l, held, Meanings(rs), buses, panel, Picture(), width, pages, buffer.Length)
    {
      ghost var cs, lit := Meanings(rs), Picture();
      ghost var good := panel.horizontal && Followable(l, cs, buses, width);
      var i := 0;
      while i < |rs|
        invariant 0 <= i <= |rs| && Valid()
        invariant Picture() == DrawAll(lit, cs[..i], width, height)
        invariant good ==> OnTrack(l, held, cs[..i], buses[..i], panel, Picture(), width, pages, buffer.Length)
      {
        ghost var panel0, picture0 := panel, Picture();
        Serve(rs[i], buses[i]);
        if good {
          OnTrackNext(l, held, cs, buses, i, panel0, picture0, panel, Picture(), width, pages, buffer.Length);
        }
        OneMoreRequest(cs, buses, i);
        i := i + 1;
      }
      assert cs[..|rs|] == cs && buses[..|rs|] == buses;
    }

    /**
    Any sequence of requests, with a bus that may fail. The frame buffer follows the fold of
    the commands on the picture whatever the bus does. A controller in horizontal addressing
    is followed exactly. If the last drawing request was sent whole to a controller that
    waited for nothing, its RAM holds the picture at the end, and with start line 0 it is
    shown: earlier short or failed transfers are made good.
    */
    method Session(rs: seq<Request>, buses: seq<Bus>)
      requires Valid() && |buses| == |rs|
      requires SixEach(buses) && forall i :: 0 <= i < |rs| ==> WellFormed(buses[i], buffer.Length)
      requires forall i :: 0 <= i < |rs| ==> Safe(Meaning(rs[i]), width, pages)
      modifies this`panel, buffer
      ensures Valid() && Picture() == DrawAll(old(Picture()), Meanings(rs), width, height)
      ensures old(panel).horizontal && Followable(LinkOf(old(panel)), Meanings(rs), buses, width) ==>
                && panel.horizontal
                && LinkOf(panel) == FollowAll(LinkOf(old(panel)), Meanings(rs), buses, width)
                && (SentWhole(InRam(old(panel), width, pages) == old(Picture()), LinkOf(old(panel)),
                              Meanings(rs), buses, width, buffer.Length)
                    ==> InRam(panel, width, pages) == Picture()
                        && (panel.face.startLine == 0 && !panel.face.inverted && !panel.face.entireOn ==>
                              Displayed(panel, width, pages) == Picture()))
    {
      ServeAll(rs, buses, LinkOf(panel), InRam(panel, width, pages) == Picture());
      if Plain(panel) {
        UprightDisplay(panel, width, pages);
      }
    }
  }

  /** A write whose bytes arrived, one whose bytes did not, and an ioctl. */
  lemma RequestMeans(lit: set<Point>, r: Request, width: nat, height: nat)
    requires width > 0
    ensures r.Write? && r.copied ==> Meaning(r) == ParseWrite(r.buff, true)
    ensures r.Write? && !r.copied ==> Meaning(r) == Ignored
    ensures r.Ioctl? ==>
              && (Meaning(r).DisplayOff? <==> r.cmd == 0x4501) && (Meaning(r).DisplayOn? <==> r.cmd == 0x4502)
              && (Draws(Meaning(r)) <==> r.cmd == 0x4503 || r.cmd == 0x4504)
              && (forall p :: p in Draw(lit, Meaning(r), width, height) <==>
                    if r.cmd == 0x4503 then p.x < width && p.y < 8 * PagesFor(height)
                    else r.cmd != 0x4504 && p in lit)
  {
    if r.Ioctl? {
      IoctlMeans(lit, r.cmd, width, height);
    }
  }

  /** The controller is ready and would show its RAM from the top. */
  predicate Showable(c: Controller, width: nat, pages: nat) {
    ReadyForShow(c, width, pages) && Plain(c)
  }

  /** The controller is ready and displays `lit`. */
  ghost predicate Showing(c: Controller, lit: set<Point>, width: nat, pages: nat) {
    Showable(c, width, pages) && Displayed(c, width, pages) == lit
  }

  /** The settings with an argument, by the command bytes of the data sheet. */
  predicate AllSet(settings: map<nat, nat>, height: nat) {
    && {0xA8, 0xD3, 0xDA, 0xD5, 0xD9, 0xDB, 0x81, 0x8D} <= settings.Keys
    && settings[0xA8] == height - 1 && settings[0xD3] == 0
    && settings[0xDA] == (if height == 32 || height == 16 then 0x02 else 0x12)
    && settings[0xD5] == 0x80 && settings[0xD9] == 0xF1 && settings[0xDB] == 0x30
    && settings[0x81] == 0xFF && settings[0x8D] == 0x14
  }

  /** What probe draws: three pixels, a box and two lines. */
  function OpeningPicture(): (lit: set<Point>)
    ensures forall p :: p in lit <==>
              || p == Point(0, 0) || p == Point(64, 32) || p == Point(127, 63)
              || (10 <= p.x < 30 && 10 <= p.y < 20)
              || (31 <= p.x < 41 && p.y == 11) || (p.x == 31 && 11 <= p.y < 21)
  {
    {Point(0, 0), Point(64, 32), Point(127, 63)}
    + Region(10, 10, 20, 10) + Region(31, 11, 10, 1) + Region(31, 11, 1, 10)
  }

  lemma OpeningIsOnScreen()
    ensures Clip(10, 10, 20, 10, 128, 64) == Region(10, 10, 20, 10)
    ensures Clip(31, 11, 10, 1, 128, 64) == Region(31, 11, 10, 1)
    ensures Clip(31, 11, 1, 10, 128, 64) == Region(31, 11, 1, 10)
  {
  }

  lemma {:induction false} StreamKeepsSettings(c: Controller, bytes: seq<bv8>)
    ensures SameSettings(c, Stream(c, bytes))
    decreases |bytes|
  {
    if bytes != [] {
      StreamKeepsSettings(c, bytes[..|bytes| - 1]);
    }
  }

  lemma TransferKeepsSettings(c: Controller, bytes: seq<bv8>)
    ensures SameSettings(c, Transfer(c, bytes))
  {
    if bytes != [] {
      StreamKeepsSettings(c, bytes[1..]);
    }
  }

  /** Only RAM and the address pointers differ. */
  predicate SameSettings(before: Controller, after: Controller) {
    after == before.(col := after.col, page := after.page, ram := after.ram)
  }

  predicate SameSize(before: Controller, after: Controller) {
    after.columns == before.columns && after.rows == before.rows
  }

  /** The conversion of an `int` to `__u8`. */
  function ToU8(n: int): U8 {
    n % 256
  }

  lemma EmptyClip(x: nat, y: nat, w: nat, h: nat, width: nat, height: nat)
    requires w == 0 || h == 0 || x >= width || y >= height
    ensures Clip(x, y, w, h, width, height) == {} && Border(Clip(x, y, w, h, width, height)) == {}
  {
  }

  lemma ClipIsRegion(x: nat, y: nat, w: nat, h: nat, width: nat, height: nat, clippedW: nat, clippedH: nat)
    requires 0 < w && 0 < h && x < width && y < height
    requires x + clippedW == (if width < x + w then width else x + w)
    requires y + clippedH == (if height < y + h then height else y + h)
    ensures Clip(x, y, w, h, width, height) == Region(x, y, clippedW, clippedH)
  {
  }

  function FourStrips(x: nat, y: nat, xEnd: nat, yEnd: nat): set<Point>
    requires x <= xEnd && y <= yEnd
  {
    Region(x, y, xEnd - x + 1, 1) + Region(x, y, 1, yEnd - y + 1)
    + Region(x, yEnd, xEnd - x + 1, 1) + Region(xEnd, y, 1, yEnd - y + 1)
  }

  lemma BorderIsFourStrips(x: nat, y: nat, xEnd: nat, yEnd: nat, w: nat, h: nat)
    requires x <= xEnd && y <= yEnd && x + w == xEnd + 1 && y + h == yEnd + 1
    ensures Border(Region(x, y, w, h)) == FourStrips(x, y, xEnd, yEnd)
  {
    var area, strips := Region(x, y, w, h), FourStrips(x, y, xEnd, yEnd);
    forall p | p in area ensures AtEdge(area, p) <==> p in strips {
    }
    forall p | p in strips ensures p in area {
    }
  }

  lemma RowInBuffer(width: nat, pages: nat, x: nat, y: nat, n: nat)
    requires width > 0 && x + n <= width && y < 8 * pages
    ensures ByteIndex(width, x, y) + n <= width * pages + 1
  {
    RowBefore(width, y / 8, pages);
  }

  lemma NextRow(lit: set<Point>, x: nat, y: nat, w: nat, k: nat, on: bool)
    ensures Paint(Paint(lit, Region(x, y, w, k), on), Region(x, y + k, w, 1), on)
            == Paint(lit, Region(x, y, w, k + 1), on)
  {
    PaintTwice(lit, Region(x, y, w, k), Region(x, y + k, w, 1), on);
    assert Region(x, y, w, k) + Region(x, y + k, w, 1) == Region(x, y, w, k + 1);
  }

  lemma UniformPicture(buffer: seq<bv8>, width: nat, pages: nat, value: bv8)
    requires IsFrame(buffer, width, pages) && (value == 0x00 || value == 0xFF)
    requires forall k :: 1 <= k <= width * pages ==> buffer[k] == value
    ensures Lit(buffer, width, pages) == if value == 0xFF then Grid(width, pages) else {}
  {
    forall p | p in Grid(width, pages) ensures LitAt(buffer, width, p) <==> value == 0xFF {
      PixelToBitAndBack(width, pages, p);
      UniformBits(p.y % 8);
    }
  }

  lemma UniformBits(offset: nat)
    requires offset < 8
    ensures BitOf(0xFF, offset) && !BitOf(0x00, offset)
  {
    assert offset == 0 || offset == 1 || offset == 2 || offset == 3
        || offset == 4 || offset == 5 || offset == 6 || offset == 7;
  }
}
